/**
 The sweep with nothing in between: the interleaved steps of one pass, run back to back, end
 exactly the open sessions whose target is gone (`PassAlone`), as `Sessions.Sweep` does when
 its live set and its lookups are those of the same moment (`SweepSeesTheSame`).
 */
module SweepAlone {
  import opened Wrappers
  import opened Listing
  import opened Sessions
  import opened SessionRaces

  predicate OwnSteps(es: seq<Event>, sweep: SweepId) {
    forall i :: 0 <= i < |es| ==> es[i] == SweepOpen(sweep) || (es[i].Proceed? && es[i].sweep == sweep)
  }

  /** The sessions of `ids` whose target the pass finds gone get the end `now`. */
  ghost predicate EndsGone(before: Table, after: Table, ids: seq<SessionId>, live: set<Uid>, alive: set<Target>, registry: bool, now: Instant) {
    && after.Keys == before.Keys
    && forall id :: id in before ==>
         after[id] == if id in ids && Verdict(before[id].target, live, alive, registry) then Ended(before[id], now) else before[id]
  }

  lemma ExecFirst(s: State, e: Event, rest: seq<Event>, registry: bool)
    requires Step(s, e, registry).Some?
    ensures Exec(s, [e] + rest, registry) == Exec(Step(s, e, registry).value, rest, registry)
  {
    assert ([e] + rest)[1..] == rest;
  }

  lemma OneMore(before: Table, mid: Table, after: Table, ids: seq<SessionId>, i: nat, live: set<Uid>, alive: set<Target>, registry: bool, now: Instant)
    requires i < |ids| && ids[i] in before
    requires mid == if Verdict(before[ids[i]].target, live, alive, registry) then Run(before, End(ids[i], now)) else before
    requires EndsGone(mid, after, ids[i + 1..], live, alive, registry, now)
    ensures EndsGone(before, after, ids[i..], live, alive, registry, now)
  {
    hide Verdict;
    assert forall id :: id in ids[i..] <==> id == ids[i] || id in ids[i + 1..];
  }

  /** From its `i`-th session on, the pass ends the gone ones and returns. */
  lemma {:induction false} JudgesAlone(s: State, sweep: SweepId, open: seq<SessionId>, live: set<Uid>, i: nat, registry: bool, now: Instant)
    returns (es: seq<Event>, rows: Table)
    requires sweep in s.passes && s.passes[sweep] == Judging(open, live, i) && i <= |open|
    requires forall k :: 0 <= k < |open| ==> open[k] in s.rows
    ensures OwnSteps(es, sweep) && EndsGone(s.rows, rows, open[i..], live, s.alive, registry, now)
    ensures Exec(s, es, registry) == Some(s.(rows := rows, passes := s.passes[sweep := Returned(true)]))
    decreases |open| - i
  {
    hide EndsGone, OwnSteps, Exec, Verdict, Run;
    if i == |open| {
      rows := s.rows;
      es := LastJudge(s, sweep, open, live, registry, now);
    } else {
      var first, s' := JudgeOne(s, sweep, open, live, i, registry, now);
      var rest: seq<Event>;
      rest, rows := JudgesAlone(s', sweep, open, live, i + 1, registry, now);
      es := first + rest;
      OneMore(s.rows, s'.rows, rows, open, i, live, s.alive, registry, now);
      ExecJoins(s, first, s', rest, registry);
      OwnStepsJoin(first, rest, sweep);
      assert s.passes[sweep := Judging(open, live, i + 1)][sweep := Returned(true)] == s.passes[sweep := Returned(true)];
    }
  }

  lemma LastJudge(s: State, sweep: SweepId, open: seq<SessionId>, live: set<Uid>, registry: bool, now: Instant) returns (es: seq<Event>)
    requires sweep in s.passes && s.passes[sweep] == Judging(open, live, |open|)
    ensures OwnSteps(es, sweep) && EndsGone(s.rows, s.rows, open[|open|..], live, s.alive, registry, now)
    ensures Exec(s, es, registry) == Some(s.(passes := s.passes[sweep := Returned(true)]))
  {
    es := [Proceed(sweep, Judge)];
    ExecFirst(s, Proceed(sweep, Judge), [], registry);
    assert es == [Proceed(sweep, Judge)] + [];
  }

  /** One session judged, and ended when its target is gone. */
  lemma JudgeOne(s: State, sweep: SweepId, open: seq<SessionId>, live: set<Uid>, i: nat, registry: bool, now: Instant)
    returns (es: seq<Event>, s': State)
    requires sweep in s.passes && s.passes[sweep] == Judging(open, live, i) && i < |open| && open[i] in s.rows
    ensures OwnSteps(es, sweep) && Exec(s, es, registry) == Some(s')
    ensures s' == s.(rows := if Verdict(s.rows[open[i]].target, live, s.alive, registry) then Run(s.rows, End(open[i], now)) else s.rows,
                     passes := s.passes[sweep := Judging(open, live, i + 1)])
    ensures s'.rows.Keys == s.rows.Keys
  {
    hide Verdict;
    var judged := Step(s, Proceed(sweep, Judge), registry).value;
    if Verdict(s.rows[open[i]].target, live, s.alive, registry) {
      es := [Proceed(sweep, Judge)] + ([Proceed(sweep, EndOrphan(now))] + []);
      s' := Step(judged, Proceed(sweep, EndOrphan(now)), registry).value;
      ExecFirst(judged, Proceed(sweep, EndOrphan(now)), [], registry);
      ExecFirst(s, Proceed(sweep, Judge), [Proceed(sweep, EndOrphan(now))] + [], registry);
      assert judged.passes[sweep := Judging(open, live, i + 1)] == s.passes[sweep := Judging(open, live, i + 1)];
    } else {
      es := [Proceed(sweep, Judge)] + [];
      s' := judged;
      ExecFirst(s, Proceed(sweep, Judge), [], registry);
    }
  }

  lemma {:induction false} ExecJoins(s: State, es: seq<Event>, s': State, rest: seq<Event>, registry: bool)
    requires Exec(s, es, registry) == Some(s')
    ensures Exec(s, es + rest, registry) == Exec(s', rest, registry)
    decreases |es|
  {
    if es == [] {
      assert es + rest == rest;
    } else {
      assert (es + rest)[0] == es[0] && (es + rest)[1..] == es[1..] + rest;
      ExecJoins(Step(s, es[0], registry).value, es[1..], s', rest, registry);
    }
  }

  lemma OwnStepsJoin(es: seq<Event>, fs: seq<Event>, sweep: SweepId)
    requires OwnSteps(es, sweep) && OwnSteps(fs, sweep)
    ensures OwnSteps(es + fs, sweep)
  {
  }

  /** The lists and lookups of one moment tell exactly whether the target is alive. */
  lemma GoneExactly(t: Target, alive: set<Target>, registry: bool)
    ensures Verdict(t, LiveWorkspaces(alive), alive, registry) <==> t !in alive && (t.kind.Desktop? || registry)
  {
    if t.kind.Desktop? && t.uid in LiveWorkspaces(alive) {
      var u :| u in alive && u.kind.Desktop? && u.uid == t.uid;
      assert u == t;
    }
  }

  lemma OpenList(rows: Table)
    ensures var open := Ascending(OpenSessions(rows));
            && (forall id :: id in open <==> id in rows && rows[id].endedAt.None?)
            && (forall k :: 0 <= k < |open| ==> open[k] in rows)
  {
    var open := Ascending(OpenSessions(rows));
    assert forall k :: 0 <= k < |open| ==> open[k] in open;
  }

  /** The steps of a pass, back to back, from its list to its return. */
  lemma PassSteps(s: State, sweep: SweepId, registry: bool, now: Instant) returns (es: seq<Event>, rows: Table)
    requires sweep !in s.passes
    ensures OwnSteps(es, sweep) && EndsGone(s.rows, rows, Ascending(OpenSessions(s.rows)), LiveWorkspaces(s.alive), s.alive, registry, now)
    ensures Exec(s, es, registry) == Some(s.(rows := rows, passes := s.passes[sweep := Returned(true)]))
  {
    hide Step, Exec, Verdict, LiveWorkspaces, Run, OpenSessions, EndsGone, OwnSteps;
    var open, live := Ascending(OpenSessions(s.rows)), LiveWorkspaces(s.alive);
    OpenList(s.rows);
    if open == [] {
      rows := s.rows;
      es := NothingToJudge(s, sweep, registry, now);
    } else {
      var listed := SetPass(s, sweep, Judging(open, live, 0));
      var first := Lists(s, sweep, registry);
      var rest: seq<Event>;
      rest, rows := JudgesAlone(listed, sweep, open, live, 0, registry, now);
      assert open[0..] == open;
      es := first + rest;
      ExecJoins(s, first, listed, rest, registry);
      OwnStepsJoin(first, rest, sweep);
      assert listed.passes[sweep := Returned(true)] == s.passes[sweep := Returned(true)];
    }
  }

  lemma NothingToJudge(s: State, sweep: SweepId, registry: bool, now: Instant) returns (es: seq<Event>)
    requires sweep !in s.passes && Ascending(OpenSessions(s.rows)) == []
    ensures OwnSteps(es, sweep) && EndsGone(s.rows, s.rows, [], LiveWorkspaces(s.alive), s.alive, registry, now)
    ensures Exec(s, es, registry) == Some(s.(passes := s.passes[sweep := Returned(true)]))
  {
    hide OpenSessions, LiveWorkspaces, Verdict;
    es := [SweepOpen(sweep)] + [];
    ExecFirst(s, SweepOpen(sweep), [], registry);
  }

  lemma Lists(s: State, sweep: SweepId, registry: bool) returns (es: seq<Event>)
    requires sweep !in s.passes && Ascending(OpenSessions(s.rows)) != []
    ensures OwnSteps(es, sweep)
    ensures Exec(s, es, registry) == Some(SetPass(s, sweep, Judging(Ascending(OpenSessions(s.rows)), LiveWorkspaces(s.alive), 0)))
  {
    hide OpenSessions, LiveWorkspaces;
    var open := Ascending(OpenSessions(s.rows));
    var begun := SetPass(s, sweep, Listed(open));
    var listed := SetPass(s, sweep, Judging(open, LiveWorkspaces(s.alive), 0));
    assert Step(s, SweepOpen(sweep), registry) == Some(begun);
    assert begun.passes[sweep := listed.passes[sweep]] == listed.passes;
    assert Step(begun, Proceed(sweep, ListLive), registry) == Some(listed);
    es := [SweepOpen(sweep)] + ([Proceed(sweep, ListLive)] + []);
    ExecFirst(begun, Proceed(sweep, ListLive), [], registry);
    ExecFirst(s, SweepOpen(sweep), [Proceed(sweep, ListLive)] + [], registry);
  }

  /** A pass with nothing in between succeeds, and ends exactly the open sessions whose target is gone; those on machines only when there is a registry. */
  lemma PassAlone(s: State, sweep: SweepId, registry: bool, now: Instant) returns (es: seq<Event>)
    requires sweep !in s.passes
    ensures OwnSteps(es, sweep) && Exec(s, es, registry).Some?
    ensures var s' := Exec(s, es, registry).value;
            && sweep in s'.passes && s'.passes[sweep] == Returned(true)
            && s'.alive == s.alive && s'.issued == s.issued && s'.connects == s.connects && s'.rows.Keys == s.rows.Keys
            && forall id :: id in s.rows ==>
                 s'.rows[id] == if s.rows[id].endedAt.None? && s.rows[id].target !in s.alive && (s.rows[id].target.kind.Desktop? || registry)
                                then s.rows[id].(endedAt := Some(now)) else s.rows[id]
  {
    hide Exec, Verdict, LiveWorkspaces, Ascending, OpenSessions, OwnSteps;
    var rows: Table;
    es, rows := PassSteps(s, sweep, registry, now);
    OpenList(s.rows);
    forall id | id in s.rows
      ensures rows[id] == if s.rows[id].endedAt.None? && s.rows[id].target !in s.alive && (s.rows[id].target.kind.Desktop? || registry)
                          then s.rows[id].(endedAt := Some(now)) else s.rows[id]
    {
      GoneExactly(s.rows[id].target, s.alive, registry);
    }
  }

  /** A connect that fetched its target before the deletion leaves an open session on nothing; the next pass ends it. */
  lemma LateConnectIsSwept(s: State, target: Target, connect: ConnectId, id: SessionId, at: Instant, sweep: SweepId, registry: bool, now: Instant)
    returns (es: seq<Event>)
    requires target !in s.issued && connect !in s.connects && id !in s.rows && sweep !in s.passes && (target.kind.Desktop? || registry)
    ensures var race := [Appear(target), Fetch(connect, target), Disappear(target), Insert(connect, id, at)];
            && Exec(s, race, registry).Some?
            && id in Exec(s, race, registry).value.rows && Exec(s, race, registry).value.rows[id] == Session(target, at, None)
            && OwnSteps(es, sweep) && Exec(s, race + es, registry).Some?
            && id in Exec(s, race + es, registry).value.rows
            && Exec(s, race + es, registry).value.rows[id] == Session(target, at, Some(now))
  {
    var race := [Appear(target), Fetch(connect, target), Disappear(target), Insert(connect, id, at)];
    var s1 := Step(s, Appear(target), registry).value;
    var s2 := Step(s1, Fetch(connect, target), registry).value;
    var s3 := Step(s2, Disappear(target), registry).value;
    var s4 := Step(s3, Insert(connect, id, at), registry).value;
    ExecFirst(s3, Insert(connect, id, at), [], registry);
    ExecFirst(s2, Disappear(target), [Insert(connect, id, at)] + [], registry);
    ExecFirst(s1, Fetch(connect, target), [Disappear(target)] + ([Insert(connect, id, at)] + []), registry);
    ExecFirst(s, Appear(target), [Fetch(connect, target)] + ([Disappear(target)] + ([Insert(connect, id, at)] + [])), registry);
    assert race == [Appear(target)] + ([Fetch(connect, target)] + ([Disappear(target)] + ([Insert(connect, id, at)] + [])));
    es := PassAlone(s4, sweep, registry, now);
    ExecJoins(s, race, s4, es, registry);
  }

  /** The loop of `Sessions.Sweep`, given the live set and the lookups of one moment, judges as that pass does. */
  lemma SweepSeesTheSame(t: Target, alive: set<Target>, registry: bool, remotes: Option<Uid -> RemoteLookup>)
    requires remotes.Some? <==> registry
    requires registry ==> forall uid :: remotes.value(uid) == if Target(Remote, uid) in alive then Known else Missing
    ensures Orphaned(t, LiveWorkspaces(alive), remotes) <==> t !in alive && (t.kind.Desktop? || registry)
    ensures !Fails(t, remotes)
  {
    GoneExactly(t, alive, registry);
    assert t == Target(t.kind, t.uid);
  }
}
