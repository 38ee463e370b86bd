/**
 The session sweep against everything it races with: connects holding a workspace they
 fetched earlier, deletions, the proxy's end-of-session callback, and other sweeps. Each
 query, list call and single-row update is one step.

 Main results: an orphan verdict is never wrong (`SweepSpares`), because open sessions are
 listed before live objects and no identifier is ever reused; and a sweep that succeeds
 has ended every session that was orphaned when it started (`SweepCovers`).
 */
module SessionRaces {
  import opened Wrappers
  import opened Listing
  import opened Sessions

  type SweepId = nat
  type ConnectId = nat

  /** A pass: it has its list of open sessions; it also has the live set and is at `next`; it found `next` orphaned; it returned. */
  datatype Pass =
    | Listed(open: seq<SessionId>)
    | Judging(open: seq<SessionId>, live: set<Uid>, next: nat)
    | Ending(open: seq<SessionId>, live: set<Uid>, next: nat)
    | Returned(ok: bool)

  datatype State = State(
    rows: Table,
    alive: set<Target>,              // workspace objects the cluster lists, machines the registry finds
    issued: set<Target>,             // every target that ever existed
    connects: map<ConnectId, Target>,
    passes: map<SweepId, Pass>)

  datatype Event =
    | Appear(target: Target)         // creation, under a fresh identifier
    | Disappear(target: Target)
    | Fetch(connect: ConnectId, target: Target)
    | Insert(connect: ConnectId, id: SessionId, at: Instant)
    | EndOne(id: SessionId, at: Instant)
    | EndAll(target: Target, at: Instant)
    | SweepOpen(sweep: SweepId)
    | Proceed(sweep: SweepId, move: Move)

  /** What a listed pass does next: list the live workspaces, judge a session, end an orphan, return an error. */
  datatype Move = ListLive | Judge | EndOrphan(now: Instant) | Fail

  function LiveWorkspaces(alive: set<Target>): set<Uid> {
    set t | t in alive && t.kind.Desktop? :: t.uid
  }

  function SetPass(s: State, sweep: SweepId, p: Pass): State {
    s.(passes := s.passes[sweep := p])
  }

  /** The sweep's answer to its next session: the live set for a workspace, a fresh lookup for a remote machine if there is a registry. */
  predicate Verdict(target: Target, live: set<Uid>, alive: set<Target>, registry: bool) {
    match target.kind
    case Desktop => target.uid !in live
    case Remote => registry && target !in alive
  }

  function Step(s: State, e: Event, registry: bool): Option<State> {
    match e
    case Appear(target) =>
      if target in s.issued then None else Some(s.(alive := s.alive + {target}, issued := s.issued + {target}))
    case Disappear(target) =>
      if target !in s.alive then None else Some(s.(alive := s.alive - {target}))
    case Fetch(connect, target) =>
      if connect in s.connects || target !in s.alive then None else Some(s.(connects := s.connects[connect := target]))
    case Insert(connect, id, at) =>
      if connect !in s.connects || id in s.rows then None
      else Some(s.(rows := Run(s.rows, Create(id, Session(s.connects[connect], at, None))), connects := s.connects - {connect}))
    case EndOne(id, at) => Some(s.(rows := Run(s.rows, End(id, at))))
    case EndAll(target, at) => Some(s.(rows := Run(s.rows, EndAllForTarget(target, at))))
    case SweepOpen(sweep) =>
      if sweep in s.passes then None
      else
        var open := Ascending(OpenSessions(s.rows));
        Some(SetPass(s, sweep, if open == [] then Returned(true) else Listed(open)))
    case Proceed(sweep, move) =>
      if sweep in s.passes then PassStep(s, sweep, s.passes[sweep], move, registry) else None
  }

  function PassStep(s: State, sweep: SweepId, p: Pass, move: Move, registry: bool): Option<State> {
    match move
    case ListLive =>
      if !p.Listed? then None else Some(SetPass(s, sweep, Judging(p.open, LiveWorkspaces(s.alive), 0)))
    case Judge =>
      if !p.Judging? then None
      else if p.next >= |p.open| then Some(SetPass(s, sweep, Returned(true)))
      else if p.open[p.next] !in s.rows then None
      else if Verdict(s.rows[p.open[p.next]].target, p.live, s.alive, registry) then Some(SetPass(s, sweep, Ending(p.open, p.live, p.next)))
      else Some(SetPass(s, sweep, Judging(p.open, p.live, p.next + 1)))
    case EndOrphan(now) =>
      if !p.Ending? || p.next >= |p.open| then None
      else Some(SetPass(s, sweep, Judging(p.open, p.live, p.next + 1)).(rows := Run(s.rows, End(p.open[p.next], now))))
    case Fail =>
      if p.Returned? then None else Some(SetPass(s, sweep, Returned(false)))
  }

  function Exec(s: State, es: seq<Event>, registry: bool): Option<State>
    decreases |es|
  {
    if es == [] then Some(s)
    else if Step(s, es[0], registry).None? then None
    else Exec(Step(s, es[0], registry).value, es[1..], registry)
  }

  predicate Start(s: State) {
    && s.alive <= s.issued && s.connects == map[] && s.passes == map[]
    && forall id :: id in s.rows ==> s.rows[id].target in s.issued
  }

  // ----- soundness

  /** A target that once existed and does not now is gone for good. */
  predicate Gone(s: State, target: Target) {
    target in s.issued && target !in s.alive
  }

  /** Whatever the pass has listed is still in the table, and what its live set misses is gone. */
  predicate PassSound(s: State, p: Pass) {
    && (p.Listed? || p.Judging? || p.Ending? ==> forall i :: 0 <= i < |p.open| ==> p.open[i] in s.rows)
    && (p.Judging? || p.Ending? ==>
          forall i :: 0 <= i < |p.open| && s.rows[p.open[i]].target.kind.Desktop? && s.rows[p.open[i]].target.uid !in p.live ==>
            Gone(s, s.rows[p.open[i]].target))
    && (p.Ending? ==> p.next < |p.open| && Gone(s, s.rows[p.open[p.next]].target))
  }

  ghost predicate Inv(s: State) {
    && s.alive <= s.issued
    && (forall id :: id in s.rows ==> s.rows[id].target in s.issued)
    && (forall c :: c in s.connects ==> s.connects[c] in s.issued)
    && (forall sweep :: sweep in s.passes ==> PassSound(s, s.passes[sweep]))
  }

  /** What a step does to the rest of the platform: rows persist, and what is gone stays gone. */
  ghost predicate Evolves(s: State, s': State) {
    && (forall id :: id in s.rows ==> id in s'.rows && Persists(s.rows[id], s'.rows[id]))
    && (forall t :: Gone(s, t) ==> Gone(s', t))
  }

  lemma RowsPersist(t: Table, st: Statement)
    ensures forall id :: id in t ==> id in Run(t, st) && Persists(t[id], Run(t, st)[id])
  {
  }

  lemma StepEvolves(s: State, e: Event, registry: bool)
    requires Inv(s) && Step(s, e, registry).Some?
    ensures Evolves(s, Step(s, e, registry).value)
  {
    hide Verdict, OpenSessions, Run, PassSound;
    forall st: Statement
      ensures forall id :: id in s.rows ==> id in Run(s.rows, st) && Persists(s.rows[id], Run(s.rows, st)[id])
    {
      RowsPersist(s.rows, st);
    }
  }

  lemma PassStaysSound(s: State, s': State, p: Pass)
    requires Evolves(s, s') && PassSound(s, p)
    ensures PassSound(s', p)
  {
  }

  lemma LossIsSeen(s: State, target: Target)
    requires Gone(s, target)
    ensures target.kind.Desktop? ==> target.uid !in LiveWorkspaces(s.alive)
  {
  }

  lemma MovedPassSound(s: State, sweep: SweepId, move: Move, registry: bool)
    requires Inv(s) && Step(s, Proceed(sweep, move), registry).Some?
    ensures var s' := Step(s, Proceed(sweep, move), registry).value;
            PassSound(s', s'.passes[sweep])
  {
  }

  lemma NewPassSound(s: State, sweep: SweepId, registry: bool)
    requires Inv(s) && Step(s, SweepOpen(sweep), registry).Some?
    ensures var s' := Step(s, SweepOpen(sweep), registry).value;
            PassSound(s', s'.passes[sweep])
  {
    var open := Ascending(OpenSessions(s.rows));
    assert forall i :: 0 <= i < |open| ==> open[i] in open;
  }

  lemma StepKeepsTargets(s: State, e: Event, registry: bool)
    requires Inv(s) && Step(s, e, registry).Some?
    ensures var s' := Step(s, e, registry).value;
            && s'.alive <= s'.issued
            && (forall id :: id in s'.rows ==> s'.rows[id].target in s'.issued)
            && (forall c :: c in s'.connects ==> s'.connects[c] in s'.issued)
  {
    hide PassSound, Verdict, OpenSessions;
  }

  lemma OtherPassesStay(s: State, e: Event, registry: bool, sweep: SweepId)
    requires Step(s, e, registry).Some? && sweep in Step(s, e, registry).value.passes
    requires !(e.SweepOpen? && e.sweep == sweep) && !(e.Proceed? && e.sweep == sweep)
    ensures sweep in s.passes && Step(s, e, registry).value.passes[sweep] == s.passes[sweep]
  {
    hide Run, Verdict, OpenSessions;
  }

  lemma StepKeepsInv(s: State, e: Event, registry: bool)
    requires Inv(s) && Step(s, e, registry).Some?
    ensures Inv(Step(s, e, registry).value)
  {
    hide PassSound, Step, Evolves;
    var s' := Step(s, e, registry).value;
    StepEvolves(s, e, registry);
    StepKeepsTargets(s, e, registry);
    forall sweep | sweep in s'.passes
      ensures PassSound(s', s'.passes[sweep])
    {
      if e.SweepOpen? && e.sweep == sweep {
        NewPassSound(s, sweep, registry);
      } else if e.Proceed? && e.sweep == sweep {
        MovedPassSound(s, sweep, e.move, registry);
      } else {
        OtherPassesStay(s, e, registry, sweep);
        PassStaysSound(s, s', s.passes[sweep]);
      }
    }
  }

  lemma {:induction false} RunsKeepInv(s: State, es: seq<Event>, registry: bool)
    requires Inv(s) && Exec(s, es, registry).Some?
    ensures Inv(Exec(s, es, registry).value)
    decreases |es|
  {
    if es != [] {
      StepKeepsInv(s, es[0], registry);
      RunsKeepInv(Step(s, es[0], registry).value, es[1..], registry);
    }
  }

  /** In every reachable state, a session a sweep is about to end has lost its target, for good. */
  lemma SweepSpares(s: State, es: seq<Event>, registry: bool, sweep: SweepId, now: Instant)
    requires Start(s) && Exec(s, es, registry).Some?
    requires Step(Exec(s, es, registry).value, Proceed(sweep, EndOrphan(now)), registry).Some?
    ensures var s' := Exec(s, es, registry).value;
            var p := s'.passes[sweep];
            p.open[p.next] in s'.rows && Gone(s', s'.rows[p.open[p.next]].target)
  {
    RunsKeepInv(s, es, registry);
    var s' := Exec(s, es, registry).value;
    assert PassSound(s', s'.passes[sweep]);
  }

  // ----- completeness

  /** The pass has ended the session, or still has it ahead, or has given up with an error. */
  predicate Handled(s: State, sweep: SweepId, id: SessionId)
    requires id in s.rows && sweep in s.passes
  {
    || s.rows[id].endedAt.Some?
    || match s.passes[sweep]
       case Listed(open) => id in open
       case Judging(open, _, next) => next <= |open| && id in open[next..]
       case Ending(open, _, next) => next <= |open| && id in open[next..]
       case Returned(ok) => !ok
  }

  /** The pass has not mistaken the lost target for a live one. */
  predicate SeesLoss(p: Pass, target: Target) {
    p.Judging? || p.Ending? ==> target.kind.Remote? || target.uid !in p.live
  }

  lemma StepKeepsOwnPass(s: State, sweep: SweepId, move: Move, registry: bool)
    requires Step(s, Proceed(sweep, move), registry).Some?
    ensures sweep in Step(s, Proceed(sweep, move), registry).value.passes
  {
  }

  lemma OwnStepHandles(s: State, sweep: SweepId, move: Move, registry: bool, id: SessionId)
    requires Inv(s) && Step(s, Proceed(sweep, move), registry).Some?
    requires id in s.rows && Gone(s, s.rows[id].target)
    requires s.rows[id].target.kind.Desktop? || registry
    requires Handled(s, sweep, id) && SeesLoss(s.passes[sweep], s.rows[id].target)
    ensures var s' := Step(s, Proceed(sweep, move), registry).value;
            id in s'.rows && Handled(s', sweep, id) && SeesLoss(s'.passes[sweep], s.rows[id].target)
  {
    var p := s.passes[sweep];
    LossIsSeen(s, s.rows[id].target);
    if p.Listed? {
      assert p.open[0..] == p.open;
    } else if p.next < |p.open| {
      assert p.open[p.next..] == [p.open[p.next]] + p.open[p.next + 1..];
    }
  }

  lemma PassesStay(s: State, e: Event, registry: bool, sweep: SweepId)
    requires Step(s, e, registry).Some? && sweep in s.passes && !(e.Proceed? && e.sweep == sweep)
    ensures sweep in Step(s, e, registry).value.passes && Step(s, e, registry).value.passes[sweep] == s.passes[sweep]
  {
    hide Run, Verdict, OpenSessions;
  }

  lemma StaysHandled(s: State, s': State, sweep: SweepId, id: SessionId)
    requires Evolves(s, s') && sweep in s.passes && sweep in s'.passes && s'.passes[sweep] == s.passes[sweep]
    requires id in s.rows && Handled(s, sweep, id)
    ensures id in s'.rows && Handled(s', sweep, id)
  {
  }

  lemma StepHandles(s: State, e: Event, registry: bool, sweep: SweepId, id: SessionId)
    requires Inv(s) && Step(s, e, registry).Some? && sweep in s.passes && id in s.rows
    requires Gone(s, s.rows[id].target) && (s.rows[id].target.kind.Desktop? || registry)
    requires Handled(s, sweep, id) && SeesLoss(s.passes[sweep], s.rows[id].target)
    ensures var s' := Step(s, e, registry).value;
            sweep in s'.passes && id in s'.rows && Handled(s', sweep, id) && SeesLoss(s'.passes[sweep], s.rows[id].target)
  {
    if e.Proceed? && e.sweep == sweep {
      OwnStepHandles(s, sweep, e.move, registry, id);
      StepKeepsOwnPass(s, sweep, e.move, registry);
    } else {
      hide Step, Handled, Evolves, Inv;
      StepEvolves(s, e, registry);
      PassesStay(s, e, registry, sweep);
      StaysHandled(s, Step(s, e, registry).value, sweep, id);
    }
  }

  lemma {:induction false} RunHandles(s: State, es: seq<Event>, registry: bool, sweep: SweepId, id: SessionId)
    requires Inv(s) && Exec(s, es, registry).Some? && sweep in s.passes && id in s.rows
    requires Gone(s, s.rows[id].target) && (s.rows[id].target.kind.Desktop? || registry)
    requires Handled(s, sweep, id) && SeesLoss(s.passes[sweep], s.rows[id].target)
    ensures var s' := Exec(s, es, registry).value;
            sweep in s'.passes && id in s'.rows && Handled(s', sweep, id)
    decreases |es|
  {
    if es != [] {
      StepHandles(s, es[0], registry, sweep, id);
      StepKeepsInv(s, es[0], registry);
      StepEvolves(s, es[0], registry);
      RunHandles(Step(s, es[0], registry).value, es[1..], registry, sweep, id);
    }
  }

  /** A sweep that starts after both the row and the loss of its target, and returns without error, leaves the session ended. */
  lemma SweepCovers(s: State, before: seq<Event>, after: seq<Event>, registry: bool, sweep: SweepId, id: SessionId)
    requires Start(s) && Exec(s, before, registry).Some?
    requires var s1 := Exec(s, before, registry).value;
             && id in s1.rows && Gone(s1, s1.rows[id].target) && (s1.rows[id].target.kind.Desktop? || registry)
             && Step(s1, SweepOpen(sweep), registry).Some?
             && Exec(Step(s1, SweepOpen(sweep), registry).value, after, registry).Some?
    ensures var s2 := Exec(Step(Exec(s, before, registry).value, SweepOpen(sweep), registry).value, after, registry).value;
            id in s2.rows && sweep in s2.passes && (s2.passes[sweep] == Returned(true) ==> s2.rows[id].endedAt.Some?)
  {
    var s1 := Exec(s, before, registry).value;
    RunsKeepInv(s, before, registry);
    StepKeepsInv(s1, SweepOpen(sweep), registry);
    assert s1.rows[id].endedAt.None? ==> id in Ascending(OpenSessions(s1.rows));
    RunHandles(Step(s1, SweepOpen(sweep), registry).value, after, registry, sweep, id);
  }

  // ----- the first end stays

  /** Over whole runs: the end a session got first, from whichever racing path, is the end it keeps. */
  lemma {:induction false} FirstEndStays(s: State, es: seq<Event>, registry: bool, id: SessionId)
    requires Inv(s) && Exec(s, es, registry).Some? && id in s.rows
    ensures id in Exec(s, es, registry).value.rows && Persists(s.rows[id], Exec(s, es, registry).value.rows[id])
    ensures s.rows[id].endedAt.Some? ==>
              forall known: set<Target>, running: set<Target> ::
                ConnectionInfo(Exec(s, es, registry).value.rows, id, known, running) == AlreadyEnded
    decreases |es|
  {
    if es != [] {
      StepEvolves(s, es[0], registry);
      StepKeepsInv(s, es[0], registry);
      FirstEndStays(Step(s, es[0], registry).value, es[1..], registry, id);
    }
  }
}
