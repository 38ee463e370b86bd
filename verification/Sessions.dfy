/**
 The `sessions` table and the sweep that closes rows whose target is gone: the writers of
 the table, the table updated in place, and the sweep as the loop it is. The races between
 the sweep and everything else are in `SessionRaces`.
 */
module Sessions {
  import opened Wrappers

  type SessionId = nat
  type Uid = nat

  datatype Kind = Desktop | Remote

  /** What a session is opened on: a Workspace object by UID, or a registered remote machine. */
  datatype Target = Target(kind: Kind, uid: Uid)

  datatype Session = Session(target: Target, startedAt: Instant, endedAt: Option<Instant>)

  type Table = map<SessionId, Session>

  datatype Statement =
    | Create(id: SessionId, session: Session)
    | End(id: SessionId, at: Instant)
    | EndAllForTarget(target: Target, at: Instant)

  /** The conditional update: only a row that has no end gets one. */
  function Ended(s: Session, at: Instant): Session {
    if s.endedAt.None? then s.(endedAt := Some(at)) else s
  }

  function Run(t: Table, s: Statement): Table {
    match s
    case Create(id, session) => if id in t then t else t[id := session]
    case End(id, at) => if id in t then t[id := Ended(t[id], at)] else t
    case EndAllForTarget(target, at) => map id | id in t :: if t[id].target == target then Ended(t[id], at) else t[id]
  }

  function RunAll(t: Table, ss: seq<Statement>): Table
    decreases |ss|
  {
    if ss == [] then t else RunAll(Run(t, ss[0]), ss[1..])
  }

  function OpenSessions(t: Table): set<SessionId> {
    set id | id in t && t[id].endedAt.None?
  }

  /** The row is still there, on the same target, and keeps the first end it got. */
  predicate Persists(before: Session, after: Session) {
    && after.target == before.target && after.startedAt == before.startedAt
    && (before.endedAt.Some? ==> after.endedAt == before.endedAt)
  }

  /** Whichever of the three paths ends a session first decides its end for good, in any order of statements. */
  lemma {:induction false} EndIsWriteOnce(t: Table, ss: seq<Statement>, id: SessionId)
    requires id in t
    ensures id in RunAll(t, ss) && Persists(t[id], RunAll(t, ss)[id])
    decreases |ss|
  {
    if ss != [] {
      EndIsWriteOnce(Run(t, ss[0]), ss[1..], id);
    }
  }

  // ----- resolving a session

  datatype Info = Connected(target: Target) | SessionNotFound | AlreadyEnded | TargetNotFound | NotRunning

  /** `ConnectionInfo`, as far as the session decides it: the end is looked at before the target. */
  function ConnectionInfo(t: Table, id: SessionId, known: set<Target>, running: set<Target>): Info {
    if id !in t then SessionNotFound
    else if t[id].endedAt.Some? then AlreadyEnded
    else if t[id].target !in known then TargetNotFound
    else if t[id].target !in running then NotRunning
    else Connected(t[id].target)
  }

  /** A session resolves to its own target exactly while it has no end and the target is known and running. */
  lemma ConnectsWhileOpen(t: Table, id: SessionId, known: set<Target>, running: set<Target>, target: Target)
    ensures ConnectionInfo(t, id, known, running) == Connected(target) <==>
            id in t && t[id].endedAt.None? && t[id].target == target && target in known && target in running
    ensures ConnectionInfo(t, id, known, running) == SessionNotFound <==> id !in t
    ensures ConnectionInfo(t, id, known, running) == AlreadyEnded <==> id in t && t[id].endedAt.Some?
    ensures ConnectionInfo(t, id, known, running) == TargetNotFound <==> id in t && t[id].endedAt.None? && t[id].target !in known
  {
  }

  /** Once ended, a session never resolves again, whatever happens to its target. */
  lemma EndedNeverConnects(t: Table, ss: seq<Statement>, id: SessionId, known: set<Target>, running: set<Target>)
    requires id in t && t[id].endedAt.Some?
    ensures ConnectionInfo(RunAll(t, ss), id, known, running) == AlreadyEnded
  {
    EndIsWriteOnce(t, ss, id);
  }

  /** The rows the conditional update of a target matches. */
  function Matched(t: Table, target: Target): set<SessionId> {
    set id | id in t && t[id].endedAt.None? && t[id].target == target
  }

  /** The matched rows, and no others, are closed. */
  lemma MatchedAreEnded(t: Table, target: Target, at: Instant)
    ensures Matched(t, target) <= OpenSessions(t)
    ensures OpenSessions(Run(t, EndAllForTarget(target, at))) == OpenSessions(t) - Matched(t, target)
  {
  }

  // ----- the table updated in place

  class SessionTable {
    var rows: Table

    constructor ()
      ensures rows == map[]
    {
      rows := map[];
    }

    method Open(id: SessionId, session: Session) returns (ok: bool)
      modifies this
      ensures ok <==> id !in old(rows)
      ensures rows == Run(old(rows), Create(id, session))
      ensures rows == if ok then old(rows)[id := session] else old(rows)
    {
      ok := id !in rows;
      if ok {
        rows := rows[id := session];
      }
    }

    method EndSession(id: SessionId, at: Instant)
      modifies this
      ensures rows == Run(old(rows), End(id, at))
      ensures rows == if id in old(rows) && old(rows)[id].endedAt.None? then old(rows)[id := old(rows)[id].(endedAt := Some(at))] else old(rows)
    {
      if id in rows && rows[id].endedAt.None? {
        rows := rows[id := rows[id].(endedAt := Some(at))];
      }
    }

    /** Returns how many sessions this call ended. */
    method EndAll(target: Target, at: Instant) returns (n: nat)
      modifies this
      ensures rows == Run(old(rows), EndAllForTarget(target, at))
      ensures rows.Keys == old(rows).Keys
      ensures forall id :: id in rows ==>
                rows[id] == if old(rows)[id].endedAt.None? && old(rows)[id].target == target then old(rows)[id].(endedAt := Some(at)) else old(rows)[id]
      ensures n == |OpenSessions(old(rows))| - |OpenSessions(rows)|
    {
      var matched := Matched(rows, target);
      n := |matched|;
      MatchedAreEnded(rows, target, at);
      rows := map id | id in rows :: if id in matched then rows[id].(endedAt := Some(at)) else rows[id];
      assert rows == Run(old(rows), EndAllForTarget(target, at));
      assert OpenSessions(rows) == OpenSessions(old(rows)) - matched;
    }

    /** Every open session, once. */
    method ListOpen() returns (open: seq<SessionId>)
      ensures forall id :: id in open <==> id in OpenSessions(rows)
      ensures forall i, j :: 0 <= i < j < |open| ==> open[i] != open[j]
    {
      open := [];
      var left := OpenSessions(rows);
      while left != {}
        invariant left <= OpenSessions(rows)
        invariant forall id :: id in open <==> id in OpenSessions(rows) - left
        invariant forall i, j :: 0 <= i < j < |open| ==> open[i] != open[j]
        decreases left
      {
        var id :| id in left;
        assert id !in open;
        open := open + [id];
        left := left - {id};
      }
    }
  }

  // ----- the sweep

  /** Looking a remote machine up may also fail; the whole registry is absent without the feature. */
  datatype RemoteLookup = Known | Missing | LookupFailed

  predicate Orphaned(t: Target, live: set<Uid>, remotes: Option<Uid -> RemoteLookup>) {
    match t.kind
    case Remote => remotes.Some? && remotes.value(t.uid) == Missing
    case Desktop => t.uid !in live
  }

  predicate Fails(t: Target, remotes: Option<Uid -> RemoteLookup>) {
    t.kind.Remote? && remotes.Some? && remotes.value(t.uid) == LookupFailed
  }

  /** A row after the sweep: orphans get the sweep's instant as their end. */
  function SweptRow(s: Session, live: set<Uid>, remotes: Option<Uid -> RemoteLookup>, now: Instant): Session {
    if Orphaned(s.target, live, remotes) then Ended(s, now) else s
  }

  /**
   One pass alone: it reports success exactly when no lookup failed, and then exactly the
   open orphans were ended, at the pass's instant. A failed pass ended orphans only.
   */
  method Sweep(sessions: SessionTable, live: set<Uid>, remotes: Option<Uid -> RemoteLookup>, now: Instant) returns (ok: bool)
    modifies sessions
    ensures sessions.rows.Keys == old(sessions.rows).Keys
    ensures ok <==> forall id :: id in old(sessions.rows) && old(sessions.rows)[id].endedAt.None? && old(sessions.rows)[id].target.kind.Remote? ==>
              remotes.None? || remotes.value(old(sessions.rows)[id].target.uid) != LookupFailed
    ensures forall id :: id in sessions.rows ==>
              var before, after := old(sessions.rows)[id], sessions.rows[id];
              var orphan := if before.target.kind.Desktop? then before.target.uid !in live
                            else remotes.Some? && remotes.value(before.target.uid) == Missing;
              && (after == before || after == before.(endedAt := Some(now)))
              && (after != before ==> before.endedAt.None? && orphan)
              && (ok && before.endedAt.None? && orphan ==> after.endedAt == Some(now))
  {
    var open := sessions.ListOpen();
    ghost var before := sessions.rows;
    forall k | 0 <= k < |open|
      ensures open[k] in before && before[open[k]].endedAt.None?
    {
      assert open[k] in open && open[k] in OpenSessions(before);
    }
    forall id | id in before
      ensures var orphan := if before[id].target.kind.Desktop? then before[id].target.uid !in live
                            else remotes.Some? && remotes.value(before[id].target.uid) == Missing;
              SweptRow(before[id], live, remotes, now) ==
              if before[id].endedAt.None? && orphan then before[id].(endedAt := Some(now)) else before[id]
    {
    }
    for i := 0 to |open|
      invariant sessions.rows.Keys == before.Keys
      invariant forall k :: 0 <= k < i ==> !Fails(before[open[k]].target, remotes)
      invariant forall id :: id in before && id in open[..i] ==> sessions.rows[id] == SweptRow(before[id], live, remotes, now)
      invariant forall id :: id in before && id !in open[..i] ==> sessions.rows[id] == before[id]
    {
      var target := sessions.rows[open[i]].target;
      assert open[i] in before && before[open[i]].endedAt.None?;
      assert open[..i + 1] == open[..i] + [open[i]];
      assert target == before[open[i]].target;
      var orphaned := false;
      match target.kind {
        case Remote =>
          if remotes.Some? {
            var found := remotes.value(target.uid);
            if found == LookupFailed {
              return false;
            }
            orphaned := found == Missing;
          }
        case Desktop =>
          orphaned := target.uid !in live;
      }
      if orphaned {
        sessions.EndSession(open[i], now);
      }
    }
    assert open[..|open|] == open;
    forall id | id in before && id !in open
      ensures sessions.rows[id] == SweptRow(before[id], live, remotes, now)
    {
      assert before[id].endedAt.Some?;
    }
    forall id | id in before && before[id].endedAt.None?
      ensures !Fails(before[id].target, remotes)
    {
      assert id in OpenSessions(before);
      var k :| 0 <= k < |open| && open[k] == id;
    }
    ok := true;
  }
}
