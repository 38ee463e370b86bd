/**
 The idle sweep: last activity per workspace from the sessions table, and the loop that
 pauses what has been idle for too long. On SQLite the last activity is a MAX over text
 timestamps, so it may be up to a second early (`Timestamps`); the sweep is then right up
 to that second, and exactly right on native timestamps (`PausedWhenIdle`).
 */
module IdleSweep {
  import opened Wrappers
  import opened Sessions
  import opened Timestamps

  datatype Dialect = TextColumns | NativeColumns

  datatype Activity = Activity(last: Instant, activeNow: bool)

  /** A workspace object, as far as the sweep reads it. */
  datatype Workspace = Workspace(uid: Uid, created: Instant, paused: bool, deleting: bool)

  /** COALESCE(ended_at, started_at). */
  function Touched(s: Session): Instant {
    s.endedAt.GetOr(s.startedAt)
  }

  /** The group of one workspace, in scan order. */
  function Group(rows: seq<Session>, uid: Uid): seq<Session> {
    if rows == [] then []
    else (if rows[0].target.uid == uid then [rows[0]] else []) + Group(rows[1..], uid)
  }

  function Touches(rows: seq<Session>): (ts: seq<Instant>)
    ensures |ts| == |rows| && forall i :: 0 <= i < |rows| ==> ts[i] == Touched(rows[i])
  {
    if rows == [] then [] else [Touched(rows[0])] + Touches(rows[1..])
  }

  /** The aggregate of a non-empty group: what the engine's MAX returns, scanned back into a time. */
  function Aggregate(group: seq<Session>, d: Dialect): Activity
    requires group != []
  {
    var ts := Touches(group);
    var last := match d
      case NativeColumns => Latest(ts)
      case TextColumns => Decode(LatestText(Encoded(ts))).GetOr(0);
    Activity(last, exists s :: s in group && s.endedAt.None?)
  }

  lemma {:induction false} GroupMembers(rows: seq<Session>, uid: Uid)
    ensures forall s :: s in Group(rows, uid) <==> s in rows && s.target.uid == uid
  {
    if rows != [] {
      GroupMembers(rows[1..], uid);
      assert forall s :: s in rows <==> s == rows[0] || s in rows[1..];
    }
  }

  function Uids(rows: seq<Session>): set<Uid> {
    set s | s in rows :: s.target.uid
  }

  /** The aggregate of every group. */
  function Activities(rows: seq<Session>, d: Dialect): map<Uid, Activity> {
    map uid | uid in Uids(rows) && Group(rows, uid) != [] :: Aggregate(Group(rows, uid), d)
  }

  lemma GroupsAreUids(rows: seq<Session>, uid: Uid)
    ensures uid in Uids(rows) <==> Group(rows, uid) != []
  {
  }

  method ActivityByWorkspace(rows: seq<Session>, d: Dialect) returns (out: map<Uid, Activity>)
    ensures out == Activities(rows, d)
    ensures forall uid :: uid in out <==> Group(rows, uid) != []
  {
    hide Aggregate;
    out := map[];
    var left := Uids(rows);
    while left != {}
      invariant left <= Uids(rows) && out.Keys == Uids(rows) - left
      invariant forall uid :: uid in out ==> Group(rows, uid) != [] && out[uid] == Aggregate(Group(rows, uid), d)
      decreases left
    {
      var uid :| uid in left;
      GroupsAreUids(rows, uid);
      out := out[uid := Aggregate(Group(rows, uid), d)];
      left := left - {uid};
    }
    forall uid
      ensures uid in Uids(rows) <==> Group(rows, uid) != []
    {
      GroupsAreUids(rows, uid);
    }
  }

  /** The sweep's decision for one workspace. `idleAfter` is the resolved policy's limit, None when denied or unset. */
  predicate ShouldPause(ws: Workspace, activity: map<Uid, Activity>, idleAfter: Option<int>, now: Instant) {
    && !ws.paused && !ws.deleting
    && idleAfter.Some? && idleAfter.value > 0
    && !(ws.uid in activity && activity[ws.uid].activeNow)
    && now - IdleSince(ws, activity) >= idleAfter.value
  }

  function IdleSince(ws: Workspace, activity: map<Uid, Activity>): Instant {
    if ws.uid in activity && activity[ws.uid].last > ws.created then activity[ws.uid].last else ws.created
  }

  class Cluster {
    var workspaces: map<Uid, Workspace>

    /** One versioned write; `accepted` is the API server's answer. */
    method UpdateWorkspace(ws: Workspace, accepted: bool) returns (ok: bool)
      modifies this
      ensures ok == accepted
      ensures workspaces == if accepted then old(workspaces)[ws.uid := ws] else old(workspaces)
    {
      if accepted {
        workspaces := workspaces[ws.uid := ws];
      }
      ok := accepted;
    }
  }

  /** One pass over the listed workspaces: exactly those due, and whose write is accepted, end up paused; nothing else changes. */
  method Sweep(cluster: Cluster, listed: seq<Workspace>, rows: seq<Session>, d: Dialect,
               idleAfter: Workspace -> Option<int>, accepted: Uid -> bool, now: Instant)
    requires forall i :: 0 <= i < |listed| ==> listed[i].uid in cluster.workspaces && cluster.workspaces[listed[i].uid] == listed[i]
    requires forall i, j :: 0 <= i < j < |listed| ==> listed[i].uid != listed[j].uid
    modifies cluster
    ensures cluster.workspaces.Keys == old(cluster.workspaces).Keys
    ensures forall i :: 0 <= i < |listed| ==>
              var activity := Activities(rows, d);
              cluster.workspaces[listed[i].uid] ==
                if ShouldPause(listed[i], activity, idleAfter(listed[i]), now) && accepted(listed[i].uid)
                then listed[i].(paused := true) else listed[i]
    ensures forall i :: 0 <= i < |listed| ==>
              var limit := idleAfter(listed[i]);
              listed[i].paused || listed[i].deleting || limit.None? || limit.value <= 0 ==> cluster.workspaces[listed[i].uid] == listed[i]
    ensures forall uid :: uid in cluster.workspaces && (forall i :: 0 <= i < |listed| ==> listed[i].uid != uid) ==>
              cluster.workspaces[uid] == old(cluster.workspaces)[uid]
  {
    hide Activities;
    var activity := ActivityByWorkspace(rows, d);
    for k := 0 to |listed|
      invariant cluster.workspaces.Keys == old(cluster.workspaces).Keys
      invariant forall i :: 0 <= i < k ==>
                  cluster.workspaces[listed[i].uid] ==
                    if ShouldPause(listed[i], activity, idleAfter(listed[i]), now) && accepted(listed[i].uid)
                    then listed[i].(paused := true) else listed[i]
      invariant forall i :: k <= i < |listed| ==> cluster.workspaces[listed[i].uid] == listed[i]
      invariant forall uid :: uid in cluster.workspaces && (forall i :: 0 <= i < |listed| ==> listed[i].uid != uid) ==>
                  cluster.workspaces[uid] == old(cluster.workspaces)[uid]
    {
      var ws := listed[k];
      if ws.paused || ws.deleting {
        continue;
      }
      var limit := idleAfter(ws);
      if limit.None? || limit.value <= 0 {
        continue;
      }
      var seen := ws.uid in activity;
      if seen && activity[ws.uid].activeNow {
        continue;
      }
      var last := ws.created;
      if seen && activity[ws.uid].last > last {
        last := activity[ws.uid].last;
      }
      if now - last < limit.value {
        continue;
      }
      var ok := cluster.UpdateWorkspace(ws.(paused := true), accepted(ws.uid));
    }
  }

  // ----- how idle is idle

  predicate HasOpenSession(ws: Workspace, rows: seq<Session>) {
    exists s :: s in rows && s.target.uid == ws.uid && s.endedAt.None?
  }

  /** The latest end or start of the group is the end of one of its sessions, or the start of one still open. */
  lemma LatestTouch(group: seq<Session>)
    requires group != []
    ensures forall s :: s in group ==> (if s.endedAt.Some? then s.endedAt.value else s.startedAt) <= Latest(Touches(group))
    ensures exists s :: s in group && (if s.endedAt.Some? then s.endedAt.value else s.startedAt) == Latest(Touches(group))
  {
    var ts := Touches(group);
    forall s | s in group
      ensures (if s.endedAt.Some? then s.endedAt.value else s.startedAt) <= Latest(ts)
    {
      var i :| 0 <= i < |group| && group[i] == s;
      assert ts[i] == Touched(s) && ts[i] in ts;
    }
    var i :| 0 <= i < |ts| && ts[i] == Latest(ts);
    assert group[i] in group;
  }

  lemma AggregateIsClose(group: seq<Session>, d: Dialect)
    requires group != [] && (d.TextColumns? ==> forall s :: s in group ==> InRange(Touched(s)))
    ensures var a, latest := Aggregate(group, d), Latest(Touches(group));
            && a.last <= latest < a.last + 1_000_000_000
            && (d.NativeColumns? ==> a.last == latest)
    ensures forall s :: s in group ==> (if s.endedAt.Some? then s.endedAt.value else s.startedAt) <= Latest(Touches(group))
    ensures exists s :: s in group && (if s.endedAt.Some? then s.endedAt.value else s.startedAt) == Latest(Touches(group))
  {
    var ts := Touches(group);
    LatestTouch(group);
    if d.TextColumns? {
      forall t | t in ts
        ensures InRange(t)
      {
        var i :| 0 <= i < |ts| && ts[i] == t;
        assert group[i] in group;
      }
      MaxWithinASecond(ts);
    }
  }

  lemma OpenSessionIsActive(ws: Workspace, rows: seq<Session>, d: Dialect)
    ensures HasOpenSession(ws, rows) <==> Group(rows, ws.uid) != [] && Aggregate(Group(rows, ws.uid), d).activeNow
  {
    GroupMembers(rows, ws.uid);
    var group := Group(rows, ws.uid);
    if HasOpenSession(ws, rows) {
      var s :| s in rows && s.target.uid == ws.uid && s.endedAt.None?;
      assert s in group;
    }
  }

  lemma GroupInRange(rows: seq<Session>, uid: Uid)
    requires forall s :: s in rows ==> InRange(Touched(s))
    ensures forall s :: s in Group(rows, uid) ==> InRange(Touched(s))
  {
  }

  /** On the group's aggregate: due exactly when the limit is set and positive, nothing is open and the aggregate is that old. */
  lemma DueByAggregate(ws: Workspace, rows: seq<Session>, d: Dialect, idleAfter: Option<int>, now: Instant)
    ensures var group := Group(rows, ws.uid);
            ShouldPause(ws, Activities(rows, d), idleAfter, now) <==>
            && !ws.paused && !ws.deleting && idleAfter.Some? && idleAfter.value > 0 && now - ws.created >= idleAfter.value
            && !HasOpenSession(ws, rows) && (group != [] ==> now - Aggregate(group, d).last >= idleAfter.value)
  {
    hide Aggregate, HasOpenSession, Group, Uids;
    OpenSessionIsActive(ws, rows, d);
    GroupsAreUids(rows, ws.uid);
  }

  /** With nothing open, a bound on the aggregate's age is one on every end, up to how early the aggregate may be. */
  lemma EndsOfGroup(ws: Workspace, rows: seq<Session>, d: Dialect, limit: int, now: Instant)
    requires !HasOpenSession(ws, rows) && Group(rows, ws.uid) != [] && (d.TextColumns? ==> forall s :: s in rows ==> InRange(Touched(s)))
    ensures var last, early := Aggregate(Group(rows, ws.uid), d).last, if d.NativeColumns? then 0 else 999_999_999;
            var idle := forall s :: s in rows && s.target.uid == ws.uid ==> s.endedAt.Some? && now - s.endedAt.value >= limit;
            && (idle ==> now - last >= limit)
            && (now - last >= limit ==>
                  forall s :: s in rows && s.target.uid == ws.uid ==> s.endedAt.Some? && now - s.endedAt.value >= limit - early)
  {
    hide Aggregate, Group, Latest, Touches, InRange;
    var group := Group(rows, ws.uid);
    GroupMembers(rows, ws.uid);
    if d.TextColumns? {
      GroupInRange(rows, ws.uid);
    }
    AggregateIsClose(group, d);
  }

  /**
   On native timestamps a workspace is due exactly when it is neither paused nor being
   deleted, has a positive limit, and that limit has passed since its creation and since the
   end of each of its sessions, none of which is open. On text timestamps it may be due up
   to one second before the last of those ends is that old, and not otherwise.
   */
  lemma PausedWhenIdle(ws: Workspace, rows: seq<Session>, d: Dialect, idleAfter: Option<int>, now: Instant)
    requires d.TextColumns? ==> forall s :: s in rows ==> InRange(Touched(s))
    ensures var due, early := ShouldPause(ws, Activities(rows, d), idleAfter, now), if d.NativeColumns? then 0 else 999_999_999;
            var governed := !ws.paused && !ws.deleting && idleAfter.Some? && idleAfter.value > 0;
            && (due ==>
                  && governed && now - ws.created >= idleAfter.value
                  && forall s :: s in rows && s.target.uid == ws.uid ==> s.endedAt.Some? && now - s.endedAt.value >= idleAfter.value - early)
            && (governed && now - ws.created >= idleAfter.value ==>
                  var idle := forall s :: s in rows && s.target.uid == ws.uid ==> s.endedAt.Some? && now - s.endedAt.value >= idleAfter.value;
                  idle ==> due)
  {
    hide Aggregate, Group, InRange, Activities, ShouldPause;
    DueByAggregate(ws, rows, d, idleAfter, now);
    GroupMembers(rows, ws.uid);
    if idleAfter.Some? && !HasOpenSession(ws, rows) && Group(rows, ws.uid) != [] {
      EndsOfGroup(ws, rows, d, idleAfter.value, now);
    }
  }
}
