/**
 The row locks under `AdminFloor`'s atomic lock step: a guard takes its candidate seats
 one at a time in ascending id order, over the candidates it saw when it started, then
 writes its target row. A guard waits for a row another guard holds.

 Ascending order alone does not rule out a wait cycle, because a guard's target need not
 be among its own candidates: the second guard of an edit of role and activation no longer
 lists the account the first one demoted. Guards never all wait as long as no such target
 is a candidate of another guard (`NeverStuck`). For two guards `TwoGuardsStickExactly`
 says, on their lists and targets alone, when they can come to wait for each other, and
 two runs show it happening. Nothing in the model breaks such a wait; PostgreSQL's deadlock
 detector aborts one of the two.
 */
module LockOrder {
  import opened Wrappers
  import opened Accounts

  type TxId = nat

  /** A guard in progress: `taken` of its candidates are locked, and its target row once it has written. */
  datatype Seeker = Seeker(candidates: seq<UserId>, taken: nat, target: UserId, wrote: bool)

  type Guards = map<TxId, Seeker>

  predicate Ascending(ids: seq<UserId>) {
    forall i, j :: 0 <= i < j < |ids| ==> ids[i] < ids[j]
  }

  predicate Holds(g: Seeker, id: UserId) {
    || (exists i :: 0 <= i < g.taken && i < |g.candidates| && g.candidates[i] == id)
    || (g.wrote && g.target == id)
  }

  /** The row the guard's next step locks; None when it only has to commit. */
  function Wants(g: Seeker): Option<UserId> {
    if g.taken < |g.candidates| then Some(g.candidates[g.taken])
    else if !g.wrote then Some(g.target)
    else None
  }

  predicate HeldByOther(gs: Guards, tx: TxId, id: UserId) {
    exists other :: other in gs && other != tx && Holds(gs[other], id)
  }

  predicate Blocked(gs: Guards, tx: TxId)
    requires tx in gs
  {
    Wants(gs[tx]).Some? && HeldByOther(gs, tx, Wants(gs[tx]).value)
  }

  datatype Event = Start(tx: TxId, candidates: seq<UserId>, target: UserId) | Proceed(tx: TxId)

  function Step(gs: Guards, e: Event): Option<Guards> {
    match e
    case Start(tx, candidates, target) =>
      if tx in gs || !Ascending(candidates) then None else Some(gs[tx := Seeker(candidates, 0, target, false)])
    case Proceed(tx) =>
      if tx !in gs || Blocked(gs, tx) then None
      else
        var g := gs[tx];
        if g.taken < |g.candidates| then Some(gs[tx := g.(taken := g.taken + 1)])
        else if !g.wrote then Some(gs[tx := g.(wrote := true)])
        else Some(gs - {tx})
  }

  function Exec(gs: Guards, es: seq<Event>): Option<Guards>
    decreases |es|
  {
    if es == [] then Some(gs)
    else if Step(gs, es[0]).None? then None
    else Exec(Step(gs, es[0]).value, es[1..])
  }

  /** A target its own guard did not list, nobody listed. */
  predicate TargetsListedByOwner(gs: Guards) {
    forall a, b :: a in gs && b in gs ==> gs[a].target in gs[a].candidates || gs[a].target !in gs[b].candidates
  }

  /** Row locks exclude each other, and every guard took its own in ascending order. */
  ghost predicate Inv(gs: Guards) {
    && (forall tx :: tx in gs ==> Ascending(gs[tx].candidates) && gs[tx].taken <= |gs[tx].candidates|)
    && (forall tx :: tx in gs && gs[tx].wrote ==> gs[tx].taken == |gs[tx].candidates|)
    && (forall a, b, id :: a in gs && b in gs && Holds(gs[a], id) && Holds(gs[b], id) ==> a == b)
  }

  lemma ProceedAddsWanted(g: Seeker, g': Seeker, id: UserId)
    requires Wants(g).Some?
    requires g' == if g.taken < |g.candidates| then g.(taken := g.taken + 1) else g.(wrote := true)
    ensures Holds(g', id) <==> Holds(g, id) || id == Wants(g).value
  {
  }

  lemma StepKeepsInv(gs: Guards, e: Event)
    requires Inv(gs) && Step(gs, e).Some?
    ensures Inv(Step(gs, e).value)
  {
    var gs' := Step(gs, e).value;
    forall a, b, id | a in gs' && b in gs' && Holds(gs'[a], id) && Holds(gs'[b], id)
      ensures a == b
    {
      if e.Proceed? && Wants(gs[e.tx]).Some? {
        ProceedAddsWanted(gs[e.tx], gs'[e.tx], id);
      }
    }
  }

  lemma {:induction false} RunsKeepInv(gs: Guards, es: seq<Event>)
    requires Inv(gs) && Exec(gs, es).Some?
    ensures Inv(Exec(gs, es).value)
    decreases |es|
  {
    if es != [] {
      StepKeepsInv(gs, es[0]);
      RunsKeepInv(Step(gs, es[0]).value, es[1..]);
    }
  }

  /** Whatever the targets: a guard waiting for one that is still collecting candidates, and waits itself, wants a lower row. */
  lemma WaitsUpwards(gs: Guards, tx: TxId, other: TxId)
    requires Inv(gs) && tx in gs && other in gs && tx != other
    requires Wants(gs[tx]).Some? && Holds(gs[other], Wants(gs[tx]).value) && gs[other].taken < |gs[other].candidates|
    ensures Wants(gs[tx]).value < Wants(gs[other]).value
  {
  }

  /** A guard with all its candidates that still waits wants a target it did not list; whoever holds that has written, and waits for nothing. */
  lemma WaitsForWriter(gs: Guards, other: TxId, holder: TxId)
    requires Inv(gs) && TargetsListedByOwner(gs) && other in gs && holder in gs && other != holder
    requires gs[other].taken == |gs[other].candidates| && !gs[other].wrote && Holds(gs[holder], gs[other].target)
    ensures gs[holder].wrote && !Blocked(gs, holder)
  {
    var g := gs[other];
    if g.target in g.candidates {
      var i :| 0 <= i < |g.candidates| && g.candidates[i] == g.target;
      assert Holds(g, g.target);
    }
  }

  /** Following who waits for whom climbs the ids until it meets a guard that can proceed. */
  lemma {:induction false} FollowWaits(gs: Guards, tx: TxId, top: nat) returns (free: TxId)
    requires Inv(gs) && TargetsListedByOwner(gs) && tx in gs
    requires forall a :: a in gs && Wants(gs[a]).Some? ==> Wants(gs[a]).value <= top
    ensures free in gs && !Blocked(gs, free)
    decreases if Wants(gs[tx]).Some? then top - Wants(gs[tx]).value else 0
  {
    if !Blocked(gs, tx) {
      free := tx;
    } else {
      var other :| other in gs && other != tx && Holds(gs[other], Wants(gs[tx]).value);
      if !Blocked(gs, other) {
        free := other;
      } else if gs[other].taken < |gs[other].candidates| {
        WaitsUpwards(gs, tx, other);
        free := FollowWaits(gs, other, top);
      } else {
        var holder :| holder in gs && holder != other && Holds(gs[holder], gs[other].target);
        WaitsForWriter(gs, other, holder);
        free := holder;
      }
    }
  }

  lemma HighestWanted(gs: Guards) returns (top: nat)
    ensures forall a :: a in gs && Wants(gs[a]).Some? ==> Wants(gs[a]).value <= top
  {
    if gs == map[] {
      top := 0;
    } else {
      var tx :| tx in gs;
      var rest := gs - {tx};
      var below := HighestWanted(rest);
      top := if Wants(gs[tx]).Some? && Wants(gs[tx]).value > below then Wants(gs[tx]).value else below;
      forall a | a in gs && Wants(gs[a]).Some?
        ensures Wants(gs[a]).value <= top
      {
        assert a != tx ==> a in rest && rest[a] == gs[a];
      }
    }
  }

  /** However many guards are open in a reachable state, some one of them can proceed. */
  lemma NeverStuck(es: seq<Event>) returns (free: TxId)
    requires Exec(map[], es).Some? && Exec(map[], es).value != map[]
    requires var gs := Exec(map[], es).value;
             forall a, b :: a in gs && b in gs && gs[a].target !in gs[a].candidates ==> gs[a].target !in gs[b].candidates
    ensures var gs := Exec(map[], es).value;
            free in gs && Step(gs, Proceed(free)).Some?
  {
    var gs := Exec(map[], es).value;
    RunsKeepInv(map[], es);
    var top := HighestWanted(gs);
    var tx :| tx in gs;
    free := FollowWaits(gs, tx, top);
  }

  // ----- two guards: exactly when they stick

  predicate Stuck(gs: Guards) {
    gs != map[] && forall tx :: tx in gs ==> Blocked(gs, tx)
  }

  function Both(x: TxId, a: Seeker, y: TxId, b: Seeker): Guards {
    map[x := a, y := b]
  }

  /** A guard that has just listed its candidates. */
  predicate Fresh(g: Seeker) {
    Ascending(g.candidates) && g.taken == 0 && !g.wrote
  }

  /** Runs of these two guards and no other. */
  predicate OnlyThese(es: seq<Event>, a: Seeker, b: Seeker) {
    forall i :: 0 <= i < |es| ==>
      es[i].Proceed? || es[i] == Start(0, a.candidates, a.target) || es[i] == Start(1, b.candidates, b.target)
  }

  predicate OnlyProceeds(es: seq<Event>) {
    forall i :: 0 <= i < |es| ==> es[i].Proceed?
  }

  predicate Shared(a: Seeker, b: Seeker, id: UserId) {
    id in a.candidates && id in b.candidates
  }

  /** The first guard's target is the other's to take before any row both list, and not its own. */
  ghost predicate TargetTakenFirst(a: Seeker, b: Seeker) {
    && a.target in b.candidates && a.target !in a.candidates
    && (exists id :: Shared(a, b, id)) && (forall id :: Shared(a, b, id) ==> a.target < id)
  }

  /** No row is listed by both, and each is after a row the other lists. */
  ghost predicate CrossedTargets(a: Seeker, b: Seeker) {
    (forall id :: !Shared(a, b, id)) && a.target in b.candidates && b.target in a.candidates
  }

  ghost predicate CanStick(a: Seeker, b: Seeker) {
    TargetTakenFirst(a, b) || TargetTakenFirst(b, a) || CrossedTargets(a, b)
  }

  /** The same guards, further on or gone. */
  predicate Descends(gs: Guards, a: Seeker, b: Seeker) {
    && (forall tx :: tx in gs ==> tx == 0 || tx == 1)
    && (0 in gs ==> gs[0].candidates == a.candidates && gs[0].target == a.target)
    && (1 in gs ==> gs[1].candidates == b.candidates && gs[1].target == b.target)
  }

  lemma {:induction false} RunsDescend(gs: Guards, es: seq<Event>, a: Seeker, b: Seeker)
    requires Inv(gs) && Descends(gs, a, b) && OnlyThese(es, a, b) && Exec(gs, es).Some?
    ensures Inv(Exec(gs, es).value) && Descends(Exec(gs, es).value, a, b)
    decreases |es|
  {
    if es != [] {
      StepKeepsInv(gs, es[0]);
      assert forall i :: 0 <= i < |es[1..]| ==> es[1..][i] == es[i + 1];
      RunsDescend(Step(gs, es[0]).value, es[1..], a, b);
    }
  }

  predicate WaitsFor(a: Seeker, b: Seeker) {
    Wants(a).Some? && Holds(b, Wants(a).value)
  }

  /** Two guards that wait for each other, with what the invariant says of them. */
  ghost predicate WaitMutually(a: Seeker, b: Seeker) {
    && Ascending(a.candidates) && Ascending(b.candidates) && a.taken <= |a.candidates| && b.taken <= |b.candidates|
    && (forall id :: !(Holds(a, id) && Holds(b, id)))
    && WaitsFor(a, b) && WaitsFor(b, a)
  }

  /** A listed row is held once it has been taken. */
  lemma ListedIsHeld(g: Seeker, id: UserId) returns (i: nat)
    requires id in g.candidates
    ensures i < |g.candidates| && g.candidates[i] == id && (i < g.taken ==> Holds(g, id))
  {
    i :| 0 <= i < |g.candidates| && g.candidates[i] == id;
  }

  /** A guard with all its candidates, waiting for one that still collects and waits for it. */
  lemma CollectorSticks(a: Seeker, b: Seeker)
    requires WaitMutually(a, b) && a.taken == |a.candidates| && b.taken < |b.candidates|
    requires !a.wrote && !b.wrote
    ensures TargetTakenFirst(a, b)
  {
    assert Shared(a, b, b.candidates[b.taken]);
    forall id | Shared(a, b, id)
      ensures a.target < id
    {
      var i := ListedIsHeld(a, id);
      var j := ListedIsHeld(b, id);
    }
    if a.target in a.candidates {
      var i := ListedIsHeld(a, a.target);
    }
  }

  lemma WritersStick(a: Seeker, b: Seeker)
    requires WaitMutually(a, b) && a.taken == |a.candidates| && b.taken == |b.candidates|
    ensures CrossedTargets(a, b)
  {
    forall id
      ensures !Shared(a, b, id)
    {
      if Shared(a, b, id) {
        var i := ListedIsHeld(a, id);
        var j := ListedIsHeld(b, id);
      }
    }
  }

  lemma CollectorsProceed(a: Seeker, b: Seeker)
    requires WaitMutually(a, b) && !a.wrote && !b.wrote
    ensures a.taken == |a.candidates| || b.taken == |b.candidates|
  {
  }

  lemma MutualWaitMeansCanStick(a: Seeker, b: Seeker)
    requires WaitMutually(a, b) && (a.wrote ==> a.taken == |a.candidates|) && (b.wrote ==> b.taken == |b.candidates|)
    ensures CanStick(a, b)
  {
    CollectorsProceed(a, b);
    if a.taken < |a.candidates| {
      CollectorSticks(b, a);
    } else if b.taken < |b.candidates| {
      CollectorSticks(a, b);
    } else {
      WritersStick(a, b);
    }
  }

  lemma StuckMeansWaiting(gs: Guards)
    requires Inv(gs) && Stuck(gs) && forall tx :: tx in gs ==> tx == 0 || tx == 1
    ensures 0 in gs && 1 in gs && WaitMutually(gs[0], gs[1])
  {
    var tx :| tx in gs;
    assert Blocked(gs, tx);
    assert Blocked(gs, 0) && Blocked(gs, 1);
  }

  // ----- and the runs that get there

  function Repeat(e: Event, n: nat): (es: seq<Event>)
    ensures |es| == n && forall i :: 0 <= i < n ==> es[i] == e
  {
    if n == 0 then [] else [e] + Repeat(e, n - 1)
  }

  lemma {:induction false} ExecConcat(gs: Guards, es: seq<Event>, fs: seq<Event>)
    requires Exec(gs, es).Some?
    ensures Exec(gs, es + fs) == Exec(Exec(gs, es).value, fs)
    decreases |es|
  {
    if es == [] {
      assert es + fs == fs;
    } else {
      assert (es + fs)[0] == es[0] && (es + fs)[1..] == es[1..] + fs;
      ExecConcat(Step(gs, es[0]).value, es[1..], fs);
    }
  }

  /** A guard takes its next `n` candidates when nobody holds them. */
  lemma {:induction false} TakesNext(gs: Guards, tx: TxId, n: nat)
    requires tx in gs && gs[tx].taken + n <= |gs[tx].candidates|
    requires forall i, other :: gs[tx].taken <= i < gs[tx].taken + n && other in gs && other != tx ==>
               !Holds(gs[other], gs[tx].candidates[i])
    ensures Exec(gs, Repeat(Proceed(tx), n)) == Some(gs[tx := gs[tx].(taken := gs[tx].taken + n)])
    decreases n
  {
    var g := gs[tx];
    if n == 0 {
      assert gs == gs[tx := g];
    } else {
      var gs' := gs[tx := g.(taken := g.taken + 1)];
      assert Step(gs, Proceed(tx)) == Some(gs');
      TakesNext(gs', tx, n - 1);
      assert gs'[tx := g.(taken := g.taken + n)] == gs[tx := g.(taken := g.taken + n)];
      assert Repeat(Proceed(tx), n)[1..] == Repeat(Proceed(tx), n - 1);
    }
  }

  /** From two fresh guards: `y` takes `n` of its candidates, then `x` all of its own. */
  lemma ReachesWait(x: TxId, a: Seeker, y: TxId, b: Seeker, n: nat) returns (es: seq<Event>)
    requires x != y && Fresh(a) && Fresh(b) && n <= |b.candidates|
    requires forall i :: 0 <= i < n ==> b.candidates[i] !in a.candidates
    ensures OnlyProceeds(es)
    ensures Exec(Both(x, a, y, b), es) == Some(Both(x, a.(taken := |a.candidates|), y, b.(taken := n)))
  {
    hide Exec, Repeat;
    es := Repeat(Proceed(y), n) + Repeat(Proceed(x), |a.candidates|);
    var gs := Both(x, a, y, b);
    TakesNext(gs, y, n);
    var mid := gs[y := b.(taken := n)];
    TakesNext(mid, x, |a.candidates|);
    ExecConcat(gs, Repeat(Proceed(y), n), Repeat(Proceed(x), |a.candidates|));
    assert mid[x := a.(taken := |a.candidates|)] == Both(x, a.(taken := |a.candidates|), y, b.(taken := n));
  }

  lemma MutualWaitIsStuck(x: TxId, a: Seeker, y: TxId, b: Seeker)
    requires x != y && WaitsFor(a, b) && WaitsFor(b, a)
    ensures Stuck(Both(x, a, y, b))
  {
    var gs := Both(x, a, y, b);
    assert gs[x] == a && gs[y] == b;
  }

  /** The least row both list stops the second guard after its lower ones, the first guard's target among them. */
  lemma TargetTakenFirstSticks(x: TxId, a: Seeker, y: TxId, b: Seeker) returns (es: seq<Event>)
    requires x != y && Fresh(a) && Fresh(b) && TargetTakenFirst(a, b)
    ensures OnlyProceeds(es) && Exec(Both(x, a, y, b), es).Some? && Stuck(Exec(Both(x, a, y, b), es).value)
  {
    var shared :| Shared(a, b, shared);
    var n := FirstListed(b.candidates, a.candidates, shared);
    es := ReachesWait(x, a, y, b, n);
    var a', b' := a.(taken := |a.candidates|), b.(taken := n);
    assert Shared(a, b, b.candidates[n]);
    var i := ListedIsHeld(a', b.candidates[n]);
    var j := ListedIsHeld(b', a.target);
    MutualWaitIsStuck(x, a', y, b');
  }

  /** The first of `ids` that is in `others`. */
  lemma {:induction false} FirstListed(ids: seq<UserId>, others: seq<UserId>, shared: UserId) returns (n: nat)
    requires shared in ids && shared in others
    ensures n < |ids| && ids[n] in others && forall i :: 0 <= i < n ==> ids[i] !in others
  {
    n := 0;
    var k :| 0 <= k < |ids| && ids[k] == shared;
    while ids[n] !in others
      invariant n <= k && forall i :: 0 <= i < n ==> ids[i] !in others
      decreases k - n
    {
      n := n + 1;
    }
  }

  lemma CrossedTargetsStick(x: TxId, a: Seeker, y: TxId, b: Seeker) returns (es: seq<Event>)
    requires x != y && Fresh(a) && Fresh(b) && CrossedTargets(a, b)
    ensures OnlyProceeds(es) && Exec(Both(x, a, y, b), es).Some? && Stuck(Exec(Both(x, a, y, b), es).value)
  {
    forall i | 0 <= i < |b.candidates|
      ensures b.candidates[i] !in a.candidates
    {
      assert !Shared(a, b, b.candidates[i]);
    }
    es := ReachesWait(x, a, y, b, |b.candidates|);
    var a', b' := a.(taken := |a.candidates|), b.(taken := |b.candidates|);
    var i := ListedIsHeld(a', b.target);
    var j := ListedIsHeld(b', a.target);
    MutualWaitIsStuck(x, a', y, b');
  }

  lemma BothSwapped(a: Seeker, b: Seeker)
    ensures Both(0, a, 1, b) == Both(1, b, 0, a)
  {
  }

  /** After both have started, the run that sticks. */
  lemma SticksWhenBothStarted(a: Seeker, b: Seeker) returns (es: seq<Event>)
    requires Fresh(a) && Fresh(b) && CanStick(a, b)
    ensures OnlyProceeds(es) && Exec(Both(0, a, 1, b), es).Some? && Stuck(Exec(Both(0, a, 1, b), es).value)
  {
    BothSwapped(a, b);
    if TargetTakenFirst(a, b) {
      es := TargetTakenFirstSticks(0, a, 1, b);
    } else if TargetTakenFirst(b, a) {
      es := TargetTakenFirstSticks(1, b, 0, a);
    } else {
      es := CrossedTargetsStick(0, a, 1, b);
    }
  }

  lemma BothStart(a: Seeker, b: Seeker, es: seq<Event>)
    requires Fresh(a) && Fresh(b) && OnlyProceeds(es)
    ensures var starts := [Start(0, a.candidates, a.target), Start(1, b.candidates, b.target)];
            Exec(map[], starts + es) == Exec(Both(0, a, 1, b), es) && OnlyThese(starts + es, a, b)
  {
    var e, f := Start(0, a.candidates, a.target), Start(1, b.candidates, b.target);
    var first: Guards := map[0 := a];
    assert Step(map[], e) == Some(first) && Step(first, f) == Some(Both(0, a, 1, b));
    assert ([e, f] + es)[1..] == [f] + es && ([f] + es)[1..] == es;
    assert Exec(first, [f] + es) == Exec(Both(0, a, 1, b), es);
  }

  /** `es` is a run of the two guards after which each waits for the other. */
  ghost predicate Sticks(es: seq<Event>, a: Seeker, b: Seeker) {
    OnlyThese(es, a, b) && Exec(map[], es).Some? && Stuck(Exec(map[], es).value)
  }

  lemma SameListsAndTargets(a: Seeker, b: Seeker, c: Seeker, d: Seeker)
    requires a.candidates == c.candidates && a.target == c.target && b.candidates == d.candidates && b.target == d.target
    ensures CanStick(a, b) ==> CanStick(c, d)
  {
    assert forall id :: Shared(a, b, id) <==> Shared(c, d, id);
    assert TargetTakenFirst(a, b) ==> TargetTakenFirst(c, d);
    assert forall id :: Shared(b, a, id) <==> Shared(d, c, id);
    assert TargetTakenFirst(b, a) ==> TargetTakenFirst(d, c);
  }

  lemma SticksMeansCanStick(es: seq<Event>, a: Seeker, b: Seeker)
    requires Fresh(a) && Fresh(b) && Sticks(es, a, b)
    ensures CanStick(a, b)
  {
    assert Inv(map[]);
    hide CanStick, Exec, Inv, Holds, WaitMutually;
    RunsDescend(map[], es, a, b);
    var gs := Exec(map[], es).value;
    StuckMeansWaiting(gs);
    MutualWaitMeansCanStick(gs[0], gs[1]);
    SameListsAndTargets(gs[0], gs[1], a, b);
  }

  lemma CanStickMeansSticks(a: Seeker, b: Seeker) returns (es: seq<Event>)
    requires Fresh(a) && Fresh(b) && CanStick(a, b)
    ensures Sticks(es, a, b)
  {
    var proceeds := SticksWhenBothStarted(a, b);
    BothStart(a, b, proceeds);
    es := [Start(0, a.candidates, a.target), Start(1, b.candidates, b.target)] + proceeds;
  }

  /** Two guards have a run that ends with each waiting for the other exactly when their lists and targets say so. */
  lemma TwoGuardsStickExactly(a: Seeker, b: Seeker)
    requires Fresh(a) && Fresh(b)
    ensures (exists es :: Sticks(es, a, b)) <==> CanStick(a, b)
  {
    hide CanStick, Sticks;
    if CanStick(a, b) {
      var es := CanStickMeansSticks(a, b);
    }
    forall es | Sticks(es, a, b)
      ensures CanStick(a, b)
    {
      SticksMeansCanStick(es, a, b);
    }
  }

  // ----- two runs that stick

  lemma ExecFrom(gs: Guards, es: seq<Event>, k: nat, gs': Guards)
    requires k < |es| && Step(gs, es[k]) == Some(gs')
    ensures Exec(gs, es[k..]) == Exec(gs', es[k + 1..])
  {
    assert es[k..][1..] == es[k + 1..];
  }

  /**
   An account promoted after one guard listed its candidates is a candidate of the next
   guard and the target of the first: each then waits for the other.
   */
  lemma TargetOutsideCandidatesSticks(promoted: UserId, seat: UserId)
    requires promoted < seat
    ensures var es := [Start(0, [seat], promoted), Proceed(0), Start(1, [promoted, seat], seat), Proceed(1)];
            Exec(map[], es).Some? && Exec(map[], es).value.Keys == {0, 1} && Stuck(Exec(map[], es).value)
  {
    var es := [Start(0, [seat], promoted), Proceed(0), Start(1, [promoted, seat], seat), Proceed(1)];
    var g0: Guards := map[0 := Seeker([seat], 0, promoted, false)];
    var g1 := g0[0 := Seeker([seat], 1, promoted, false)];
    var g2 := g1[1 := Seeker([promoted, seat], 0, seat, false)];
    var g3 := g2[1 := Seeker([promoted, seat], 1, seat, false)];
    ExecFrom(map[], es, 0, g0);
    ExecFrom(g0, es, 1, g1);
    ExecFrom(g1, es, 2, g2);
    ExecFrom(g2, es, 3, g3);
    assert es[0..] == es && es[4..] == [];
    assert g3[0].candidates[0] == seat && g3[1].candidates[0] == promoted;
    assert Holds(g3[0], seat) && Holds(g3[1], promoted);
    assert HeldByOther(g3, 0, promoted) && HeldByOther(g3, 1, seat);
  }

  /** A guard's next step while the only other one does not hold what it wants. */
  lemma ProceedsBeside(x: TxId, g: Seeker, y: TxId, idle: Seeker, g': Seeker)
    requires x != y && Wants(g).Some? && !Holds(idle, Wants(g).value)
    requires g' == if g.taken < |g.candidates| then g.(taken := g.taken + 1) else g.(wrote := true)
    ensures Step(Both(x, g, y, idle), Proceed(x)) == Some(Both(x, g', y, idle))
  {
    var gs := Both(x, g, y, idle);
    assert gs[x] == g && gs[y] == idle;
    assert !Blocked(gs, x);
    assert gs[x := g'] == Both(x, g', y, idle);
  }

  /** The edit's first guard from its start to its commit, with a rival that listed the same seats and waits. */
  function DemotionBeside(edited: UserId, seat: UserId, rivalTarget: UserId): seq<Event> {
    [Start(0, [edited, seat], edited), Start(1, [edited, seat], rivalTarget), Proceed(0), Proceed(0), Proceed(0), Proceed(0)]
  }

  lemma DemotionCommits(edited: UserId, seat: UserId, rivalTarget: UserId)
    requires edited < seat
    ensures Exec(map[], DemotionBeside(edited, seat, rivalTarget)) ==
            Some(map[1 := Seeker([edited, seat], 0, rivalTarget, false)])
  {
    var es := DemotionBeside(edited, seat, rivalTarget);
    var first, rival := Seeker([edited, seat], 0, edited, false), Seeker([edited, seat], 0, rivalTarget, false);
    var g0: Guards := map[0 := first];
    var wrote := first.(taken := 2, wrote := true);
    ExecFrom(map[], es, 0, g0);
    ExecFrom(g0, es, 1, Both(0, first, 1, rival));
    ProceedsBeside(0, first, 1, rival, first.(taken := 1));
    ExecFrom(Both(0, first, 1, rival), es, 2, Both(0, first.(taken := 1), 1, rival));
    ProceedsBeside(0, first.(taken := 1), 1, rival, first.(taken := 2));
    ExecFrom(Both(0, first.(taken := 1), 1, rival), es, 3, Both(0, first.(taken := 2), 1, rival));
    ProceedsBeside(0, first.(taken := 2), 1, rival, wrote);
    ExecFrom(Both(0, first.(taken := 2), 1, rival), es, 4, Both(0, wrote, 1, rival));
    assert Both(0, wrote, 1, rival) - {0} == map[1 := rival];
    ExecFrom(Both(0, wrote, 1, rival), es, 5, map[1 := rival]);
    assert es[0..] == es && es[6..] == [];
  }

  lemma SecondGuardSticks(edited: UserId, seat: UserId, rivalTarget: UserId)
    requires edited < seat
    ensures var gs := Exec(map[1 := Seeker([edited, seat], 0, rivalTarget, false)], [Proceed(1), Start(2, [seat], edited), Proceed(2)]);
            gs.Some? && gs.value.Keys == {1, 2} && Stuck(gs.value)
  {
    var es := [Proceed(1), Start(2, [seat], edited), Proceed(2)];
    var rival, second := Seeker([edited, seat], 0, rivalTarget, false), Seeker([seat], 0, edited, false);
    var g5: Guards := map[1 := rival];
    var g6: Guards := map[1 := rival.(taken := 1)];
    var g7, g8 := Both(1, rival.(taken := 1), 2, second), Both(1, rival.(taken := 1), 2, second.(taken := 1));
    assert !Blocked(g5, 1) && g5[1 := rival.(taken := 1)] == g6;
    ExecFrom(g5, es, 0, g6);
    ExecFrom(g6, es, 1, g7);
    assert g7 == Both(2, second, 1, rival.(taken := 1)) && g8 == Both(2, second.(taken := 1), 1, rival.(taken := 1));
    ProceedsBeside(2, second, 1, rival.(taken := 1), second.(taken := 1));
    ExecFrom(g7, es, 2, g8);
    assert es[0..] == es && es[3..] == [];
    assert g8[1].candidates[0] == edited && g8[2].candidates[0] == seat;
    MutualWaitIsStuck(1, g8[1], 2, g8[2]);
  }

  /**
   Without any promotion, an edit of role and activation meets a rival that listed the same
   two seats: the first guard demotes `edited` and commits, the rival takes that row, and
   the second guard, which lists only the other seat, takes it and wants the row back.
   */
  lemma RoleAndActivationEditSticks(edited: UserId, seat: UserId, rivalTarget: UserId)
    requires edited < seat
    ensures var gs := Exec(map[], DemotionBeside(edited, seat, rivalTarget) + [Proceed(1), Start(2, [seat], edited), Proceed(2)]);
            gs.Some? && gs.value.Keys == {1, 2} && Stuck(gs.value)
  {
    DemotionCommits(edited, seat, rivalTarget);
    SecondGuardSticks(edited, seat, rivalTarget);
    ExecConcat(map[], DemotionBeside(edited, seat, rivalTarget), [Proceed(1), Start(2, [seat], edited), Proceed(2)]);
  }
}
