/**
 Optimistic concurrency on the Workspace object: fetch, mutate the copy, write it back if
 the version is still the fetched one, otherwise start over, a bounded number of times.

 Main results, for any number of such calls interleaving with status patches: the stored
 object is always the accepted changes applied one after another in commit order
 (`StoredIsReplay`), each successful call is in that history exactly once and no other
 is (`SuccessIsAppliedOnce`), and a call that reports a conflict has seen as many commits
 of others as it made attempts (`ConflictMeansLost`).
 */
module ConflictRetry {
  import opened Wrappers

  datatype Phase = Running | OtherPhase(name: string)

  datatype OverrideField = Env | NodeSelector | Tolerations | Labels | PodAnnotations | Schedule

  /** Overrides hold only fields that deviate; "" is an empty collection. */
  type Overrides = map<OverrideField, string>

  datatype Workspace = Workspace(
    paused: bool, overrides: Option<Overrides>, resources: string,
    annotations: map<string, string>, phase: Phase)

  const MANUAL_STATE_AT: string := "waas.xorhub.io/manual-state-at"
  const RELOAD_REQUESTED_AT: string := "waas.xorhub.io/reload-requested-at"

  /** The mutate closures, with what the request carries. */
  datatype Mutation =
    | SetPaused(paused: bool)
    | UpdateOverrides(provided: Overrides, sizing: Option<string>)
    | Reload

  /** Provided fields replace the stored ones; empty ones are cleared; nothing left is no override at all. */
  function MergedOverrides(stored: Option<Overrides>, provided: Overrides): Option<Overrides> {
    var merged := stored.GetOr(map[]) + provided;
    var kept := map f | f in merged && !(f in provided && provided[f] == "") :: merged[f];
    if kept == map[] then None else Some(kept)
  }

  /** The closure run on a freshly fetched object at time `now`; None is its own refusal. */
  function Mutated(m: Mutation, ws: Workspace, now: string): Option<Workspace> {
    match m
    case SetPaused(paused) =>
      Some(ws.(paused := paused, annotations := ws.annotations[MANUAL_STATE_AT := now]))
    case UpdateOverrides(provided, sizing) =>
      Some(ws.(overrides := MergedOverrides(ws.overrides, provided), resources := sizing.GetOr(ws.resources)))
    case Reload =>
      if ws.phase.Running? then Some(ws.(annotations := ws.annotations[RELOAD_REQUESTED_AT := now])) else None
  }

  // ----- what the closures leave alone

  /** A reload disturbs neither the pause intent nor the stamp of the last manual pause or resume. */
  lemma ReloadKeepsIntent(ws: Workspace, now: string)
    requires Mutated(Reload, ws, now).Some?
    ensures var ws' := Mutated(Reload, ws, now).value;
            && ws'.paused == ws.paused && ws'.overrides == ws.overrides && ws'.resources == ws.resources && ws'.phase == ws.phase
            && (MANUAL_STATE_AT in ws'.annotations <==> MANUAL_STATE_AT in ws.annotations)
            && (MANUAL_STATE_AT in ws.annotations ==> ws'.annotations[MANUAL_STATE_AT] == ws.annotations[MANUAL_STATE_AT])
  {
  }

  /** Field by field: a provided field is replaced or cleared, any other kept; and re-running the update on its own result changes nothing. */
  lemma OverridesReplacedFieldwise(stored: Option<Overrides>, provided: Overrides)
    ensures var merged := MergedOverrides(stored, provided);
            && (forall f :: f in merged.GetOr(map[]) <==>
                  if f in provided then provided[f] != "" else f in stored.GetOr(map[]))
            && (forall f :: f in merged.GetOr(map[]) ==>
                  merged.value[f] == if f in provided then provided[f] else stored.value[f])
            && merged != Some(map[])
            && MergedOverrides(merged, provided) == merged
  {
    var merged := MergedOverrides(stored, provided);
    var again := MergedOverrides(merged, provided);
    assert again.GetOr(map[]) == merged.GetOr(map[]);
  }

  // ----- many calls at once

  type CallId = nat

  const ATTEMPTS: nat := 5

  datatype Outcome = Pending | Succeeded | Conflicted | Refused | Gone

  /** A call: when it began (in versions), the attempts it lost, and the copy it holds with its version. */
  datatype Call = Call(mutation: Mutation, began: nat, lost: nat, copy: Option<(Workspace, nat)>, outcome: Outcome)

  /** The stored object with its version, and the calls so far. */
  datatype State = State(stored: Option<Workspace>, version: nat, calls: map<CallId, Call>)

  datatype Event =
    | Begin(id: CallId, mutation: Mutation)
    | Fetch(id: CallId)
    | Write(id: CallId, now: string)  // mutate the copy, then the versioned update
    | Deny(id: CallId)                // the admission webhook turns the update down
    | PatchStatus(phase: Phase)       // the operator, without a version check
    | Delete

  function SetCall(s: State, id: CallId, c: Call): State {
    s.(calls := s.calls[id := c])
  }

  predicate HoldsCopy(s: State, id: CallId) {
    id in s.calls && s.calls[id].outcome == Pending && s.calls[id].copy.Some?
  }

  function Step(s: State, e: Event): Option<State> {
    match e
    case Begin(id, mutation) =>
      if id in s.calls then None else Some(SetCall(s, id, Call(mutation, s.version, 0, None, Pending)))
    case Fetch(id) =>
      if id !in s.calls || s.calls[id].outcome != Pending || s.calls[id].copy.Some? then None
      else if s.stored.None? then Some(SetCall(s, id, s.calls[id].(outcome := Gone)))
      else Some(SetCall(s, id, s.calls[id].(copy := Some((s.stored.value, s.version)))))
    case Write(id, now) =>
      if !HoldsCopy(s, id) then None
      else
        var c := s.calls[id];
        var (ws, v) := c.copy.value;
        var mutated := Mutated(c.mutation, ws, now);
        if mutated.None? then Some(SetCall(s, id, c.(outcome := Refused)))
        else if s.stored.None? then Some(SetCall(s, id, c.(outcome := Gone)))
        else if v == s.version then
          Some(SetCall(s, id, c.(copy := None, outcome := Succeeded)).(stored := mutated, version := s.version + 1))
        else
          Some(SetCall(s, id, c.(copy := None, lost := c.lost + 1, outcome := if c.lost + 1 < ATTEMPTS then Pending else Conflicted)))
    case Deny(id) =>
      if !HoldsCopy(s, id) then None else Some(SetCall(s, id, s.calls[id].(outcome := Refused)))
    case PatchStatus(phase) =>
      if s.stored.None? then None
      else Some(s.(stored := Some(s.stored.value.(phase := phase)), version := s.version + 1))
    case Delete =>
      if s.stored.None? then None else Some(s.(stored := None, version := s.version + 1))
  }

  /** An accepted change of the stored object. */
  datatype Change = Applied(id: CallId, mutation: Mutation, now: string) | Patched(phase: Phase) | Deleted

  function ChangeOf(s: State, e: Event): seq<Change>
    requires Step(s, e).Some?
  {
    match e
    case Write(id, now) =>
      if Step(s, e).value.version > s.version then [Applied(id, s.calls[id].mutation, now)] else []
    case PatchStatus(phase) => [Patched(phase)]
    case Delete => [Deleted]
    case _ => []
  }

  function Exec(s: State, es: seq<Event>): Option<State>
    decreases |es|
  {
    if es == [] then Some(s)
    else if Step(s, es[0]).None? then None
    else Exec(Step(s, es[0]).value, es[1..])
  }

  function History(s: State, es: seq<Event>): seq<Change>
    requires Exec(s, es).Some?
    decreases |es|
  {
    if es == [] then [] else ChangeOf(s, es[0]) + History(Step(s, es[0]).value, es[1..])
  }

  /** What one change makes of the stored object. */
  function After(stored: Option<Workspace>, c: Change): Option<Workspace> {
    if stored.None? || c.Deleted? then None
    else if c.Patched? then Some(stored.value.(phase := c.phase))
    else Mutated(c.mutation, stored.value, c.now)
  }

  /** One change after another, each on what the one before left. */
  function Replay(stored: Option<Workspace>, h: seq<Change>): Option<Workspace>
    decreases |h|
  {
    if h == [] then stored else Replay(After(stored, h[0]), h[1..])
  }

  // ----- the invariant

  /** A copy whose version is still current is the stored object; a call's losses fit between its beginning and the version it will compare with. */
  predicate CallSound(s: State, c: Call) {
    && (c.copy.Some? ==> c.copy.value.1 <= s.version && (c.copy.value.1 == s.version ==> s.stored == Some(c.copy.value.0)))
    && c.began + c.lost <= (if c.copy.Some? then c.copy.value.1 else s.version)
    && (c.outcome == Conflicted ==> c.lost == ATTEMPTS)
    && (c.outcome == Pending ==> c.lost < ATTEMPTS)
  }

  ghost predicate Inv(s: State) {
    forall id :: id in s.calls ==> CallSound(s, s.calls[id])
  }

  lemma StepKeepsInv(s: State, e: Event)
    requires Inv(s) && Step(s, e).Some?
    ensures Inv(Step(s, e).value)
  {
    hide Mutated;
    var s' := Step(s, e).value;
    forall id | id in s'.calls
      ensures CallSound(s', s'.calls[id])
    {
      assert id in s.calls ==> CallSound(s, s.calls[id]);
    }
  }

  predicate Start(s: State) {
    s.calls == map[]
  }

  /** What an accepted write stores, field by field: pause and resume set the flag and stamp the instant, an update its overrides and resources, a reload its own stamp on a running object. */
  lemma AcceptedWriteStores(s: State, id: CallId, now: string)
    requires Inv(s) && Step(s, Write(id, now)).Some? && Step(s, Write(id, now)).value.version > s.version
    ensures var s' := Step(s, Write(id, now)).value;
            && s.stored.Some? && s'.stored.Some? && s'.calls[id].outcome == Succeeded && s'.version == s.version + 1
            && var before, after, m := s.stored.value, s'.stored.value, s.calls[id].mutation;
               && after.phase == before.phase
               && after.paused == (if m.SetPaused? then m.paused else before.paused)
               && after.resources == (if m.UpdateOverrides? && m.sizing.Some? then m.sizing.value else before.resources)
               && (!m.UpdateOverrides? ==> after.overrides == before.overrides)
               && (m.UpdateOverrides? ==> after.annotations == before.annotations)
               && (m.SetPaused? ==> after.annotations == before.annotations["waas.xorhub.io/manual-state-at" := now])
               && (m.Reload? ==> before.phase.Running? && after.annotations == before.annotations["waas.xorhub.io/reload-requested-at" := now])
  {
    assert CallSound(s, s.calls[id]);
  }

  /** Only a reload is refused by its own closure, and only when the copy it fetched is not running. */
  lemma RefusedWriteIsReload(s: State, id: CallId, now: string)
    requires Step(s, Write(id, now)).Some?
    ensures Step(s, Write(id, now)).value.calls[id].outcome == Refused <==>
            s.calls[id].mutation.Reload? && !s.calls[id].copy.value.0.phase.Running?
  {
  }

  lemma {:induction false} RunsAreReplays(s: State, es: seq<Event>)
    requires Inv(s) && Exec(s, es).Some?
    ensures Inv(Exec(s, es).value)
    ensures Exec(s, es).value.stored == Replay(s.stored, History(s, es))
    ensures Exec(s, es).value.version == s.version + |History(s, es)|
    decreases |es|
  {
    if es != [] {
      var s' := Step(s, es[0]).value;
      StepKeepsInv(s, es[0]);
      RunsAreReplays(s', es[1..]);
      var now, later := ChangeOf(s, es[0]), History(s', es[1..]);
      if es[0].Write? && now != [] {
        assert CallSound(s, s.calls[es[0].id]);
      }
      if now == [] {
        assert now + later == later;
      } else {
        assert (now + later)[1..] == later;
      }
    }
  }

  /** In every reachable state the stored object is the accepted changes applied serially, in commit order; the version counts them. */
  lemma StoredIsReplay(s: State, es: seq<Event>)
    requires Start(s) && Exec(s, es).Some?
    ensures Exec(s, es).value.stored == Replay(s.stored, History(s, es))
    ensures Exec(s, es).value.version == s.version + |History(s, es)|
  {
    RunsAreReplays(s, es);
  }

  function TimesApplied(h: seq<Change>, id: CallId): nat {
    if h == [] then 0 else (if h[0].Applied? && h[0].id == id then 1 else 0) + TimesApplied(h[1..], id)
  }

  lemma {:induction false} TimesAppliedConcat(a: seq<Change>, b: seq<Change>, id: CallId)
    ensures TimesApplied(a + b, id) == TimesApplied(a, id) + TimesApplied(b, id)
  {
    if a == [] {
      assert a + b == b;
    } else {
      TimesAppliedConcat(a[1..], b, id);
      assert (a + b)[1..] == a[1..] + b;
    }
  }

  predicate Done(s: State, id: CallId) {
    id in s.calls && s.calls[id].outcome == Succeeded
  }

  lemma AppliedByStep(s: State, e: Event, id: CallId)
    requires Step(s, e).Some?
    ensures TimesApplied(ChangeOf(s, e), id) == (if Done(Step(s, e).value, id) then 1 else 0) - (if Done(s, id) then 1 else 0)
  {
    hide Mutated;
  }

  lemma {:induction false} AppliedWhenDone(s: State, es: seq<Event>, id: CallId)
    requires Exec(s, es).Some?
    ensures TimesApplied(History(s, es), id) == (if Done(Exec(s, es).value, id) then 1 else 0) - (if Done(s, id) then 1 else 0)
    decreases |es|
  {
    if es != [] {
      hide Step, ChangeOf, Done;
      AppliedByStep(s, es[0], id);
      AppliedWhenDone(Step(s, es[0]).value, es[1..], id);
      TimesAppliedConcat(ChangeOf(s, es[0]), History(Step(s, es[0]).value, es[1..]), id);
    }
  }

  /** No success is lost and none is applied twice; a call that did not succeed left nothing behind. */
  lemma SuccessIsAppliedOnce(s: State, es: seq<Event>, id: CallId)
    requires Start(s) && Exec(s, es).Some?
    ensures TimesApplied(History(s, es), id) == if Done(Exec(s, es).value, id) then 1 else 0
  {
    AppliedWhenDone(s, es, id);
  }

  /** A call reports a conflict only after every one of its attempts lost: since it began, at least that many changes were committed, none of them its own. */
  lemma ConflictMeansLost(s: State, es: seq<Event>, id: CallId)
    requires Start(s) && Exec(s, es).Some?
    requires id in Exec(s, es).value.calls && Exec(s, es).value.calls[id].outcome == Conflicted
    ensures var s' := Exec(s, es).value;
            && s'.version - s'.calls[id].began >= 5
            && TimesApplied(History(s, es), id) == 0
  {
    RunsAreReplays(s, es);
    SuccessIsAppliedOnce(s, es, id);
    assert CallSound(Exec(s, es).value, Exec(s, es).value.calls[id]);
  }

  // ----- one call, as the loop it is

  class Store {
    var stored: Option<Workspace>
    var version: nat

    /** Changes of other writers landing at once. */
    method Interfere(h: seq<Change>)
      modifies this
      ensures stored == Replay(old(stored), h) && version == old(version) + |h|
    {
      stored, version := Replay(stored, h), version + |h|;
    }

    /** The API server's versioned update. */
    method Update(ws: Workspace, fetched: nat) returns (accepted: bool)
      modifies this
      ensures accepted <==> fetched == old(version)
      ensures accepted ==> stored == Some(ws) && version == old(version) + 1
      ensures !accepted ==> stored == old(stored) && version == old(version)
    {
      accepted := fetched == version;
      if accepted {
        stored, version := Some(ws), version + 1;
      }
    }
  }

  /** Other writers' changes that landed during the first `n` attempts. */
  function Rivals(rivals: seq<seq<Change>>, n: nat): seq<Change>
    requires n <= |rivals|
  {
    if n == 0 then [] else Rivals(rivals, n - 1) + rivals[n - 1]
  }

  lemma {:induction false} ReplayConcat(stored: Option<Workspace>, a: seq<Change>, b: seq<Change>)
    ensures Replay(stored, a + b) == Replay(Replay(stored, a), b)
    decreases |a|
  {
    if a == [] {
      assert a + b == b;
    } else {
      assert (a + b)[0] == a[0] && (a + b)[1..] == a[1..] + b;
      ReplayConcat(After(stored, a[0]), a[1..], b);
    }
  }

  /** The first attempt no other writer disturbed; all of them when none. */
  function FirstUndisturbed(rivals: seq<seq<Change>>): (n: nat)
    ensures n <= |rivals| && (forall i :: 0 <= i < n ==> rivals[i] != []) && (n < |rivals| ==> rivals[n] == [])
  {
    if rivals == [] || rivals[0] == [] then 0 else 1 + FirstUndisturbed(rivals[1..])
  }

  /**
   `updateWithConflictRetry` with other writers' changes scripted: `rivals[i]` lands between
   the fetch and the update of attempt `i`. A conflict is reported exactly when every
   attempt was disturbed and the closure never refused; a success applies the mutation on
   top of everything that landed before it, and nothing is overwritten.
   */
  method UpdateWithConflictRetry(store: Store, id: CallId, m: Mutation, rivals: seq<seq<Change>>, clock: seq<string>) returns (r: Outcome)
    requires |rivals| == 5 && |clock| == 5
    modifies store
    ensures r == Succeeded ==>
              var n := FirstUndisturbed(rivals);
              && n < 5
              && store.stored == Replay(old(store.stored), Rivals(rivals, n) + [Applied(id, m, clock[n])]) && store.stored.Some?
    ensures r == Conflicted ==>
              FirstUndisturbed(rivals) == 5 && store.stored == Replay(old(store.stored), Rivals(rivals, 5))
    ensures r == Gone || r == Refused ==>
              exists n: nat :: n < 5 && n <= FirstUndisturbed(rivals) && store.stored == Replay(old(store.stored), Rivals(rivals, n))
                && (r == Gone <==> store.stored.None?) && (r == Refused ==> Mutated(m, store.stored.value, clock[n]).None?)
    ensures r != Pending
  {
    for i := 0 to ATTEMPTS
      invariant i <= FirstUndisturbed(rivals)
      invariant store.stored == Replay(old(store.stored), Rivals(rivals, i))
    {
      if store.stored.None? {
        return Gone;
      }
      var ws, fetched := store.stored.value, store.version;
      var mutated := Mutated(m, ws, clock[i]);
      if mutated.None? {
        return Refused;
      }
      store.Interfere(rivals[i]);
      ReplayConcat(old(store.stored), Rivals(rivals, i), rivals[i]);
      var accepted := store.Update(mutated.value, fetched);
      if accepted {
        ReplayConcat(old(store.stored), Rivals(rivals, i), [Applied(id, m, clock[i])]);
        return Succeeded;
      }
    }
    r := Conflicted;
  }
}
