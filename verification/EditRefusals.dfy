/**
 When an admin edit is refused after some of its writes have landed, and what it then
 leaves: exactly when one of its guarded calls meets a table whose only seat is the one it
 takes away (`LateRefusalExactly`), and then just that table, with the new password in it
 and without its bound (`LateRefusalLeaves`).
 */
module EditRefusals {
  import opened Wrappers
  import opened Accounts
  import opened UserService

  // ----- the table each call meets

  /** What the first `k` calls leave, each after its rivals. */
  function Reached(t: Table, cs: seq<Call>, k: nat, rivals: Rivals): Table
    requires k <= |cs|
    decreases k, 0
  {
    if k == 0 then t else Serial(MetBy(t, cs, k - 1, rivals), cs[k - 1]).1
  }

  /** The table the `k`-th call finds. */
  function MetBy(t: Table, cs: seq<Call>, k: nat, rivals: Rivals): Table
    requires k < |cs|
    decreases k, 1
  {
    SerialAll(Reached(t, cs, k, rivals), rivals(k))
  }

  /** The first `k` calls all went through. */
  predicate GotTo(t: Table, cs: seq<Call>, k: nat, rivals: Rivals)
    requires k <= |cs|
  {
    forall i :: 0 <= i < k ==> Serial(MetBy(t, cs, i, rivals), cs[i]).0 == Done
  }

  predicate Unseats(w: SeatWrite) {
    w != RoleTo(Admin) && w != ActiveTo(true)
  }

  /** The `k`-th call is guarded, and would take away the only seat of the table it finds. */
  predicate RefusedAt(t: Table, cs: seq<Call>, k: nat, rivals: Rivals) {
    && k < |cs| && cs[k].Guarded? && GotTo(t, cs, k, rivals)
    && Seats(MetBy(t, cs, k, rivals)) == {cs[k].id} && Unseats(cs[k].w)
  }

  lemma {:induction false} ThroughFrom(t: Table, cs: seq<Call>, k: nat, rivals: Rivals)
    requires k <= |cs| && GotTo(t, cs, k, rivals)
    ensures Through(t, cs, 0, rivals) == Through(Reached(t, cs, k, rivals), cs, k, rivals)
  {
    hide Serial, SerialAll;
    if k > 0 {
      ThroughFrom(t, cs, k - 1, rivals);
      assert Serial(MetBy(t, cs, k - 1, rivals), cs[k - 1]).0 == Done;
    }
  }

  lemma RefusedThere(t: Table, cs: seq<Call>, k: nat, rivals: Rivals)
    requires RefusedAt(t, cs, k, rivals)
    ensures Through(t, cs, 0, rivals) == (LastAdmin, MetBy(t, cs, k, rivals))
  {
    var met := MetBy(t, cs, k, rivals);
    ThroughFrom(t, cs, k, rivals);
    assert cs[k].id in Seats(met);
    LastAdminExactly(met, cs[k].id, cs[k].w);
  }

  lemma {:induction false} RefusedSomewhere(t: Table, cs: seq<Call>, k: nat, rivals: Rivals) returns (j: nat)
    requires k <= |cs| && GotTo(t, cs, k, rivals)
    requires Through(Reached(t, cs, k, rivals), cs, k, rivals).0 == LastAdmin
    ensures RefusedAt(t, cs, j, rivals)
    decreases |cs| - k
  {
    hide SerialAll;
    var met := MetBy(t, cs, k, rivals);
    if Serial(met, cs[k]).0 == Done {
      j := RefusedSomewhere(t, cs, k + 1, rivals);
    } else {
      j := k;
      LastAdminExactly(met, cs[k].id, cs[k].w);
    }
  }

  // ----- the edit

  /** The edit's writes, as it decides on them from the account it read. */
  function WritesOf(a: Account, id: UserId, input: UpdateInput, now: Instant, hash: string -> string, localLoginDisabled: bool): seq<Call> {
    var edited := EditedAccount(a, input, now, hash);
    EditCalls(id, edited.profile, input, GuardsFloor(a, edited, localLoginDisabled), Revokes(a, input), now)
  }

  /** The pre-check refuses: the edit unseats an administrator and at most one is left. */
  predicate RefusedEarly(a: Account, input: UpdateInput, now: Instant, hash: string -> string, localLoginDisabled: bool, seen: Table) {
    GuardsFloor(a, EditedAccount(a, input, now, hash), localLoginDisabled) && |Seats(seen)| <= 1
  }

  /** The edit is refused exactly by the pre-check or at one of its guarded calls, and a refusal there leaves the table that call found. */
  lemma LateRefusalExactly(t: Table, id: UserId, input: UpdateInput, now: Instant, hash: string -> string, localLoginDisabled: bool,
                           early: seq<Call>, rivals: Rivals)
    requires id in t
    ensures var (r, after) := EditRun(t, id, input, now, hash, localLoginDisabled, early, rivals);
            var seen, cs := SerialAll(t, early), WritesOf(t[id], id, input, now, hash, localLoginDisabled);
            var earlyRefused := RefusedEarly(t[id], input, now, hash, localLoginDisabled, seen);
            && (r == KeepsLastAdmin <==> earlyRefused || exists k :: RefusedAt(seen, cs, k, rivals))
            && (earlyRefused ==> after == seen)
            && (!earlyRefused ==> forall k :: RefusedAt(seen, cs, k, rivals) ==> after == MetBy(seen, cs, k, rivals))
  {
    hide MetBy, EditCalls, SerialAll;
    var seen, cs := SerialAll(t, early), WritesOf(t[id], id, input, now, hash, localLoginDisabled);
    forall k | RefusedAt(seen, cs, k, rivals)
      ensures Through(seen, cs, 0, rivals) == (LastAdmin, MetBy(seen, cs, k, rivals))
    {
      RefusedThere(seen, cs, k, rivals);
    }
    if Through(seen, cs, 0, rivals).0 == LastAdmin {
      var k := RefusedSomewhere(seen, cs, 0, rivals);
    }
  }

  // ----- what a late refusal leaves

  /** The call leaves the password of the account alone. */
  predicate KeepsPassword(c: Call, id: UserId) {
    c.Plain? && c.s.id == id ==> !c.s.Update? && !c.s.Insert? && !c.s.Delete?
  }

  predicate KeepPassword(cs: seq<Call>, id: UserId) {
    forall i :: 0 <= i < |cs| ==> KeepsPassword(cs[i], id)
  }

  lemma {:induction false} CallsKeepPassword(t: Table, cs: seq<Call>, id: UserId)
    requires id in t && KeepPassword(cs, id)
    ensures id in SerialAll(t, cs) && SerialAll(t, cs)[id].profile.passwordHash == t[id].profile.passwordHash
    decreases |cs|
  {
    if cs != [] {
      assert KeepsPassword(cs[0], id);
      CallsKeepPassword(Serial(t, cs[0]).1, cs[1..], id);
    }
  }

  /** Past the row write, every call finds the new password. */
  lemma {:induction false} PasswordIsWritten(t: Table, cs: seq<Call>, k: nat, rivals: Rivals, id: UserId, profile: Profile)
    requires 0 < k < |cs| && GotTo(t, cs, k, rivals) && cs[0] == Plain(Statement.Update(id, profile))
    requires forall i :: 0 < i < |cs| ==> KeepsPassword(cs[i], id)
    requires forall i :: i > 0 ==> KeepPassword(rivals(i), id)
    ensures var met := MetBy(t, cs, k, rivals); id in met && met[id].profile.passwordHash == profile.passwordHash
  {
    hide SerialAll;
    var met := MetBy(t, cs, k - 1, rivals);
    assert Serial(met, cs[k - 1]).0 == Done;
    if k > 1 {
      PasswordIsWritten(t, cs, k - 1, rivals, id, profile);
      assert KeepsPassword(cs[k - 1], id);
    }
    CallsKeepPassword(Reached(t, cs, k, rivals), rivals(k), id);
  }

  /** Refused late, among writers of other columns: the new password is in the row and its bound is not. */
  lemma LateRefusalLeaves(t: Table, id: UserId, input: UpdateInput, now: Instant, hash: string -> string, localLoginDisabled: bool,
                          early: seq<Call>, rivals: Rivals, k: nat)
    requires id in t && input.password.Some? && LeaveBound(early, id) && forall i :: LeaveBound(rivals(i), id)
    requires forall i :: i > 0 ==> KeepPassword(rivals(i), id)
    requires var seen := SerialAll(t, early);
             && !RefusedEarly(t[id], input, now, hash, localLoginDisabled, seen)
             && RefusedAt(seen, WritesOf(t[id], id, input, now, hash, localLoginDisabled), k, rivals)
    ensures var (r, after) := EditRun(t, id, input, now, hash, localLoginDisabled, early, rivals);
            && r == KeepsLastAdmin && Seats(after) == {id}
            && after[id].profile.passwordHash == hash(input.password.value) && after[id].tokensValidAfter == t[id].tokensValidAfter
  {
    hide SerialAll, MetBy, Serial, EditRun;
    var seen, cs := SerialAll(t, early), WritesOf(t[id], id, input, now, hash, localLoginDisabled);
    var edited := EditedAccount(t[id], input, now, hash);
    LateRefusalExactly(t, id, input, now, hash, localLoginDisabled, early, rivals);
    BoundLandsWhenDone(t, id, input, now, hash, localLoginDisabled, early, rivals);
    PasswordIsWritten(seen, cs, k, rivals, id, edited.profile);
  }

  // ----- the two columns written out

  /** The table the first guard finds: the row update lands, then its rivals. */
  function FirstGuardFinds(seen: Table, id: UserId, profile: Profile, rivals: Rivals): Table {
    SerialAll(Run(SerialAll(seen, rivals(0)), Statement.Update(id, profile)), rivals(1))
  }

  /** The column an edit writes when it writes just one of the two. */
  function OneColumn(input: UpdateInput): Option<SeatWrite> {
    if input.role.Some? && input.active.None? then Some(RoleTo(input.role.value))
    else if input.role.None? && input.active.Some? then Some(ActiveTo(input.active.value))
    else None
  }

  lemma {:induction false} PlainCallsPass(t: Table, cs: seq<Call>, k: nat, rivals: Rivals)
    requires k <= |cs| && forall i :: k <= i < |cs| ==> cs[i].Plain?
    ensures Through(t, cs, k, rivals).0 != LastAdmin
    decreases |cs| - k
  {
    hide SerialAll;
    if k < |cs| {
      PlainCallsPass(Serial(SerialAll(t, rivals(k)), cs[k]).1, cs, k + 1, rivals);
    }
  }

  lemma GuardRefuses(t: Table, id: UserId, w: SeatWrite)
    ensures Serial(t, Guarded(id, w)).0 == LastAdmin <==> Seats(t) == {id} && Unseats(w)
    ensures Serial(t, Guarded(id, w)).0 != Done ==> Serial(t, Guarded(id, w)).1 == t
  {
    if id in t {
      LastAdminExactly(t, id, w);
    }
    assert Seats(t) == {id} ==> id in Seats(t);
  }

  /** A guarded edit of one column is refused exactly when at most one seat was left at the pre-check, or its own is the only one when its guard comes. */
  lemma OneColumnRefusal(t: Table, id: UserId, input: UpdateInput, now: Instant, hash: string -> string, early: seq<Call>, rivals: Rivals)
    requires id in t && OneColumn(input).Some? && GuardsFloor(t[id], EditedAccount(t[id], input, now, hash), false)
    ensures var (r, after) := EditRun(t, id, input, now, hash, false, early, rivals);
            var seen := SerialAll(t, early);
            var found := FirstGuardFinds(seen, id, EditedAccount(t[id], input, now, hash).profile, rivals);
            var late := |Seats(seen)| > 1 && id in SerialAll(seen, rivals(0)) && Seats(found) == {id};
            && (r == KeepsLastAdmin <==> |Seats(seen)| <= 1 || late)
            && (late ==> after == found)
  {
    hide Serial, SerialAll, Run, Seats, Through, EditCalls;
    var edited, revoke := EditedAccount(t[id], input, now, hash), Revokes(t[id], input);
    var cs, seen := EditCalls(id, edited.profile, input, true, revoke, now), SerialAll(t, early);
    EditCallAt(id, edited.profile, input, true, revoke, now);
    PlainIsOneStatement(SerialAll(seen, rivals(0)), Statement.Update(id, edited.profile));
    ThroughOne(seen, cs, 0, rivals);
    var row := Run(SerialAll(seen, rivals(0)), Statement.Update(id, edited.profile));
    ThroughOne(row, cs, 1, rivals);
    var found := SerialAll(row, rivals(1));
    GuardRefuses(found, id, OneColumn(input).value);
    PlainCallsPass(Serial(found, cs[1]).1, cs, 2, rivals);
  }

  /** Two guarded calls and then plain ones, from the first guard on. */
  lemma TwoGuards(row: Table, cs: seq<Call>, rivals: Rivals, id: UserId, v: SeatWrite, w: SeatWrite)
    requires |cs| >= 3 && cs[1] == Guarded(id, v) && cs[2] == Guarded(id, w) && forall i :: 3 <= i < |cs| ==> cs[i].Plain?
    ensures var (outcome, after) := Through(row, cs, 1, rivals);
            var first := SerialAll(row, rivals(1));
            var second := SerialAll(Serial(first, cs[1]).1, rivals(2));
            var atFirst := Seats(first) == {id} && Unseats(v);
            var atSecond := Serial(first, cs[1]).0 == Done && Seats(second) == {id} && Unseats(w);
            && (outcome == LastAdmin <==> atFirst || atSecond)
            && (atFirst ==> after == first) && (atSecond ==> after == second)
  {
    hide Serial, SerialAll, Run, Seats, Through;
    ThroughOne(row, cs, 1, rivals);
    var first := SerialAll(row, rivals(1));
    GuardRefuses(first, id, v);
    var passed := Serial(first, cs[1]).1;
    ThroughOne(passed, cs, 2, rivals);
    var second := SerialAll(passed, rivals(2));
    GuardRefuses(second, id, w);
    PlainCallsPass(Serial(second, cs[2]).1, cs, 3, rivals);
  }

  /** A guarded edit of both columns can be refused at either guard. */
  lemma BothColumnsRefusal(t: Table, id: UserId, input: UpdateInput, now: Instant, hash: string -> string, early: seq<Call>, rivals: Rivals)
    requires id in t && input.role.Some? && input.active.Some? && GuardsFloor(t[id], EditedAccount(t[id], input, now, hash), false)
    ensures var (r, after) := EditRun(t, id, input, now, hash, false, early, rivals);
            var seen, demote := SerialAll(t, early), Guarded(id, RoleTo(input.role.value));
            var first := FirstGuardFinds(seen, id, EditedAccount(t[id], input, now, hash).profile, rivals);
            var second := SerialAll(Serial(first, demote).1, rivals(2));
            var atRole := |Seats(seen)| > 1 && id in SerialAll(seen, rivals(0)) && Seats(first) == {id} && input.role.value != Admin;
            var atActive := |Seats(seen)| > 1 && id in SerialAll(seen, rivals(0)) && Serial(first, demote).0 == Done
                            && Seats(second) == {id} && !input.active.value;
            && (r == KeepsLastAdmin <==> |Seats(seen)| <= 1 || atRole || atActive)
            && (atRole ==> after == first) && (atActive ==> after == second)
  {
    hide Serial, SerialAll, Run, Seats, Through, EditCalls;
    var edited, revoke := EditedAccount(t[id], input, now, hash), Revokes(t[id], input);
    var cs, seen := EditCalls(id, edited.profile, input, true, revoke, now), SerialAll(t, early);
    EditCallAt(id, edited.profile, input, true, revoke, now);
    PlainIsOneStatement(SerialAll(seen, rivals(0)), Statement.Update(id, edited.profile));
    ThroughOne(seen, cs, 0, rivals);
    var row := Run(SerialAll(seen, rivals(0)), Statement.Update(id, edited.profile));
    TwoGuards(row, cs, rivals, id, RoleTo(input.role.value), ActiveTo(input.active.value));
  }
}
