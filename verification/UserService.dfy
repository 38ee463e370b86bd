/**
 The account operations that write several columns in sequence: the admin edit, the
 self-service edit, login and logout, each as its own sequence of repository calls.

 The admin edit is modelled with other writers' calls landing before each of its own: what
 it promises alone (`LoneEdit`), what it keeps among others (`FloorHoldsAmongRivals`,
 `BoundLandsWhenDone`), and how a late refusal leaves it half applied (`LateRefusal`; when it
 does is the subject of `EditRefusals`). The self-service edit and login are modelled the
 same way (`ProfileEditKeepsStanding`, `PasswordChangeDuringLogin`).
 */
module UserService {
  import opened Wrappers
  import opened Accounts
  import opened Revocation

  datatype UpdateInput = UpdateInput(
    email: Option<string>, password: Option<string>, role: Option<Role>, active: Option<bool>,
    maxWorkspaces: Option<int>, groups: Option<seq<string>>)

  datatype ProfileInput = ProfileInput(
    displayName: Option<string>, email: Option<string>, preferences: Option<string>,
    currentPassword: string, newPassword: string)

  datatype EditResult =
    | Edited(account: Account, revoked: bool)
    | NotFound
    | InvalidRole
    | KeepsLastAdmin
    | ManagedByIdp
    | WrongPassword

  datatype LoginResult = LoggedIn(claims: Claims) | InvalidCredentials | StampFailed

  /** A security-relevant change: password, role, or a deactivation. */
  predicate Revokes(a: Account, input: UpdateInput) {
    || input.password.Some?
    || (input.role.Some? && input.role.value != a.role)
    || (a.active && input.active == Some(false))
  }

  /** The account an admin edit is meant to leave. */
  function EditedAccount(a: Account, input: UpdateInput, now: Instant, hash: string -> string): Account {
    Account(
      a.username,
      a.profile.(
        email := input.email.GetOr(a.profile.email),
        passwordHash := if input.password.Some? then hash(input.password.value) else a.profile.passwordHash,
        maxWorkspaces := input.maxWorkspaces.GetOr(a.profile.maxWorkspaces),
        groups := input.groups.GetOr(a.profile.groups),
        updatedAt := now),
      input.role.GetOr(a.role),
      input.active.GetOr(a.active),
      if Revokes(a, input) then Some(now) else a.tokensValidAfter)
  }

  function EditedProfile(a: Account, input: ProfileInput, now: Instant, hash: string -> string): Account {
    a.(
      profile := a.profile.(
        displayName := input.displayName.GetOr(a.profile.displayName),
        email := input.email.GetOr(a.profile.email),
        preferences := input.preferences.GetOr(a.profile.preferences),
        passwordHash := if input.newPassword != "" then hash(input.newPassword) else a.profile.passwordHash,
        updatedAt := now),
      tokensValidAfter := if input.newPassword != "" then Some(now) else a.tokensValidAfter)
  }

  /** The schema's unique column. */
  ghost predicate UniqueUsernames(t: Table) {
    forall a, b :: a in t && b in t && t[a].username == t[b].username ==> a == b
  }

  lemma UsernamesStayUnique(t: Table, c: Call)
    requires UniqueUsernames(t)
    ensures UniqueUsernames(Serial(t, c).1)
  {
  }

  lemma OneSeat(seats: set<UserId>, id: UserId)
    requires id in seats
    ensures |seats| <= 1 <==> seats == {id}
  {
    assert |seats - {id}| == |seats| - 1;
    if |seats| <= 1 {
      assert seats - {id} == {};
    }
  }

  ghost predicate OtherSeat(t: Table, id: UserId) {
    exists other :: other in Seats(t) && other != id
  }

  /** An edit of one account empties the platform only by unseating the only administrator. */
  lemma EditKeepsSeat(t: Table, id: UserId, edited: Account)
    requires id in t
    ensures Seats(t) != {} && (HoldsSeat(edited) || !HoldsSeat(t[id]) || OtherSeat(t, id)) ==>
              Seats(t[id := edited]) != {}
  {
    var t' := t[id := edited];
    if Seats(t) != {} {
      var seat :| seat in Seats(t);
      if seat != id {
        assert seat in Seats(t');
      } else if HoldsSeat(edited) {
        assert id in Seats(t');
      } else if OtherSeat(t, id) {
        var other :| other in Seats(t) && other != id;
        assert other in Seats(t');
      }
    }
  }

  // ----- the admin edit as a sequence of calls

  /** One of the two seat columns, through the guarded writer when there is a floor to hold. */
  function SeatCall(id: UserId, w: SeatWrite, guarded: bool): Call {
    if guarded then Guarded(id, w) else Plain(SeatStatement(id, w))
  }

  /** The writes of the edit, in order: the row without its guarded columns, role, activation, and the bound last. */
  function EditCalls(id: UserId, profile: Profile, input: UpdateInput, guarded: bool, revoke: bool, now: Instant): seq<Call> {
    [Plain(Statement.Update(id, profile))]
    + (if input.role.Some? then [SeatCall(id, RoleTo(input.role.value), guarded)] else [])
    + (if input.active.Some? then [SeatCall(id, ActiveTo(input.active.value), guarded)] else [])
    + (if revoke then [Plain(SetTokensValidAfter(id, now))] else [])
  }

  function OneIf(b: bool): nat {
    if b then 1 else 0
  }

  lemma EditCallAt(id: UserId, profile: Profile, input: UpdateInput, guarded: bool, revoke: bool, now: Instant)
    ensures var cs, role, active := EditCalls(id, profile, input, guarded, revoke, now), OneIf(input.role.Some?), OneIf(input.active.Some?);
            && |cs| == 1 + role + active + OneIf(revoke)
            && cs[0] == Plain(Statement.Update(id, profile))
            && (input.role.Some? ==> cs[1] == SeatCall(id, RoleTo(input.role.value), guarded))
            && (input.active.Some? ==> cs[1 + role] == SeatCall(id, ActiveTo(input.active.value), guarded))
            && (revoke ==> cs[1 + role + active] == Plain(SetTokensValidAfter(id, now)))
  {
  }

  /** What other writers commit before each call of the edit. */
  type Rivals = nat -> seq<Call>

  /** The calls from the `k`-th on, each after its rivals, up to the first that is refused. */
  function Through(t: Table, cs: seq<Call>, k: nat, rivals: Rivals): (Outcome, Table)
    requires k <= |cs|
    decreases |cs| - k
  {
    if k == |cs| then (Done, t)
    else
      var (outcome, after) := Serial(SerialAll(t, rivals(k)), cs[k]);
      if outcome != Done then (outcome, after) else Through(after, cs, k + 1, rivals)
  }

  /** The account as read held a seat the edit takes away, and local login is on. */
  predicate GuardsFloor(a: Account, edited: Account, localLoginDisabled: bool) {
    HoldsSeat(a) && !HoldsSeat(edited) && !localLoginDisabled
  }

  /** The whole edit of account `a` as it was read: the pre-check after `early`, then the writes. */
  function EditRun(t: Table, id: UserId, input: UpdateInput, now: Instant, hash: string -> string, localLoginDisabled: bool,
                   early: seq<Call>, rivals: Rivals): (EditResult, Table)
    requires id in t
  {
    var edited := EditedAccount(t[id], input, now, hash);
    var guarded, revoke, seen := GuardsFloor(t[id], edited, localLoginDisabled), Revokes(t[id], input), SerialAll(t, early);
    if guarded && |Seats(seen)| <= 1 then (KeepsLastAdmin, seen)
    else
      var (outcome, after) := Through(seen, EditCalls(id, edited.profile, input, guarded, revoke, now), 0, rivals);
      (if outcome == Done then Edited(edited, revoke) else if outcome == LastAdmin then KeepsLastAdmin else NotFound, after)
  }

  /** With another seat taken, either writer lets the call through, and that seat stays. */
  lemma SeatCallLands(t: Table, id: UserId, w: SeatWrite, guarded: bool)
    requires id in t && (guarded ==> OtherSeat(t, id))
    ensures Serial(t, SeatCall(id, w, guarded)) == (Done, Run(t, SeatStatement(id, w)))
    ensures guarded ==> OtherSeat(Run(t, SeatStatement(id, w)), id)
  {
    LastAdminExactly(t, id, w);
    SeatsOfRun(t, SeatStatement(id, w));
  }

  /** One call, then the rest. */
  lemma ThroughOne(t: Table, cs: seq<Call>, k: nat, rivals: Rivals)
    requires k < |cs|
    ensures var (outcome, after) := Serial(SerialAll(t, rivals(k)), cs[k]);
            Through(t, cs, k, rivals) == if outcome != Done then (outcome, after) else Through(after, cs, k + 1, rivals)
  {
  }

  /** A call that is made, or is not, with nothing before it. */
  lemma OptionalStep(t: Table, cs: seq<Call>, k: nat, rivals: Rivals, made: bool, after: Table)
    requires k <= |cs| && rivals(k) == []
    requires if made then k < |cs| && Serial(t, cs[k]) == (Done, after) else after == t
    ensures Through(t, cs, k, rivals) == Through(after, cs, k + OneIf(made), rivals)
  {
  }

  lemma ThroughEnds(t: Table, cs: seq<Call>, rivals: Rivals)
    ensures Through(t, cs, |cs|, rivals) == (Done, t)
  {
  }

  /** An update statement on a row that is there rewrites just that row. */
  lemma RowRun(t: Table, id: UserId, s: Statement)
    requires id in t && s.id == id && !s.Insert? && !s.Delete?
    ensures Run(t, s) == t[id := Rewritten(t[id], s)] && Serial(t, Plain(s)) == (Done, t[id := Rewritten(t[id], s)])
  {
  }

  lemma SeatSurvives(t: Table, id: UserId, a: Account, guarded: bool)
    requires guarded ==> OtherSeat(t, id)
    ensures guarded ==> OtherSeat(t[id := a], id)
  {
    if guarded {
      var other :| other in Seats(t) && other != id;
      assert other in Seats(t[id := a]);
    }
  }

  /** The seat column of a row just written. */
  lemma ColumnLands(t: Table, id: UserId, a: Account, w: SeatWrite, guarded: bool)
    requires guarded ==> OtherSeat(t[id := a], id)
    ensures Serial(t[id := a], SeatCall(id, w, guarded)) == (Done, t[id := Rewritten(a, SeatStatement(id, w))])
  {
    hide Serial, OtherSeat;
    SeatCallLands(t[id := a], id, w, guarded);
    assert t[id := a][id := Rewritten(a, SeatStatement(id, w))] == t[id := Rewritten(a, SeatStatement(id, w))];
  }

  lemma PlainIsOneStatement(t: Table, s: Statement)
    ensures Serial(t, Plain(s)) == (StatementOutcome(t, s), Run(t, s))
  {
  }

  /** The writes with nothing in between leave the account as edited. */
  lemma LoneWrites(t: Table, id: UserId, user: Account, input: UpdateInput, guarded: bool, revoke: bool, now: Instant, rivals: Rivals)
    requires id in t && t[id].username == user.username && t[id].tokensValidAfter == user.tokensValidAfter
    requires input.role.GetOr(t[id].role) == user.role && input.active.GetOr(t[id].active) == user.active
    requires (guarded ==> OtherSeat(t, id)) && forall k :: rivals(k) == []
    ensures Through(t, EditCalls(id, user.profile, input, guarded, revoke, now), 0, rivals) ==
            (Done, t[id := user.(tokensValidAfter := if revoke then Some(now) else user.tokensValidAfter)])
  {
    hide Serial, SerialAll, Run, Seats, Through, OtherSeat, EditCalls;
    var cs := EditCalls(id, user.profile, input, guarded, revoke, now);
    EditCallAt(id, user.profile, input, guarded, revoke, now);
    var role, active := OneIf(input.role.Some?), OneIf(input.active.Some?);
    var a := t[id].(profile := user.profile);
    var b := a.(role := user.role);
    var c := b.(active := user.active);
    RowRun(t, id, Statement.Update(id, user.profile));
    OptionalStep(t, cs, 0, rivals, true, t[id := a]);
    SeatSurvives(t, id, a, guarded);
    ColumnLands(t, id, a, RoleTo(user.role), guarded);
    OptionalStep(t[id := a], cs, 1, rivals, input.role.Some?, t[id := b]);
    SeatSurvives(t, id, b, guarded);
    ColumnLands(t, id, b, ActiveTo(user.active), guarded);
    OptionalStep(t[id := b], cs, 1 + role, rivals, input.active.Some?, t[id := c]);
    RowRun(t[id := c], id, SetTokensValidAfter(id, now));
    var d := c.(tokensValidAfter := if revoke then Some(now) else user.tokensValidAfter);
    assert t[id := c][id := d] == t[id := d];
    OptionalStep(t[id := c], cs, 1 + role + active, rivals, revoke, t[id := d]);
    ThroughEnds(t[id := d], cs, rivals);
  }

  /** Nobody else writing: the edit is refused before any write exactly when it would unseat the only administrator, and otherwise applied in full. */
  lemma LoneEdit(t: Table, id: UserId, input: UpdateInput, now: Instant, hash: string -> string, localLoginDisabled: bool, rivals: Rivals)
    requires id in t && forall k :: rivals(k) == []
    ensures var (r, after) := EditRun(t, id, input, now, hash, localLoginDisabled, [], rivals);
            var edited := EditedAccount(t[id], input, now, hash);
            && (r == KeepsLastAdmin <==> !localLoginDisabled && Seats(t) == {id} && !HoldsSeat(edited))
            && (r == KeepsLastAdmin ==> after == t)
            && (r != KeepsLastAdmin ==> r == Edited(edited, Revokes(t[id], input)) && after == t[id := edited])
            && (!localLoginDisabled && Seats(t) != {} ==> Seats(after) != {})
  {
    var edited := EditedAccount(t[id], input, now, hash);
    var guarded, revoke := GuardsFloor(t[id], edited, localLoginDisabled), Revokes(t[id], input);
    if HoldsSeat(t[id]) {
      OneSeat(Seats(t), id);
      assert OtherSeat(t, id) <==> Seats(t) != {id};
    }
    EditKeepsSeat(t, id, edited);
    if guarded ==> OtherSeat(t, id) {
      LoneWrites(t, id, edited.(tokensValidAfter := t[id].tokensValidAfter), input, guarded, revoke, now, rivals);
    }
  }

  // ----- the edit among other writers

  /** The call may change the validity bound of the account, or make it another account. */
  predicate TouchesBound(c: Call, id: UserId) {
    c.Plain? && c.s.id == id && (c.s.SetTokensValidAfter? || c.s.Insert? || c.s.Delete?)
  }

  predicate LeaveBound(cs: seq<Call>, id: UserId) {
    forall i :: 0 <= i < |cs| ==> !TouchesBound(cs[i], id)
  }

  lemma {:induction false} CallsKeepBound(t: Table, cs: seq<Call>, id: UserId)
    requires id in t && LeaveBound(cs, id)
    ensures id in SerialAll(t, cs) && SerialAll(t, cs)[id].tokensValidAfter == t[id].tokensValidAfter
    decreases |cs|
  {
    if cs != [] {
      assert !TouchesBound(cs[0], id);
      CallsKeepBound(Serial(t, cs[0]).1, cs[1..], id);
    }
  }

  lemma {:induction false} ThroughBound(t: Table, cs: seq<Call>, k: nat, rivals: Rivals, id: UserId, now: Instant)
    requires id in t && k < |cs| && cs[|cs| - 1] == Plain(SetTokensValidAfter(id, now)) && LeaveBound(cs[..|cs| - 1], id)
    requires forall i :: LeaveBound(rivals(i), id)
    requires forall i :: 0 <= i < |cs| ==> (if cs[i].Plain? then cs[i].s.id else cs[i].id) == id
    ensures var (outcome, after) := Through(t, cs, k, rivals);
            && id in after && (outcome == Done || outcome == LastAdmin)
            && after[id].tokensValidAfter == if outcome == Done then Some(now) else t[id].tokensValidAfter
    decreases |cs| - k
  {
    var seen := SerialAll(t, rivals(k));
    CallsKeepBound(t, rivals(k), id);
    if k + 1 < |cs| {
      assert cs[..|cs| - 1][k] == cs[k];
      assert !TouchesBound(cs[k], id);
      if Serial(seen, cs[k]).0 == Done {
        ThroughBound(Serial(seen, cs[k]).1, cs, k + 1, rivals, id, now);
      }
    }
  }

  /** Whatever other writers do to other columns meanwhile, the bound of a revoking edit lands exactly when the edit reports success. */
  lemma BoundLandsWhenDone(t: Table, id: UserId, input: UpdateInput, now: Instant, hash: string -> string, localLoginDisabled: bool,
                           early: seq<Call>, rivals: Rivals)
    requires id in t && Revokes(t[id], input) && LeaveBound(early, id) && forall k :: LeaveBound(rivals(k), id)
    ensures var (r, after) := EditRun(t, id, input, now, hash, localLoginDisabled, early, rivals);
            && id in after && (r.Edited? || r == KeepsLastAdmin)
            && after[id].tokensValidAfter == if r.Edited? then Some(now) else t[id].tokensValidAfter
  {
    var edited := EditedAccount(t[id], input, now, hash);
    var guarded, seen := GuardsFloor(t[id], edited, localLoginDisabled), SerialAll(t, early);
    CallsKeepBound(t, early, id);
    ThroughBound(seen, EditCalls(id, edited.profile, input, guarded, true, now), 0, rivals, id, now);
  }

  /** A call that takes no seat away unguarded, in whatever table. */
  predicate KeepsSeats(c: Call) {
    c.Guarded? || c.s.Update? || c.s.SetTokensValidAfter? || (c.s.SetRole? && c.s.role == Admin) || (c.s.SetActive? && c.s.active)
  }

  ghost predicate RivalsKeepSeats(t: Table, cs: seq<Call>, k: nat, rivals: Rivals)
    requires k <= |cs|
    decreases |cs| - k
  {
    k == |cs|
    || (NoUnguardedVacancy(t, rivals(k))
        && var (outcome, after) := Serial(SerialAll(t, rivals(k)), cs[k]); (outcome == Done ==> RivalsKeepSeats(after, cs, k + 1, rivals)))
  }

  lemma {:induction false} ThroughKeepsFloor(t: Table, cs: seq<Call>, k: nat, rivals: Rivals)
    requires Seats(t) != {} && k <= |cs| && (forall i :: 0 <= i < |cs| ==> KeepsSeats(cs[i])) && RivalsKeepSeats(t, cs, k, rivals)
    ensures Seats(Through(t, cs, k, rivals).1) != {}
    decreases |cs| - k
  {
    if k < |cs| {
      SerialRunsKeepFloor(t, rivals(k));
      var seen := SerialAll(t, rivals(k));
      assert KeepsSeats(cs[k]) && !VacatesUnguarded(seen, cs[k]);
      SerialKeepsFloor(seen, cs[k]);
      if Serial(seen, cs[k]).0 == Done {
        ThroughKeepsFloor(Serial(seen, cs[k]).1, cs, k + 1, rivals);
      }
    }
  }

  /** An edit that read an active administrator keeps the floor among any writers that do, whether it succeeds or is refused at any of its calls. */
  lemma FloorHoldsAmongRivals(t: Table, id: UserId, input: UpdateInput, now: Instant, hash: string -> string,
                              early: seq<Call>, rivals: Rivals)
    requires id in t && HoldsSeat(t[id]) && NoUnguardedVacancy(t, early)
    requires var edited := EditedAccount(t[id], input, now, hash);
             RivalsKeepSeats(SerialAll(t, early),
               EditCalls(id, edited.profile, input, GuardsFloor(t[id], edited, false), Revokes(t[id], input), now), 0, rivals)
    ensures Seats(EditRun(t, id, input, now, hash, false, early, rivals).1) != {}
  {
    assert id in Seats(t);
    SerialRunsKeepFloor(t, early);
    var edited := EditedAccount(t[id], input, now, hash);
    ThroughKeepsFloor(SerialAll(t, early),
      EditCalls(id, edited.profile, input, GuardsFloor(t[id], edited, false), Revokes(t[id], input), now), 0, rivals);
  }

  /** A new password together with a demotion. */
  function Demotion(password: string): UpdateInput {
    UpdateInput(None, Some(password), Some(Regular), None, None, None)
  }

  /**
   Refused late: two administrators, and the other one is demoted between the row write and
   the guard. The edit answers that the last administrator must stay, the new password is
   already in place, and every token that passed before still passes.
   */
  lemma LateRefusal(t: Table, id: UserId, other: UserId, password: string, now: Instant, hash: string -> string)
    requires id != other && Seats(t) == {id, other}
    ensures var rivals: Rivals := k => if k == 1 then [Guarded(other, RoleTo(Regular))] else [];
            var (r, after) := EditRun(t, id, Demotion(password), now, hash, false, [], rivals);
            && r == KeepsLastAdmin && Seats(after) == {id}
            && after[id].profile.passwordHash == hash(password) && after[id].tokensValidAfter == t[id].tokensValidAfter
            && forall claims: Claims :: claims.subject == id ==>
                 VetBearer(FindById(after, id), claims) == VetBearer(FindById(t, id), claims)
  {
    var rivals: Rivals := k => if k == 1 then [Guarded(other, RoleTo(Regular))] else [];
    assert id in Seats(t) && other in Seats(t);
    var edited := EditedAccount(t[id], Demotion(password), now, hash);
    var cs := EditCalls(id, edited.profile, Demotion(password), true, true, now);
    assert |Seats(t)| == 2;
    var t1 := Run(t, Statement.Update(id, edited.profile));
    OptionalStep(t, cs, 0, rivals, true, t1);
    SeatsOfRun(t, Statement.Update(id, edited.profile));
    assert Seats(t1) == {id, other};
    OneGuardLeft(t1, id, other);
  }

  lemma OneGuardLeft(t: Table, id: UserId, other: UserId)
    requires id != other && Seats(t) == {id, other}
    ensures var t' := SerialAll(t, [Guarded(other, RoleTo(Regular))]);
            && id in t && id in t' && t'[id] == t[id] && Seats(t') == {id}
            && Serial(t', Guarded(id, RoleTo(Regular))) == (LastAdmin, t')
  {
    assert id in Seats(t) && other in Seats(t);
    LastAdminExactly(t, other, RoleTo(Regular));
    SeatsOfRun(t, SetRole(other, Regular));
    var t' := Serial(t, Guarded(other, RoleTo(Regular))).1;
    assert [Guarded(other, RoleTo(Regular))][1..] == [];
    assert Seats(t') == {id};
    LastAdminExactly(t', id, RoleTo(Regular));
  }

  // ----- the self-service edit and login among other writers

  /** The self-service edit's writes: the row without its guarded columns, and the bound on a password change. */
  function ProfileCalls(id: UserId, profile: Profile, input: ProfileInput, now: Instant): seq<Call> {
    [Plain(Statement.Update(id, profile))] + (if input.newPassword != "" then [Plain(SetTokensValidAfter(id, now))] else [])
  }

  /** The accepted edit of account `t[id]` as it was read, each write after its rivals. */
  function ProfileRun(t: Table, id: UserId, input: ProfileInput, now: Instant, hash: string -> string, rivals: Rivals): (EditResult, Table)
    requires id in t
  {
    var edited := EditedProfile(t[id], input, now, hash);
    var (outcome, after) := Through(t, ProfileCalls(id, edited.profile, input, now), 0, rivals);
    (if outcome == Done then Edited(edited, input.newPassword != "") else NotFound, after)
  }

  /** Both writes of the edit, the row first. */
  lemma ProfileThrough(t: Table, id: UserId, profile: Profile, input: ProfileInput, now: Instant, rivals: Rivals)
    ensures var first := SerialAll(t, rivals(0));
            var row := Run(first, Statement.Update(id, profile));
            var second := SerialAll(row, rivals(1));
            Through(t, ProfileCalls(id, profile, input, now), 0, rivals) ==
            if id !in first then (UserNotFound, first)
            else if input.newPassword == "" then (Done, row)
            else (if id in second then Done else UserNotFound, Run(second, SetTokensValidAfter(id, now)))
  {
    hide SerialAll, Through;
    var cs := ProfileCalls(id, profile, input, now);
    ThroughOne(t, cs, 0, rivals);
    var row := Run(SerialAll(t, rivals(0)), Statement.Update(id, profile));
    if input.newPassword != "" {
      ThroughOne(row, cs, 1, rivals);
      ThroughEnds(Run(SerialAll(row, rivals(1)), SetTokensValidAfter(id, now)), cs, rivals);
    } else {
      ThroughEnds(row, cs, rivals);
    }
  }

  /** Nobody else writing: the account is as edited, its bound moved with its password. */
  lemma LoneProfileEdit(t: Table, id: UserId, input: ProfileInput, now: Instant, hash: string -> string, rivals: Rivals)
    requires id in t && forall k :: rivals(k) == []
    ensures var edited := EditedProfile(t[id], input, now, hash);
            ProfileRun(t, id, input, now, hash, rivals) == (Edited(edited, input.newPassword != ""), t[id := edited])
  {
    var edited := EditedProfile(t[id], input, now, hash);
    ProfileThrough(t, id, edited.profile, input, now, rivals);
    var row := t[id := t[id].(profile := edited.profile)];
    assert row[id := edited] == t[id := edited];
  }

  /** The same accounts, with the same names, roles and activations. */
  predicate SameStanding(t: Table, u: Table) {
    t.Keys == u.Keys && forall id :: id in t ==> t[id].username == u[id].username && t[id].role == u[id].role && t[id].active == u[id].active
  }

  lemma StandingOfRun(t: Table, u: Table, s: Statement)
    requires SameStanding(t, u)
    ensures SameStanding(Run(t, s), Run(u, s)) && StatementOutcome(t, s) == StatementOutcome(u, s)
  {
    if s.Insert? {
      assert UsernameTaken(t, s.account.username) <==> UsernameTaken(u, s.account.username);
    }
  }

  lemma SameSeats(t: Table, u: Table)
    requires SameStanding(t, u)
    ensures Seats(t) == Seats(u)
  {
  }

  /** Calls tell tables apart by their accounts, names, roles and activations only. */
  lemma StandingDecides(t: Table, u: Table, c: Call)
    requires SameStanding(t, u)
    ensures Serial(t, c).0 == Serial(u, c).0 && SameStanding(Serial(t, c).1, Serial(u, c).1)
  {
    hide Run, Seats;
    match c
    case Plain(s) => StandingOfRun(t, u, s);
    case Guarded(id, w) =>
      var s := SeatStatement(id, w);
      StandingOfRun(t, u, s);
      SameSeats(Run(t, s), Run(u, s));
  }

  lemma {:induction false} StandingDecidesAll(t: Table, u: Table, cs: seq<Call>)
    requires SameStanding(t, u)
    ensures SameStanding(SerialAll(t, cs), SerialAll(u, cs))
    decreases |cs|
  {
    if cs != [] {
      StandingDecides(t, u, cs[0]);
      StandingDecidesAll(Serial(t, cs[0]).1, Serial(u, cs[0]).1, cs[1..]);
    }
  }

  /** However stale its row write, the self-service edit leaves the accounts, names, roles and activations that the other writers alone would. */
  lemma ProfileEditKeepsStanding(t: Table, id: UserId, input: ProfileInput, now: Instant, hash: string -> string, rivals: Rivals)
    requires id in t
    ensures var (r, after) := ProfileRun(t, id, input, now, hash, rivals);
            var first := SerialAll(t, rivals(0));
            SameStanding(after, if input.newPassword != "" && id in first then SerialAll(first, rivals(1)) else first)
  {
    hide SerialAll, Through;
    var edited := EditedProfile(t[id], input, now, hash);
    ProfileThrough(t, id, edited.profile, input, now, rivals);
    var first := SerialAll(t, rivals(0));
    var row := Run(first, Statement.Update(id, edited.profile));
    assert SameStanding(row, first);
    StandingDecidesAll(row, first, rivals(1));
  }

  /**
   A login that read the account before a password edit and signs after it: the token it gets
   for the old password passes exactly when the account is active in its old role and the
   second it was signed in starts no earlier than the edit.
   */
  lemma PasswordChangeDuringLogin(t: Table, id: UserId, input: UpdateInput, changedAt: Instant, hash: string -> string,
                                  localLoginDisabled: bool, early: seq<Call>, rivals: Rivals, signedAt: Instant, stampedAt: Instant, ttl: nat)
    requires id in t && input.password.Some? && LeaveBound(early, id) && forall k :: LeaveBound(rivals(k), id)
    requires EditRun(t, id, input, changedAt, hash, localLoginDisabled, early, rivals).0.Edited?
    ensures var after := EditRun(t, id, input, changedAt, hash, localLoginDisabled, early, rivals).1;
            && id in after
            && (VetBearer(FindById(Run(after, RecordLogin(id, stampedAt)), id), Registered(id, t[id].role, signedAt, ttl)) == Pass <==>
                  after[id].active && after[id].role == t[id].role && changedAt <= NumericDate(signedAt) * SECOND)
  {
    hide EditRun, SerialAll;
    BoundLandsWhenDone(t, id, input, changedAt, hash, localLoginDisabled, early, rivals);
  }

  class Service {
    const users: UserTable
    const localLoginDisabled: bool

    constructor (users: UserTable, localLoginDisabled: bool)
      ensures this.users == users && this.localLoginDisabled == localLoginDisabled
    {
      this.users := users;
      this.localLoginDisabled := localLoginDisabled;
    }

    method SetSeat(id: UserId, w: SeatWrite, guarded: bool) returns (r: Outcome)
      modifies users
      ensures (r, users.rows) == Serial(old(users.rows), SeatCall(id, w, guarded))
    {
      if guarded {
        r := users.WithAdminFloor(id, w);
      } else {
        r := users.Execute(SeatStatement(id, w));
      }
    }

    /** The copy of the account as the request wants it, before any write, and whether its tokens must go. */
    method ApplyFields(a: Account, input: UpdateInput, now: Instant, hash: string -> string)
      returns (user: Account, revoke: bool)
      ensures revoke <==>
                || input.password.Some?
                || (input.role.Some? && input.role.value != a.role)
                || (a.active && input.active == Some(false))
      ensures user == EditedAccount(a, input, now, hash).(tokensValidAfter := a.tokensValidAfter)
    {
      var profile := a.profile;
      user, revoke := a, false;
      if input.email.Some? {
        profile := profile.(email := input.email.value);
      }
      if input.password.Some? {
        profile := profile.(passwordHash := hash(input.password.value));
        revoke := true;
      }
      if input.role.Some? {
        revoke := revoke || input.role.value != user.role;
        user := user.(role := input.role.value);
      }
      if input.active.Some? {
        revoke := revoke || (user.active && !input.active.value);
        user := user.(active := input.active.value);
      }
      if input.maxWorkspaces.Some? {
        profile := profile.(maxWorkspaces := input.maxWorkspaces.value);
      }
      if input.groups.Some? {
        profile := profile.(groups := input.groups.value);
      }
      user := user.(profile := profile.(updatedAt := now));
    }

    /** The writes, each after what other writers committed meanwhile; the first refusal ends the edit where it stands. */
    method WriteEdit(id: UserId, user: Account, input: UpdateInput, guarded: bool, revoke: bool, now: Instant, rivals: Rivals) returns (r: Outcome)
      modifies users
      ensures (r, users.rows) == Through(old(users.rows), EditCalls(id, user.profile, input, guarded, revoke, now), 0, rivals)
    {
      hide Serial, SerialAll, Run, StatementOutcome, SeatCall, EditCalls;
      EditCallAt(id, user.profile, input, guarded, revoke, now);
      ghost var cs := EditCalls(id, user.profile, input, guarded, revoke, now);
      ghost var all := Through(users.rows, cs, 0, rivals);
      var k := 0;
      users.Interfere(rivals(k));
      PlainIsOneStatement(users.rows, Statement.Update(id, user.profile));
      r := users.Execute(Statement.Update(id, user.profile));
      if r != Done {
        return;
      }
      k := k + 1;
      assert all == Through(users.rows, cs, k, rivals);
      if input.role.Some? {
        assert cs[k] == SeatCall(id, RoleTo(input.role.value), guarded);
        users.Interfere(rivals(k));
        r := SetSeat(id, RoleTo(input.role.value), guarded);
        if r != Done {
          return;
        }
        k := k + 1;
      }
      assert all == Through(users.rows, cs, k, rivals);
      if input.active.Some? {
        assert cs[k] == SeatCall(id, ActiveTo(input.active.value), guarded);
        users.Interfere(rivals(k));
        r := SetSeat(id, ActiveTo(input.active.value), guarded);
        if r != Done {
          return;
        }
        k := k + 1;
      }
      assert all == Through(users.rows, cs, k, rivals);
      if revoke {
        assert cs[k] == Plain(SetTokensValidAfter(id, now));
        users.Interfere(rivals(k));
        PlainIsOneStatement(users.rows, SetTokensValidAfter(id, now));
        r := users.Execute(SetTokensValidAfter(id, now));
        if r != Done {
          return;
        }
        k := k + 1;
      }
      assert all == Through(users.rows, cs, k, rivals) && k == |cs|;
    }

    /** The admin edit: the account is read, judged and changed in memory, then written call by call. */
    method Update(id: UserId, input: UpdateInput, now: Instant, hash: string -> string, early: seq<Call>, rivals: Rivals) returns (r: EditResult)
      modifies users
      ensures id !in old(users.rows) ==> r == NotFound && users.rows == old(users.rows)
      ensures id in old(users.rows) && input.role.Some? && input.role.value.Other? ==> r == InvalidRole && users.rows == old(users.rows)
      ensures id in old(users.rows) && !(input.role.Some? && input.role.value.Other?) ==>
                (r, users.rows) == EditRun(old(users.rows), id, input, now, hash, localLoginDisabled, early, rivals)
    {
      if id !in users.rows {
        return NotFound;
      }
      var wasActiveAdmin := HoldsSeat(users.rows[id]);
      if input.role.Some? && input.role.value.Other? {
        return InvalidRole;
      }
      var user, revoke := ApplyFields(users.rows[id], input, now, hash);
      var guardAdminFloor := wasActiveAdmin && !HoldsSeat(user) && !localLoginDisabled;
      users.Interfere(early);
      if guardAdminFloor {
        var admins := users.CountActiveAdmins();
        if admins <= 1 {
          return KeepsLastAdmin;
        }
      }
      var outcome := WriteEdit(id, user, input, guardAdminFloor, revoke, now, rivals);
      r := match outcome
        case Done => Edited(user.(tokensValidAfter := if revoke then Some(now) else user.tokensValidAfter), revoke)
        case LastAdmin => KeepsLastAdmin
        case _ => NotFound;
    }

    /** The self-service edit: the account is read, checked and changed in memory, then written; it never writes role or activation, and a password change ends every session. */
    method UpdateProfile(id: UserId, input: ProfileInput, now: Instant, hash: string -> string,
                         verify: (string, string) -> bool, rivals: Rivals) returns (r: EditResult)
      modifies users
      ensures id !in old(users.rows) ==> r == NotFound
      ensures r == ManagedByIdp <==>
              && id in old(users.rows) && old(users.rows)[id].profile.oidcSubject != ""
              && (input.displayName.Some? || input.email.Some? || input.newPassword != "" || input.currentPassword != "")
      ensures r == WrongPassword <==>
              && id in old(users.rows) && old(users.rows)[id].profile.oidcSubject == ""
              && input.newPassword != "" && !verify(input.currentPassword, old(users.rows)[id].profile.passwordHash)
      ensures id !in old(users.rows) || r == ManagedByIdp || r == WrongPassword ==> users.rows == old(users.rows)
      ensures id in old(users.rows) && r != ManagedByIdp && r != WrongPassword ==>
                (r, users.rows) == ProfileRun(old(users.rows), id, input, now, hash, rivals)
    {
      if id !in users.rows {
        return NotFound;
      }
      var user := users.rows[id];
      if user.profile.oidcSubject != "" {
        if input.displayName.Some? || input.email.Some? {
          return ManagedByIdp;
        }
        if input.newPassword != "" || input.currentPassword != "" {
          return ManagedByIdp;
        }
      }
      var profile := user.profile;
      if input.displayName.Some? {
        profile := profile.(displayName := input.displayName.value);
      }
      if input.email.Some? {
        profile := profile.(email := input.email.value);
      }
      if input.preferences.Some? {
        profile := profile.(preferences := input.preferences.value);
      }
      if input.newPassword != "" {
        if !verify(input.currentPassword, profile.passwordHash) {
          return WrongPassword;
        }
        profile := profile.(passwordHash := hash(input.newPassword));
      }
      user := user.(profile := profile.(updatedAt := now));
      ProfileThrough(users.rows, id, user.profile, input, now, rivals);
      users.Interfere(rivals(0));
      var wrote := users.Execute(Statement.Update(id, user.profile));
      if wrote != Done {
        return NotFound;
      }
      if input.newPassword != "" {
        users.Interfere(rivals(1));
        wrote := users.Execute(SetTokensValidAfter(id, now));
        if wrote != Done {
          return NotFound;
        }
        user := user.(tokensValidAfter := Some(now));
      }
      r := Edited(user, input.newPassword != "");
    }

    /** Login reads, verifies, signs at `signedAt`, and stamps at `now` what other writers left meanwhile; the validity bound is not among what it writes. */
    method Login(username: string, password: string, signedAt: Instant, now: Instant, ttl: nat,
                 verify: (string, string) -> bool, meanwhile: seq<Call>) returns (r: LoginResult)
      requires UniqueUsernames(users.rows)
      modifies users
      ensures r == InvalidCredentials <==>
                forall id :: id in old(users.rows) && old(users.rows)[id].username == username && old(users.rows)[id].active ==>
                  var hash := old(users.rows)[id].profile.passwordHash;
                  hash == "" || !verify(password, hash)
      ensures r == InvalidCredentials ==> users.rows == old(users.rows)
      ensures forall id :: id in old(users.rows) && old(users.rows)[id].username == username && r != InvalidCredentials ==>
                var late := SerialAll(old(users.rows), meanwhile);
                && r == (if id in late then LoggedIn(Registered(id, old(users.rows)[id].role, signedAt, ttl)) else StampFailed)
                && (r.LoggedIn? ==> r.claims.subject == id && r.claims.expiresAt == (signedAt + ttl) / 1_000_000_000)
                && users.rows == Run(late, RecordLogin(id, now))
                && (id in late ==> (VetBearer(FindById(users.rows, id), r.claims) == Pass <==>
                      late[id].active && late[id].role == old(users.rows)[id].role && !Revoked(late[id].tokensValidAfter, Some(NumericDate(signedAt)))))
    {
      if !UsernameTaken(users.rows, username) {
        return InvalidCredentials;
      }
      var id :| id in users.rows && users.rows[id].username == username;
      var user := users.rows[id];
      if user.profile.passwordHash == "" {
        return InvalidCredentials;
      }
      var ok := verify(password, user.profile.passwordHash);
      if !ok || !user.active {
        return InvalidCredentials;
      }
      var claims := Registered(id, user.role, signedAt, ttl);
      users.Interfere(meanwhile);
      var stamped := users.Execute(RecordLogin(id, now));
      r := if stamped == Done then LoggedIn(claims) else StampFailed;
    }

    /** Logout bounds every token issued before it, on every device; a missing account is no error. */
    method Logout(id: UserId, now: Instant)
      modifies users
      ensures users.rows == Run(old(users.rows), SetTokensValidAfter(id, now))
      ensures forall claims: Claims, issued: Instant ::
                claims.subject == id && claims.issuedAt == Some(NumericDate(issued)) && issued < now ==>
                  VetBearer(FindById(users.rows, id), claims).Reject?
    {
      var wrote := users.Execute(SetTokensValidAfter(id, now));
      forall claims: Claims, issued: Instant | claims.subject == id && claims.issuedAt == Some(NumericDate(issued)) && issued < now
        ensures VetBearer(FindById(users.rows, id), claims).Reject?
      {
        RevokedByTruncation(now, issued);
      }
    }
  }
}
