/**
 The account edits column by column: what an edit leaves in each column, which edits end
 the account's sessions, and that they stay ended when the account is activated again.
 */
module EditColumns {
  import opened Wrappers
  import opened Accounts
  import opened Revocation
  import opened UserService

  /** Nobody else writing, every column of an edit that is not refused; the bound moves for a password, another role or a deactivation, and only then. */
  lemma LoneEditColumns(t: Table, id: UserId, input: UpdateInput, now: Instant, hash: string -> string, localLoginDisabled: bool, rivals: Rivals)
    requires id in t && forall k :: rivals(k) == []
    requires EditRun(t, id, input, now, hash, localLoginDisabled, [], rivals).0 != KeepsLastAdmin
    ensures var (r, after) := EditRun(t, id, input, now, hash, localLoginDisabled, [], rivals);
            var ends := || input.password.Some?
                        || (input.role.Some? && input.role.value != t[id].role)
                        || (t[id].active && input.active == Some(false));
            && after.Keys == t.Keys && (forall other :: other in t && other != id ==> after[other] == t[other])
            && r == Edited(after[id], ends)
            && after[id].tokensValidAfter == (if ends then Some(now) else t[id].tokensValidAfter)
            && after[id].role == (if input.role.Some? then input.role.value else t[id].role)
            && after[id].active == (if input.active.Some? then input.active.value else t[id].active)
            && after[id].profile.email == (if input.email.Some? then input.email.value else t[id].profile.email)
            && after[id].profile.maxWorkspaces == (if input.maxWorkspaces.Some? then input.maxWorkspaces.value else t[id].profile.maxWorkspaces)
            && after[id].profile.groups == (if input.groups.Some? then input.groups.value else t[id].profile.groups)
            && after[id].profile.passwordHash == (if input.password.Some? then hash(input.password.value) else t[id].profile.passwordHash)
            && after[id].profile.updatedAt == now && after[id].username == t[id].username
            && after[id].profile.lastLoginAt == t[id].profile.lastLoginAt && after[id].profile.displayName == t[id].profile.displayName
            && after[id].profile.preferences == t[id].profile.preferences && after[id].profile.oidcSubject == t[id].profile.oidcSubject
  {
    hide EditRun;
    LoneEdit(t, id, input, now, hash, localLoginDisabled, rivals);
  }

  /** Nobody else writing: refused exactly for the only active administrator, demoted or deactivated, while local login is on. */
  lemma LoneEditRefused(t: Table, id: UserId, input: UpdateInput, now: Instant, hash: string -> string, localLoginDisabled: bool, rivals: Rivals)
    requires id in t && forall k :: rivals(k) == []
    ensures var (r, after) := EditRun(t, id, input, now, hash, localLoginDisabled, [], rivals);
            && (r == KeepsLastAdmin <==>
                  && !localLoginDisabled && t[id].role == Admin && t[id].active
                  && (forall other :: other in t && other != id ==> t[other].role != Admin || !t[other].active)
                  && ((input.role.Some? && input.role.value != Admin) || input.active == Some(false)))
            && (r == KeepsLastAdmin ==> after == t)
  {
    hide EditRun;
    LoneEdit(t, id, input, now, hash, localLoginDisabled, rivals);
    SeatsAreAdministrators(t);
    assert Seats(t) == {id} <==> id in Seats(t) && forall other :: other in t && other != id ==> other !in Seats(t);
  }

  /** The self-service edit's columns; the bound moves for a new password, and only then. */
  lemma LoneProfileColumns(t: Table, id: UserId, input: ProfileInput, now: Instant, hash: string -> string, rivals: Rivals)
    requires id in t && forall k :: rivals(k) == []
    ensures var (r, after) := ProfileRun(t, id, input, now, hash, rivals);
            && after.Keys == t.Keys && (forall other :: other in t && other != id ==> after[other] == t[other])
            && r == Edited(after[id], input.newPassword != "")
            && after[id].tokensValidAfter == (if input.newPassword != "" then Some(now) else t[id].tokensValidAfter)
            && after[id].profile.passwordHash == (if input.newPassword != "" then hash(input.newPassword) else t[id].profile.passwordHash)
            && after[id].profile.displayName == (if input.displayName.Some? then input.displayName.value else t[id].profile.displayName)
            && after[id].profile.email == (if input.email.Some? then input.email.value else t[id].profile.email)
            && after[id].profile.preferences == (if input.preferences.Some? then input.preferences.value else t[id].profile.preferences)
            && after[id].profile.updatedAt == now && after[id].username == t[id].username
            && after[id].role == t[id].role && after[id].active == t[id].active
            && after[id].profile.maxWorkspaces == t[id].profile.maxWorkspaces && after[id].profile.groups == t[id].profile.groups
            && after[id].profile.lastLoginAt == t[id].profile.lastLoginAt && after[id].profile.oidcSubject == t[id].profile.oidcSubject
  {
    hide ProfileRun;
    LoneProfileEdit(t, id, input, now, hash, rivals);
  }

  // ----- among other writers

  lemma {:induction false} ThroughKeepsBound(t: Table, cs: seq<Call>, k: nat, rivals: Rivals, id: UserId)
    requires id in t && k <= |cs| && LeaveBound(cs, id) && forall i :: LeaveBound(rivals(i), id)
    ensures var after := Through(t, cs, k, rivals).1;
            id in after && after[id].tokensValidAfter == t[id].tokensValidAfter
    decreases |cs| - k
  {
    if k < |cs| {
      CallsKeepBound(t, rivals(k), id);
      var seen := SerialAll(t, rivals(k));
      assert !TouchesBound(cs[k], id);
      if Serial(seen, cs[k]).0 == Done {
        ThroughKeepsBound(Serial(seen, cs[k]).1, cs, k + 1, rivals, id);
      }
    }
  }

  /** Whatever other writers do to other columns, the bound moves exactly when the edit succeeds and carries a password, another role or a deactivation. */
  lemma BoundMovesExactly(t: Table, id: UserId, input: UpdateInput, now: Instant, hash: string -> string, localLoginDisabled: bool,
                          early: seq<Call>, rivals: Rivals)
    requires id in t && LeaveBound(early, id) && forall k :: LeaveBound(rivals(k), id)
    ensures var (r, after) := EditRun(t, id, input, now, hash, localLoginDisabled, early, rivals);
            var ends := || input.password.Some?
                        || (input.role.Some? && input.role.value != t[id].role)
                        || (t[id].active && input.active == Some(false));
            && id in after
            && after[id].tokensValidAfter == if r.Edited? && ends then Some(now) else t[id].tokensValidAfter
  {
    hide Through, SerialAll;
    if Revokes(t[id], input) {
      BoundLandsWhenDone(t, id, input, now, hash, localLoginDisabled, early, rivals);
    } else {
      var edited, seen := EditedAccount(t[id], input, now, hash), SerialAll(t, early);
      CallsKeepBound(t, early, id);
      var guarded := GuardsFloor(t[id], edited, localLoginDisabled);
      ThroughKeepsBound(seen, EditCalls(id, edited.profile, input, guarded, false, now), 0, rivals, id);
    }
  }

  /** Reactivation does not bring the sessions back: a token issued before a deactivating edit stays rejected. */
  lemma SessionsStayEnded(t: Table, id: UserId, input: UpdateInput, now: Instant, hash: string -> string, localLoginDisabled: bool,
                          early: seq<Call>, rivals: Rivals, claims: Claims, issued: Instant)
    requires id in t && t[id].active && input.active == Some(false) && LeaveBound(early, id) && forall k :: LeaveBound(rivals(k), id)
    requires EditRun(t, id, input, now, hash, localLoginDisabled, early, rivals).0.Edited?
    requires claims.subject == id && claims.issuedAt == Some(NumericDate(issued)) && issued < now
    ensures var after := EditRun(t, id, input, now, hash, localLoginDisabled, early, rivals).1;
            VetBearer(FindById(Run(after, SetActive(id, true)), id), claims).Reject?
  {
    hide EditRun;
    BoundMovesExactly(t, id, input, now, hash, localLoginDisabled, early, rivals);
    RevokedByTruncation(now, issued);
  }
}
