/**
 Per-request revocation: `vetBearer` judges a token against the account row as it is now.
 The results are about whole runs of the platform: what the row says of a token after any
 interleaving of statements and guarded transactions is decided by the last committed
 setter of each of three columns, and by nothing else, however stale the full-row
 `Update`s and login stamps landing in between.
 */
module Revocation {
  import opened Wrappers
  import opened Accounts
  import opened AdminFloor

  const SECOND: nat := 1_000_000_000

  /** An access or stream token. The issue time is a NumericDate: whole seconds (RFC 7519, section 2). */
  datatype Claims = Claims(subject: UserId, role: Role, issuedAt: Option<nat>, expiresAt: nat)

  function NumericDate(t: Instant): nat {
    t / SECOND
  }

  /** The stamps every token gets when it is built at instant `now`. */
  function Registered(subject: UserId, role: Role, now: Instant, ttl: nat): Claims {
    Claims(subject, role, Some(NumericDate(now)), NumericDate(now + ttl))
  }

  datatype Lookup = Found(account: Account) | Missing | Failed

  function FindById(t: Table, id: UserId): Lookup {
    if id in t then Found(t[id]) else Missing
  }

  datatype Problem = AccountGone | Unavailable | AccountDisabled | RoleChanged | TokenRevoked
  datatype Verdict = Pass | Reject(problem: Problem)

  predicate Revoked(bound: Option<Instant>, issuedAt: Option<nat>) {
    bound.Some? && (issuedAt.None? || issuedAt.value * SECOND < bound.value)
  }

  function VetBearer(found: Lookup, claims: Claims): Verdict {
    match found
    case Missing => Reject(AccountGone)
    case Failed => Reject(Unavailable)
    case Found(a) =>
      if !a.active then Reject(AccountDisabled)
      else if a.role != claims.role then Reject(RoleChanged)
      else if Revoked(a.tokensValidAfter, claims.issuedAt) then Reject(TokenRevoked)
      else Pass
  }

  // ----- the second-truncated comparison

  /** A bound kills every earlier token, and of the later ones only those of its own second, unless it falls on the second. */
  lemma RevokedByTruncation(bound: Instant, issued: Instant)
    ensures Revoked(Some(bound), Some(NumericDate(issued))) <==>
            issued < bound || (NumericDate(issued) == NumericDate(bound) && bound % SECOND != 0)
    ensures Revoked(Some(bound), Some(NumericDate(issued))) && bound <= issued ==> issued - bound < SECOND
  {
  }

  /** A token passes only on an account that was found: active, in the token's role, with no bound later than the second of issue. Otherwise the first of these that fails is the answer. */
  lemma PassNeedsAccount(found: Lookup, claims: Claims)
    ensures VetBearer(found, claims) == Pass <==>
            && found.Found? && found.account.active && found.account.role == claims.role
            && (found.account.tokensValidAfter.Some? ==>
                  claims.issuedAt.Some? && claims.issuedAt.value * 1_000_000_000 >= found.account.tokensValidAfter.value)
    ensures found.Missing? <==> VetBearer(found, claims) == Reject(AccountGone)
    ensures found.Failed? <==> VetBearer(found, claims) == Reject(Unavailable)
    ensures VetBearer(found, claims) == Reject(AccountDisabled) <==> found.Found? && !found.account.active
    ensures VetBearer(found, claims) == Reject(RoleChanged) <==> found.Found? && found.account.active && found.account.role != claims.role
  {
  }

  // ----- columns follow their own setters

  /** The statement after which no earlier value of the account matters: it is created or deleted. */
  predicate Recreates(s: Statement, id: UserId) {
    s.id == id && (s.Insert? || s.Delete?)
  }

  function LastRole(ss: seq<Statement>, id: UserId, before: Role): Role {
    if ss == [] then before
    else LastRole(ss[1..], id, if ss[0].SetRole? && ss[0].id == id then ss[0].role else before)
  }

  function LastActive(ss: seq<Statement>, id: UserId, before: bool): bool {
    if ss == [] then before
    else LastActive(ss[1..], id, if ss[0].SetActive? && ss[0].id == id then ss[0].active else before)
  }

  function LastBound(ss: seq<Statement>, id: UserId, before: Option<Instant>): Option<Instant> {
    if ss == [] then before
    else LastBound(ss[1..], id, if ss[0].SetTokensValidAfter? && ss[0].id == id then Some(ss[0].bound) else before)
  }

  lemma {:induction false} ColumnsFollowSetters(t: Table, ss: seq<Statement>, id: UserId)
    requires id in t
    requires forall i :: 0 <= i < |ss| ==> !Recreates(ss[i], id)
    ensures id in RunAll(t, ss)
    ensures var a := RunAll(t, ss)[id];
            && a.role == LastRole(ss, id, t[id].role)
            && a.active == LastActive(ss, id, t[id].active)
            && a.tokensValidAfter == LastBound(ss, id, t[id].tokensValidAfter)
    decreases |ss|
  {
    if ss != [] {
      ColumnsFollowSetters(Run(t, ss[0]), ss[1..], id);
    }
  }

  /** The statements a run commits, in order: its own, and those of the guards that got to their commit. */
  function Committed(s: State, es: seq<Event>): seq<Statement>
    requires Exec(s, es).Some?
    decreases |es|
  {
    if es == [] then []
    else
      var now := match es[0]
        case Execute(st) => [st]
        case Commit(tx) => [SeatStatement(s.guards[tx].target, s.guards[tx].write)]
        case _ => [];
      now + Committed(Step(s, es[0]).value, es[1..])
  }

  /** Every run, guarded or not, leaves the table its committed statements leave: a rolled-back guard leaves nothing. */
  lemma {:induction false} RunsCommitStatements(s: State, es: seq<Event>)
    requires Exec(s, es).Some?
    ensures Exec(s, es).value.rows == RunAll(s.rows, Committed(s, es))
    decreases |es|
  {
    if es != [] {
      var s' := Step(s, es[0]).value;
      RunsCommitStatements(s', es[1..]);
      var rest := Committed(s', es[1..]);
      match es[0]
      case Execute(st) =>
        assert ([st] + rest)[1..] == rest;
      case Commit(tx) =>
        assert ([SeatStatement(s.guards[tx].target, s.guards[tx].write)] + rest)[1..] == rest;
      case _ =>
        assert [] + rest == rest;
    }
  }

  // ----- the verdict after any run

  /**
   After any run that does not recreate the account, a token passes exactly when the last
   committed setters let it. The last bound decides even when it is an earlier instant than
   the one it replaces: an edit stamps its bound from the clock it read before its first write.
   */
  lemma PassesExactly(s: State, es: seq<Event>, claims: Claims)
    requires Exec(s, es).Some? && claims.subject in s.rows
    requires forall i :: 0 <= i < |Committed(s, es)| ==> !Recreates(Committed(s, es)[i], claims.subject)
    ensures var id, ss, a := claims.subject, Committed(s, es), s.rows[claims.subject];
            VetBearer(FindById(Exec(s, es).value.rows, id), claims) == Pass <==>
            && LastActive(ss, id, a.active)
            && LastRole(ss, id, a.role) == claims.role
            && !Revoked(LastBound(ss, id, a.tokensValidAfter), claims.issuedAt)
  {
    RunsCommitStatements(s, es);
    ColumnsFollowSetters(s.rows, Committed(s, es), claims.subject);
  }

  lemma {:induction false} NoSetterNoChange(ss: seq<Statement>, a: Account, id: UserId)
    ensures (forall i :: 0 <= i < |ss| ==> !(ss[i].SetRole? && ss[i].id == id)) ==> LastRole(ss, id, a.role) == a.role
    ensures (forall i :: 0 <= i < |ss| ==> !(ss[i].SetActive? && ss[i].id == id)) ==> LastActive(ss, id, a.active) == a.active
    ensures (forall i :: 0 <= i < |ss| ==> !(ss[i].SetTokensValidAfter? && ss[i].id == id)) ==>
              LastBound(ss, id, a.tokensValidAfter) == a.tokensValidAfter
  {
    if ss != [] {
      NoSetterNoChange(ss[1..], Rewritten(a, if ss[0].id == id then ss[0] else RecordLogin(id, 0)), id);
      assert forall i :: 0 <= i < |ss[1..]| ==> ss[1..][i] == ss[i + 1];
    }
  }

  lemma {:induction false} DeletedStaysGone(t: Table, ss: seq<Statement>, id: UserId)
    requires forall i :: 0 <= i < |ss| ==> !(ss[i].Insert? && ss[i].id == id)
    requires id !in t
    ensures id !in RunAll(t, ss)
    decreases |ss|
  {
    if ss != [] {
      DeletedStaysGone(Run(t, ss[0]), ss[1..], id);
    }
  }

  /** Deletion included: until a targeted setter rewrites the column, the row keeps its value or is gone. Identifiers are never reused. */
  lemma {:induction false} KeptOrGone(t: Table, ss: seq<Statement>, id: UserId)
    requires id in t
    requires forall i :: 0 <= i < |ss| ==> !(ss[i].Insert? && ss[i].id == id)
    ensures id in RunAll(t, ss) ==>
              forall i :: 0 <= i < |ss| ==> !Recreates(ss[i], id)
    decreases |ss|
  {
    if ss != [] {
      if ss[0] == Delete(id) {
        DeletedStaysGone(Run(t, ss[0]), ss[1..], id);
      } else {
        KeptOrGone(Run(t, ss[0]), ss[1..], id);
        assert forall i :: 1 <= i < |ss| ==> ss[i] == ss[1..][i - 1];
      }
    }
  }

  predicate NeverInserted(ss: seq<Statement>, id: UserId) {
    forall i :: 0 <= i < |ss| ==> !(ss[i].Insert? && ss[i].id == id)
  }

  lemma RowAfterRun(s: State, es: seq<Event>, id: UserId)
    requires Exec(s, es).Some? && id in s.rows && NeverInserted(Committed(s, es), id)
    ensures id in Exec(s, es).value.rows ==>
              var a, a', ss := s.rows[id], Exec(s, es).value.rows[id], Committed(s, es);
              && ((forall i :: 0 <= i < |ss| ==> !(ss[i].SetRole? && ss[i].id == id)) ==> a'.role == a.role)
              && ((forall i :: 0 <= i < |ss| ==> !(ss[i].SetActive? && ss[i].id == id)) ==> a'.active == a.active)
              && ((forall i :: 0 <= i < |ss| ==> !(ss[i].SetTokensValidAfter? && ss[i].id == id)) ==> a'.tokensValidAfter == a.tokensValidAfter)
  {
    var ss := Committed(s, es);
    RunsCommitStatements(s, es);
    KeptOrGone(s.rows, ss, id);
    if id in Exec(s, es).value.rows {
      ColumnsFollowSetters(s.rows, ss, id);
      NoSetterNoChange(ss, s.rows[id], id);
    }
  }

  /** Once a bound is committed, no token issued before it passes until the bound column is set again. */
  lemma RevocationHolds(s: State, es: seq<Event>, bound: Instant, claims: Claims, issued: Instant)
    requires Exec(s, es).Some? && claims.subject in s.rows && NeverInserted(Committed(s, es), claims.subject)
    requires s.rows[claims.subject].tokensValidAfter == Some(bound)
    requires claims.issuedAt == Some(NumericDate(issued)) && issued < bound
    requires forall i :: 0 <= i < |Committed(s, es)| ==>
               !(Committed(s, es)[i].SetTokensValidAfter? && Committed(s, es)[i].id == claims.subject)
    ensures VetBearer(FindById(Exec(s, es).value.rows, claims.subject), claims).Reject?
  {
    RowAfterRun(s, es, claims.subject);
    RevokedByTruncation(bound, issued);
  }

  /** A deactivated account stays shut until it is activated, and a token of a lost role until the role is set back. */
  lemma LockoutHolds(s: State, es: seq<Event>, claims: Claims)
    requires Exec(s, es).Some? && claims.subject in s.rows && NeverInserted(Committed(s, es), claims.subject)
    requires
      || (!s.rows[claims.subject].active && forall i :: 0 <= i < |Committed(s, es)| ==>
            Committed(s, es)[i] != SetActive(claims.subject, true))
      || (s.rows[claims.subject].role != claims.role && forall i :: 0 <= i < |Committed(s, es)| ==>
            Committed(s, es)[i] != SetRole(claims.subject, claims.role))
    ensures VetBearer(FindById(Exec(s, es).value.rows, claims.subject), claims).Reject?
  {
    var id, ss := claims.subject, Committed(s, es);
    RunsCommitStatements(s, es);
    KeptOrGone(s.rows, ss, id);
    if id in RunAll(s.rows, ss) {
      ColumnsFollowSetters(s.rows, ss, id);
      NotSetBack(ss, s.rows[id], id, claims.role);
    }
  }

  lemma {:induction false} NotSetBack(ss: seq<Statement>, a: Account, id: UserId, role: Role)
    ensures !a.active && (forall i :: 0 <= i < |ss| ==> ss[i] != SetActive(id, true)) ==> !LastActive(ss, id, a.active)
    ensures a.role != role && (forall i :: 0 <= i < |ss| ==> ss[i] != SetRole(id, role)) ==> LastRole(ss, id, a.role) != role
  {
    if ss != [] {
      assert forall i :: 0 <= i < |ss[1..]| ==> ss[1..][i] == ss[i + 1];
      NotSetBack(ss[1..], if ss[0].id == id then Rewritten(a, ss[0]) else a, id, role);
    }
  }

  /** A bound of 20 s and a later setter of 10 s: a token of second 15 is refused after the first and passes again after the second. */
  lemma BoundMovesBack(t: Table, id: UserId)
    requires id in t && t[id].active
    ensures var claims, s, e := Registered(id, t[id].role, 15 * SECOND, 3600 * SECOND), SetTokensValidAfter(id, 20 * SECOND), SetTokensValidAfter(id, 10 * SECOND);
            && VetBearer(FindById(RunAll(t, [s]), id), claims) == Reject(TokenRevoked)
            && VetBearer(FindById(RunAll(t, [s, e]), id), claims) == Pass
  {
    var s, e := SetTokensValidAfter(id, 20 * SECOND), SetTokensValidAfter(id, 10 * SECOND);
    assert [s, e][1..] == [e] && [s][1..] == [];
    assert RunAll(Run(t, s), [e]) == Run(Run(t, s), e);
  }
}
