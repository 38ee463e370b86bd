/**
 The `users` table: its columns, the one-statement writers of the repository, and the
 guarded writers that keep an active administrator. `Run` and `Serial` say what one
 committed statement or guarded call does to the table; class `UserTable` is the table
 updated in place, as on the single-connection SQLite pool. The interleaved PostgreSQL
 form is in `AdminFloor`.
 */
module Accounts {
  import opened Wrappers

  // Identifiers are only compared and ordered.
  type UserId = nat

  datatype Role = Admin | Regular | Other(name: string)

  /** The columns a full-row `Update` rewrites from an in-memory copy. */
  datatype Profile = Profile(
    email: string, passwordHash: string, maxWorkspaces: int, updatedAt: Instant,
    lastLoginAt: Option<Instant>, groups: seq<string>, displayName: string,
    preferences: string, oidcSubject: string)

  datatype Account = Account(
    username: string, profile: Profile, role: Role, active: bool,
    tokensValidAfter: Option<Instant>)

  type Table = map<UserId, Account>

  /** The statements that commit on their own, one row each. */
  datatype Statement =
    | Insert(id: UserId, account: Account)
    | Update(id: UserId, profile: Profile)
    | RecordLogin(id: UserId, at: Instant)
    | SetRole(id: UserId, role: Role)
    | SetActive(id: UserId, active: bool)
    | SetTokensValidAfter(id: UserId, bound: Instant)
    | Delete(id: UserId)

  /** The two writes `withAdminFloor` is used for. */
  datatype SeatWrite = RoleTo(role: Role) | ActiveTo(active: bool)

  datatype Outcome = Done | UserNotFound | Duplicate | LastAdmin

  predicate HoldsSeat(a: Account) {
    a.role == Admin && a.active
  }

  /** The accounts that can still administer the platform. */
  function Seats(t: Table): set<UserId> {
    set id | id in t && HoldsSeat(t[id])
  }

  predicate UsernameTaken(t: Table, name: string) {
    exists id :: id in t && t[id].username == name
  }

  function SeatStatement(id: UserId, w: SeatWrite): Statement {
    match w
    case RoleTo(role) => SetRole(id, role)
    case ActiveTo(active) => SetActive(id, active)
  }

  /** What one statement leaves in an account row it applies to. */
  function Rewritten(a: Account, s: Statement): Account {
    match s
    case Update(_, profile) => a.(profile := profile)
    case RecordLogin(_, at) => a.(profile := a.profile.(lastLoginAt := Some(at), updatedAt := at))
    case SetRole(_, role) => a.(role := role)
    case SetActive(_, active) => a.(active := active)
    case SetTokensValidAfter(_, bound) => a.(tokensValidAfter := Some(bound))
    case Insert(_, _) => a
    case Delete(_) => a
  }

  function Run(t: Table, s: Statement): Table {
    match s
    case Insert(id, account) => if id in t || UsernameTaken(t, account.username) then t else t[id := account]
    case Delete(id) => t - {id}
    case _ => if s.id in t then t[s.id := Rewritten(t[s.id], s)] else t
  }

  function StatementOutcome(t: Table, s: Statement): Outcome {
    match s
    case Insert(id, account) => if id in t || UsernameTaken(t, account.username) then Duplicate else Done
    case _ => if s.id in t then Done else UserNotFound
  }

  function RunAll(t: Table, ss: seq<Statement>): Table
    decreases |ss|
  {
    if ss == [] then t else RunAll(Run(t, ss[0]), ss[1..])
  }

  /** One call on the table: a plain statement, or a guarded seat write. */
  datatype Call = Plain(s: Statement) | Guarded(id: UserId, w: SeatWrite)

  /** The call executed with nothing else in between: its outcome and the table it leaves. */
  function Serial(t: Table, c: Call): (Outcome, Table) {
    match c
    case Plain(s) => (StatementOutcome(t, s), Run(t, s))
    case Guarded(id, w) =>
      if id !in t then (UserNotFound, t)
      else
        var after := Run(t, SeatStatement(id, w));
        if HoldsSeat(t[id]) && Seats(after) == {} then (LastAdmin, t) else (Done, after)
  }

  function SerialAll(t: Table, cs: seq<Call>): Table
    decreases |cs|
  {
    if cs == [] then t else SerialAll(Serial(t, cs[0]).1, cs[1..])
  }

  /** An unguarded statement that empties a seat: demotion, deactivation or deletion of an active administrator. */
  predicate VacatesSeat(t: Table, s: Statement) {
    s.id in Seats(t) && s.id !in Seats(Run(t, s))
  }

  predicate VacatesUnguarded(t: Table, c: Call) {
    c.Plain? && VacatesSeat(t, c.s)
  }

  // ----- what each statement writes

  /** An insert adds its row unless the id or the username is taken. */
  lemma InsertAddsRow(t: Table, id: UserId, account: Account)
    ensures var after := Run(t, Insert(id, account));
            var taken := id in t || exists other :: other in t && t[other].username == account.username;
            && StatementOutcome(t, Insert(id, account)) == (if taken then Duplicate else Done)
            && after == (if taken then t else t[id := account])
  {
  }

  /** An update of a row there is writes the columns it names; no other row is touched, and nothing is when the row is not there. */
  lemma UpdatesOwnColumns(t: Table, s: Statement)
    requires !s.Insert? && !s.Delete?
    ensures var after := Run(t, s);
            && after.Keys == t.Keys && (forall other :: other in t && other != s.id ==> after[other] == t[other])
            && StatementOutcome(t, s) == (if s.id in t then Done else UserNotFound)
            && (s.id in t ==>
                  && after[s.id].username == t[s.id].username
                  && after[s.id].role == (if s.SetRole? then s.role else t[s.id].role)
                  && after[s.id].active == (if s.SetActive? then s.active else t[s.id].active)
                  && after[s.id].tokensValidAfter == (if s.SetTokensValidAfter? then Some(s.bound) else t[s.id].tokensValidAfter)
                  && (s.Update? ==> after[s.id].profile == s.profile)
                  && (s.RecordLogin? ==> after[s.id].profile == t[s.id].profile.(lastLoginAt := Some(s.at), updatedAt := s.at))
                  && (!s.Update? && !s.RecordLogin? ==> after[s.id].profile == t[s.id].profile))
  {
  }

  /** Where nobody administers, no account is both an administrator and active. */
  lemma SeatsAreAdministrators(t: Table)
    ensures Seats(t) == {} <==> forall id :: id in t ==> t[id].role != Admin || !t[id].active
    ensures forall id :: id in Seats(t) <==> id in t && t[id].role == Admin && t[id].active
  {
    forall id | id in t && t[id].role == Admin && t[id].active
      ensures id in Seats(t)
    {
    }
  }

  // ----- the guarded call, judged on what it leaves behind

  lemma SeatsOfRun(t: Table, s: Statement)
    ensures forall id :: id != s.id ==> (id in Seats(Run(t, s)) <==> id in Seats(t))
  {
  }

  /** The guard refuses exactly when the account is the only active administrator and the write unseats it. */
  lemma LastAdminExactly(t: Table, id: UserId, w: SeatWrite)
    requires id in t
    ensures Serial(t, Guarded(id, w)).0 == LastAdmin <==>
            Seats(t) == {id} && w != RoleTo(Admin) && w != ActiveTo(true)
    ensures Serial(t, Guarded(id, w)).0 == LastAdmin ==> Serial(t, Guarded(id, w)).1 == t
  {
    var after := Run(t, SeatStatement(id, w));
    SeatsOfRun(t, SeatStatement(id, w));
    if Seats(t) == {id} {
      assert id in Seats(t);
      if w != RoleTo(Admin) && w != ActiveTo(true) {
        assert Seats(after) == {};
      } else {
        assert id in Seats(after);
      }
    } else if HoldsSeat(t[id]) {
      assert id in Seats(t);
      var other :| other in Seats(t) && other != id;
      assert other in Seats(after);
    }
  }

  /** Whatever the calls, the floor survives as long as no unguarded statement vacates a seat. */
  ghost predicate NoUnguardedVacancy(t: Table, cs: seq<Call>)
    decreases |cs|
  {
    cs == [] || (!VacatesUnguarded(t, cs[0]) && NoUnguardedVacancy(Serial(t, cs[0]).1, cs[1..]))
  }

  lemma SerialKeepsFloor(t: Table, c: Call)
    requires Seats(t) != {} && !VacatesUnguarded(t, c)
    ensures Seats(Serial(t, c).1) != {}
  {
  }

  lemma {:induction false} SerialRunsKeepFloor(t: Table, cs: seq<Call>)
    requires Seats(t) != {} && NoUnguardedVacancy(t, cs)
    ensures Seats(SerialAll(t, cs)) != {}
    decreases |cs|
  {
    if cs != [] {
      SerialKeepsFloor(t, cs[0]);
      SerialRunsKeepFloor(Serial(t, cs[0]).1, cs[1..]);
    }
  }

  // ----- the table updated in place

  class UserTable {
    var rows: Table

    constructor ()
      ensures rows == map[]
    {
      rows := map[];
    }

    method Create(id: UserId, account: Account) returns (r: Outcome)
      modifies this
      ensures r == StatementOutcome(old(rows), Insert(id, account))
      ensures rows == Run(old(rows), Insert(id, account))
    {
      if id in rows || UsernameTaken(rows, account.username) {
        return Duplicate;
      }
      rows := rows[id := account];
      r := Done;
    }

    /** One targeted or full-row UPDATE: every column it does not name keeps its value. */
    method Execute(s: Statement) returns (r: Outcome)
      requires !s.Insert?
      modifies this
      ensures r == StatementOutcome(old(rows), s)
      ensures rows == Run(old(rows), s)
    {
      if s.id !in rows {
        assert s.Delete? ==> rows - {s.id} == rows;
        return UserNotFound;
      }
      if s.Delete? {
        rows := rows - {s.id};
      } else {
        rows := rows[s.id := Rewritten(rows[s.id], s)];
      }
      r := Done;
    }

    method CountActiveAdmins() returns (n: nat)
      ensures n == |Seats(rows)|
    {
      n := 0;
      var left := rows.Keys;
      ghost var counted: set<UserId> := {};
      while left != {}
        invariant left <= rows.Keys && n == |counted|
        invariant counted == Seats(rows) - left
        decreases left
      {
        var id :| id in left;
        left := left - {id};
        if HoldsSeat(rows[id]) {
          counted := counted + {id};
          n := n + 1;
        }
      }
    }

    /** Calls of other writers, committed one after another. */
    method Interfere(cs: seq<Call>)
      modifies this
      ensures rows == SerialAll(old(rows), cs)
    {
      rows := SerialAll(rows, cs);
    }

    /** `withAdminFloor` on a single connection: read, write, count, then commit or roll back. */
    method WithAdminFloor(id: UserId, w: SeatWrite) returns (r: Outcome)
      modifies this
      ensures (r, rows) == Serial(old(rows), Guarded(id, w))
      ensures r != Done ==> rows == old(rows)
      ensures Seats(old(rows)) != {} ==> Seats(rows) != {}
    {
      ghost var before := rows;
      if id !in rows {
        return UserNotFound;
      }
      var rollback := rows;
      var wasActiveAdmin := HoldsSeat(rows[id]);
      var wrote := Execute(SeatStatement(id, w));
      if wasActiveAdmin {
        var admins := CountActiveAdmins();
        if admins == 0 {
          rows := rollback;
          return LastAdmin;
        }
      }
      r := Done;
      if Seats(before) != {} {
        SerialKeepsFloor(before, Guarded(id, w));
      }
    }
  }
}
