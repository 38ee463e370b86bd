/**
 `withAdminFloor` on PostgreSQL: many guarded transactions interleaving with each other
 and with every other writer of the table. A statement that commits on its own is one
 step; a guard is a sequence of steps between which anything may happen. Locking the
 administrator seats is one atomic step.

 The main results: what is committed is always what the calls would have left had they
 run one after another (`RunsAreSerial`), so the floor holds in every reachable state
 (`FloorHolds`), and no guard past its lock ever waits (`GuardsNeverStall`).
 */
module AdminFloor {
  import opened Wrappers
  import opened Accounts

  type TxId = nat

  /** How far a guard has come; from `Vetted` on it knows whether the target held a seat. */
  datatype Phase = Begun | Locked | Vetted(wasActiveAdmin: bool) | Written(wasActiveAdmin: bool) | Approved(wasActiveAdmin: bool)

  /** An open transaction: the seats it locked, and the uncommitted write implied by its phase. */
  datatype Guard = Guard(target: UserId, write: SeatWrite, phase: Phase, seats: set<UserId>)

  datatype State = State(rows: Table, guards: map<TxId, Guard>)

  datatype Event =
    | Execute(s: Statement)
    | Begin(tx: TxId, target: UserId, write: SeatWrite)
    | LockSeats(tx: TxId)
    | ReadTarget(tx: TxId)
    | WriteTarget(tx: TxId)
    | Judge(tx: TxId)
    | Commit(tx: TxId)
    | Fail(tx: TxId)  // an error return: the deferred rollback

  predicate HasWritten(g: Guard) {
    g.phase.Written? || g.phase.Approved?
  }

  predicate PastLock(g: Guard) {
    !g.phase.Begun?
  }

  function LockedRows(g: Guard): set<UserId> {
    g.seats + if HasWritten(g) then {g.target} else {}
  }

  predicate LockedByOther(s: State, tx: TxId, id: UserId) {
    exists other :: other in s.guards && other != tx && id in LockedRows(s.guards[other])
  }

  predicate LockedByAny(s: State, id: UserId) {
    exists tx :: tx in s.guards && id in LockedRows(s.guards[tx])
  }

  /** The table as the transaction would leave it: its own write over the committed rows. */
  function Pending(rows: Table, g: Guard): Table {
    if HasWritten(g) then Run(rows, SeatStatement(g.target, g.write)) else rows
  }

  function Advance(s: State, tx: TxId, g: Guard): State {
    s.(guards := s.guards[tx := g])
  }

  function Finish(s: State, tx: TxId): State {
    s.(guards := s.guards - {tx})
  }

  /** One step of the platform, or None where the step must wait or does not exist. */
  function Step(s: State, e: Event): Option<State> {
    match e
    case Execute(st) =>
      if LockedByAny(s, st.id) then None else Some(s.(rows := Run(s.rows, st)))
    case Begin(tx, target, write) =>
      if tx in s.guards then None else Some(Advance(s, tx, Guard(target, write, Begun, {})))
    case _ =>
      if e.tx !in s.guards then None
      else
        var g := s.guards[e.tx];
        match e
        case LockSeats(tx) =>
          if g.phase != Begun || (exists id :: id in Seats(s.rows) && LockedByOther(s, tx, id)) then None
          else Some(Advance(s, tx, g.(phase := Locked, seats := Seats(s.rows))))
        case ReadTarget(tx) =>
          if g.phase != Locked then None
          else if g.target !in s.rows then Some(Finish(s, tx))
          else Some(Advance(s, tx, g.(phase := Vetted(HoldsSeat(s.rows[g.target])))))
        case WriteTarget(tx) =>
          if !g.phase.Vetted? || LockedByOther(s, tx, g.target) then None
          else Some(Advance(s, tx, g.(phase := Written(g.phase.wasActiveAdmin))))
        case Judge(tx) =>
          if !g.phase.Written? then None
          else if g.phase.wasActiveAdmin && Seats(Pending(s.rows, g)) == {} then Some(Finish(s, tx))
          else Some(Advance(s, tx, g.(phase := Approved(g.phase.wasActiveAdmin))))
        case Commit(tx) =>
          if !g.phase.Approved? then None else Some(Finish(s.(rows := Pending(s.rows, g)), tx))
        case Fail(tx) => Some(Finish(s, tx))
  }

  /** A call that got its answer in a step, with that answer. */
  datatype Answer = Answer(call: Call, outcome: Outcome)

  function Answered(s: State, e: Event): seq<Answer>
    requires Step(s, e).Some?
  {
    match e
    case Execute(st) => [Answer(Plain(st), StatementOutcome(s.rows, st))]
    case ReadTarget(tx) =>
      var g := s.guards[tx];
      if g.target !in s.rows then [Answer(Guarded(g.target, g.write), UserNotFound)] else []
    case Judge(tx) =>
      var g := s.guards[tx];
      if tx !in Step(s, e).value.guards then [Answer(Guarded(g.target, g.write), LastAdmin)] else []
    case Commit(tx) =>
      var g := s.guards[tx];
      [Answer(Guarded(g.target, g.write), Done)]
    case _ => []
  }

  /** The state after a list of steps; None when one of them was not possible. */
  function Exec(s: State, es: seq<Event>): Option<State>
    decreases |es|
  {
    if es == [] then Some(s)
    else if Step(s, es[0]).None? then None
    else Exec(Step(s, es[0]).value, es[1..])
  }

  /** Every answer of a run, in the order the answers were given. */
  function History(s: State, es: seq<Event>): seq<Answer>
    requires Exec(s, es).Some?
    decreases |es|
  {
    if es == [] then [] else Answered(s, es[0]) + History(Step(s, es[0]).value, es[1..])
  }

  function Calls(h: seq<Answer>): seq<Call>
    ensures |Calls(h)| == |h|
  {
    if h == [] then [] else [h[0].call] + Calls(h[1..])
  }

  /** Demotion, deactivation and deletion of a seat holder outside the guard: the OIDC role sync, the plain setters, Delete. */
  predicate Vacates(s: State, e: Event) {
    e.Execute? && VacatesSeat(s.rows, e.s)
  }

  ghost predicate OnlyGuardsVacate(s: State, es: seq<Event>)
    requires Exec(s, es).Some?
    decreases |es|
  {
    es == [] || (!Vacates(s, es[0]) && OnlyGuardsVacate(Step(s, es[0]).value, es[1..]))
  }

  // ----- the invariant

  /** What holds of an open guard: the seats it locked are still taken, so they keep every other guard out. */
  predicate GuardSound(rows: Table, g: Guard) {
    && (PastLock(g) ==> g.seats != {} && g.seats <= Seats(rows))
    && (!PastLock(g) ==> g.seats == {})
    && ((g.phase.Vetted? || HasWritten(g)) ==> (g.target in g.seats ==> g.phase.wasActiveAdmin))
    && (g.phase.Approved? ==> Seats(Pending(rows, g)) != {})
  }

  ghost predicate AtMostOnePastLock(s: State) {
    forall a, b :: a in s.guards && b in s.guards && PastLock(s.guards[a]) && PastLock(s.guards[b]) ==> a == b
  }

  ghost predicate Inv(s: State) {
    && Seats(s.rows) != {}
    && AtMostOnePastLock(s)
    && forall tx :: tx in s.guards ==> GuardSound(s.rows, s.guards[tx])
  }

  /** A committed statement elsewhere leaves a guard's locked rows, hence its judgement, intact. */
  lemma ExecuteKeepsGuard(rows: Table, st: Statement, g: Guard)
    requires GuardSound(rows, g) && st.id !in LockedRows(g) && !VacatesSeat(rows, st)
    ensures GuardSound(Run(rows, st), g)
  {
  }

  lemma ExecuteKeepsInv(s: State, st: Statement)
    requires Inv(s) && !LockedByAny(s, st.id) && !VacatesSeat(s.rows, st)
    ensures Inv(s.(rows := Run(s.rows, st)))
  {
    SerialKeepsFloor(s.rows, Plain(st));
    forall tx | tx in s.guards
      ensures GuardSound(Run(s.rows, st), s.guards[tx])
    {
      ExecuteKeepsGuard(s.rows, st, s.guards[tx]);
    }
  }

  /** Locking is possible only when nobody else holds a seat: an open guard's seats would all be found locked. */
  lemma LockExcludes(s: State, tx: TxId)
    requires Inv(s) && Step(s, LockSeats(tx)).Some?
    ensures forall other :: other in s.guards && other != tx ==> !PastLock(s.guards[other])
  {
  }

  lemma CommitKeepsInv(s: State, tx: TxId)
    requires Inv(s) && tx in s.guards && s.guards[tx].phase.Approved?
    ensures Inv(Step(s, Commit(tx)).value)
  {
  }

  /** A target that held no seat when it was read cannot be the last one, whatever was committed since: the locked seats are others. */
  lemma JudgeIsSound(s: State, tx: TxId)
    requires Inv(s) && tx in s.guards && s.guards[tx].phase.Written?
    ensures Inv(Step(s, Judge(tx)).value)
  {
  }

  lemma StepKeepsInv(s: State, e: Event)
    requires Inv(s) && Step(s, e).Some? && !Vacates(s, e)
    ensures Inv(Step(s, e).value)
  {
    match e
    case Execute(st) => ExecuteKeepsInv(s, st);
    case LockSeats(tx) => LockExcludes(s, tx);
    case Commit(tx) => CommitKeepsInv(s, tx);
    case Judge(tx) => JudgeIsSound(s, tx);
    case _ =>
  }

  /** In a reachable state a guard is refused exactly when its write would leave no administrator; then nothing was written. */
  lemma RefusedExactly(s: State, tx: TxId)
    requires Inv(s) && tx in s.guards && s.guards[tx].phase.Written?
    ensures var g, s' := s.guards[tx], Step(s, Judge(tx)).value;
            && (tx !in s'.guards <==> Seats(Pending(s.rows, g)) == {})
            && (tx !in s'.guards <==> Seats(s.rows) == {g.target} && g.write != RoleTo(Admin) && g.write != ActiveTo(true))
            && s'.rows == s.rows
  {
    var g := s.guards[tx];
    assert GuardSound(s.rows, g);
    var seat :| seat in g.seats;
    SeatsOfRun(s.rows, SeatStatement(g.target, g.write));
    if g.target in s.rows {
      LastAdminExactly(s.rows, g.target, g.write);
      if g.target !in g.seats {
        assert seat in Seats(Pending(s.rows, g));
      }
    } else {
      assert seat in Seats(Pending(s.rows, g));
    }
  }

  // ----- the interleaved runs are serial

  /** The answer is the one a lone call would get. Only a target deleted after the guard read it makes them differ: the guard then reports success. */
  predicate AgreesWithSerial(t: Table, a: Answer) {
    || Serial(t, a.call).0 == a.outcome
    || (a.call.Guarded? && a.call.id !in t && a.outcome == Done)
  }

  ghost predicate AnsweredSerially(t: Table, h: seq<Answer>)
    decreases |h|
  {
    h == [] || (AgreesWithSerial(t, h[0]) && AnsweredSerially(Serial(t, h[0].call).1, h[1..]))
  }

  /** A step that answers no call changes no committed row; one that answers does to the table what the lone call does. */
  lemma StepIsSerial(s: State, e: Event)
    requires Inv(s) && Step(s, e).Some? && !Vacates(s, e)
    ensures Answered(s, e) == [] ==> Step(s, e).value.rows == s.rows
    ensures Answered(s, e) != [] ==>
              && |Answered(s, e)| == 1
              && Step(s, e).value.rows == Serial(s.rows, Answered(s, e)[0].call).1
              && AgreesWithSerial(s.rows, Answered(s, e)[0])
  {
  }

  lemma {:induction false} RunsAreSerial(s: State, es: seq<Event>)
    requires Inv(s) && Exec(s, es).Some? && OnlyGuardsVacate(s, es)
    ensures Inv(Exec(s, es).value)
    ensures Exec(s, es).value.rows == SerialAll(s.rows, Calls(History(s, es)))
    ensures AnsweredSerially(s.rows, History(s, es))
    decreases |es|
  {
    if es != [] {
      var s' := Step(s, es[0]).value;
      StepKeepsInv(s, es[0]);
      StepIsSerial(s, es[0]);
      RunsAreSerial(s', es[1..]);
      var now, later := Answered(s, es[0]), History(s', es[1..]);
      if now == [] {
        assert now + later == later;
      } else {
        assert (now + later)[1..] == later;
      }
    }
  }

  lemma {:induction false} AnswerAt(t: Table, h: seq<Answer>, k: nat)
    requires AnsweredSerially(t, h) && k < |h|
    ensures var before := SerialAll(t, Calls(h[..k]));
            || Serial(before, h[k].call).0 == h[k].outcome
            || (h[k].call.Guarded? && h[k].call.id !in before && h[k].outcome == Done)
    decreases k
  {
    hide Serial;
    if k > 0 {
      AnswerAt(Serial(t, h[0].call).1, h[1..], k - 1);
      assert h[..k][0] == h[0] && h[..k][1..] == h[1..][..k - 1];
      assert Calls(h[..k])[1..] == Calls(h[..k][1..]);
    } else {
      assert h[..0] == [];
    }
  }

  /** In any run, each answer is the one the call gets on what the calls answered before it leave, alone and in order; or success for a guard whose target is gone. */
  lemma AnswersAreSerial(s: State, es: seq<Event>, k: nat)
    requires Inv(s) && Exec(s, es).Some? && OnlyGuardsVacate(s, es) && k < |History(s, es)|
    ensures var h, before := History(s, es), SerialAll(s.rows, Calls(History(s, es)[..k]));
            || h[k].outcome == Serial(before, h[k].call).0
            || (h[k].call.Guarded? && h[k].call.id !in before && h[k].outcome == Done)
  {
    RunsAreSerial(s, es);
    AnswerAt(s.rows, History(s, es), k);
  }

  /** A platform with an administrator and no transaction open. */
  predicate Start(s: State) {
    s.guards == map[] && Seats(s.rows) != {}
  }

  /** The floor, mutual exclusion, in every state any interleaving reaches. */
  lemma FloorHolds(s: State, es: seq<Event>)
    requires Start(s) && Exec(s, es).Some? && OnlyGuardsVacate(s, es)
    ensures Seats(Exec(s, es).value.rows) != {}
    ensures AtMostOnePastLock(Exec(s, es).value)
  {
    RunsAreSerial(s, es);
  }

  /** In the columns: in every state any interleaving reaches, some account is an administrator and active. */
  lemma AdministratorRemains(s: State, es: seq<Event>)
    requires Start(s) && Exec(s, es).Some? && OnlyGuardsVacate(s, es)
    ensures var rows := Exec(s, es).value.rows;
            exists id :: id in rows && rows[id].role == Admin && rows[id].active
  {
    FloorHolds(s, es);
    SeatsAreAdministrators(Exec(s, es).value.rows);
  }

  function NextStep(tx: TxId, g: Guard): Event {
    match g.phase
    case Begun => LockSeats(tx)
    case Locked => ReadTarget(tx)
    case Vetted(_) => WriteTarget(tx)
    case Written(_) => Judge(tx)
    case Approved(_) => Commit(tx)
  }

  /** A guard past its lock never waits; when there is none, every waiting guard may lock. So some open guard can always proceed. */
  lemma GuardsNeverStall(s: State, tx: TxId)
    requires Inv(s) && tx in s.guards
    requires PastLock(s.guards[tx]) || forall other :: other in s.guards ==> !PastLock(s.guards[other])
    ensures Step(s, NextStep(tx, s.guards[tx])).Some?
  {
  }

  // ----- why the unguarded writers are excepted

  /** In any reachable state one plain demotion, as the OIDC role sync issues it, empties the platform exactly when it hits the only seat. */
  lemma UnguardedVacancyEmpties(s: State, st: Statement)
    requires Inv(s) && Step(s, Execute(st)).Some?
    ensures Seats(Step(s, Execute(st)).value.rows) == {} <==> VacatesSeat(s.rows, st) && Seats(s.rows) == {st.id}
  {
    SeatsOfRun(s.rows, st);
    if VacatesSeat(s.rows, st) && Seats(s.rows) != {st.id} {
      var other :| other in Seats(s.rows) && other != st.id;
      assert other in Seats(Run(s.rows, st));
    } else if !VacatesSeat(s.rows, st) {
      SerialKeepsFloor(s.rows, Plain(st));
    }
  }

  // ----- the one answer that is not the serial one

  /** An answer differs from the lone call's exactly at a commit whose target is gone. */
  lemma AnswerDiffersExactly(s: State, e: Event)
    requires Inv(s) && Step(s, e).Some? && !Vacates(s, e) && Answered(s, e) != []
    ensures Answered(s, e)[0].outcome != Serial(s.rows, Answered(s, e)[0].call).0 <==> e.Commit? && s.guards[e.tx].target !in s.rows
  {
    StepIsSerial(s, e);
    if e.Commit? {
      CommitAnswersDone(s, e.tx);
    }
  }

  lemma CommitAnswersDone(s: State, tx: TxId)
    requires Inv(s) && Step(s, Commit(tx)).Some?
    ensures var g := s.guards[tx];
            && Answered(s, Commit(tx)) == [Answer(Guarded(g.target, g.write), Done)]
            && (Serial(s.rows, Guarded(g.target, g.write)).0 == Done <==> g.target in s.rows)
  {
    assert GuardSound(s.rows, s.guards[tx]);
  }

  /** A guard that has read its target and goes on to its commit while the target is deleted. */
  function DeletedUnderGuard(tx: TxId, target: UserId, write: SeatWrite): seq<Event> {
    [Begin(tx, target, write), LockSeats(tx), ReadTarget(tx), Execute(Delete(target)), WriteTarget(tx), Judge(tx), Commit(tx)]
  }

  predicate Goes(s: State, e: Event, s': State, answers: seq<Answer>) {
    Step(s, e) == Some(s') && Answered(s, e) == answers
  }

  predicate RunsTo(s: State, es: seq<Event>, s': State, h: seq<Answer>) {
    Exec(s, es) == Some(s') && History(s, es) == h
  }

  lemma RunFrom(s: State, es: seq<Event>, k: nat, s': State, now: seq<Answer>, end: State, later: seq<Answer>)
    requires k < |es| && Goes(s, es[k], s', now) && RunsTo(s', es[k + 1..], end, later)
    ensures RunsTo(s, es[k..], end, now + later)
  {
    assert es[k..][1..] == es[k + 1..];
  }

  function Solo(rows: Table, tx: TxId, g: Guard): State {
    State(rows, map[tx := g])
  }

  lemma SoloBegins(rows: Table, tx: TxId, target: UserId, write: SeatWrite)
    ensures Goes(State(rows, map[]), Begin(tx, target, write), Solo(rows, tx, Guard(target, write, Begun, {})), [])
  {
  }

  lemma SoloAdvances(rows: Table, tx: TxId, g: Guard, g': Guard)
    ensures Advance(Solo(rows, tx, g), tx, g') == Solo(rows, tx, g')
  {
    assert map[tx := g][tx := g'] == map[tx := g'];
  }

  lemma SoloLocks(rows: Table, tx: TxId, g: Guard)
    requires g.phase == Begun
    ensures Goes(Solo(rows, tx, g), LockSeats(tx), Solo(rows, tx, g.(phase := Locked, seats := Seats(rows))), [])
  {
    SoloAdvances(rows, tx, g, g.(phase := Locked, seats := Seats(rows)));
  }

  lemma SoloReads(rows: Table, tx: TxId, g: Guard)
    requires g.phase == Locked && g.target in rows && !HoldsSeat(rows[g.target])
    ensures Goes(Solo(rows, tx, g), ReadTarget(tx), Solo(rows, tx, g.(phase := Vetted(false))), [])
  {
    SoloAdvances(rows, tx, g, g.(phase := Vetted(false)));
  }

  lemma DeletesBeside(rows: Table, tx: TxId, g: Guard, id: UserId)
    requires id in rows && id !in LockedRows(g)
    ensures Goes(Solo(rows, tx, g), Execute(Delete(id)), Solo(rows - {id}, tx, g), [Answer(Plain(Delete(id)), Done)])
  {
  }

  lemma SoloWrites(rows: Table, tx: TxId, g: Guard)
    requires g.phase == Vetted(false)
    ensures Goes(Solo(rows, tx, g), WriteTarget(tx), Solo(rows, tx, g.(phase := Written(false))), [])
  {
    SoloAdvances(rows, tx, g, g.(phase := Written(false)));
  }

  lemma SoloPasses(rows: Table, tx: TxId, g: Guard)
    requires g.phase == Written(false)
    ensures Goes(Solo(rows, tx, g), Judge(tx), Solo(rows, tx, g.(phase := Approved(false))), [])
  {
    SoloAdvances(rows, tx, g, g.(phase := Approved(false)));
  }

  lemma SoloCommitsNothing(rows: Table, tx: TxId, g: Guard)
    requires g.phase == Approved(false) && g.target !in rows
    ensures Goes(Solo(rows, tx, g), Commit(tx), State(rows, map[]), [Answer(Guarded(g.target, g.write), Done)])
  {
    assert map[tx := g] - {tx} == map[];
  }

  /** From the read on: the deletion, then the rest of the guard on a row that is gone. */
  lemma DeletedAfterRead(rows: Table, tx: TxId, g: Guard, es: seq<Event>)
    requires g.phase == Vetted(false) && g.target in rows && g.target !in g.seats
    requires es == DeletedUnderGuard(tx, g.target, g.write)
    ensures RunsTo(Solo(rows, tx, g), es[3..], State(rows - {g.target}, map[]),
              [Answer(Plain(Delete(g.target)), Done)] + [Answer(Guarded(g.target, g.write), Done)])
  {
    hide Goes, Exec, History;
    var gone, done := rows - {g.target}, State(rows - {g.target}, map[]);
    var written, approved := g.(phase := Written(false)), g.(phase := Approved(false));
    var last := [Answer(Guarded(g.target, g.write), Done)];
    EndsHere(done, es[7..]);
    SoloCommitsNothing(gone, tx, approved);
    RunFrom(Solo(gone, tx, approved), es, 6, done, last, done, []);
    SoloPasses(gone, tx, written);
    RunFrom(Solo(gone, tx, written), es, 5, Solo(gone, tx, approved), [], done, last + []);
    SoloWrites(gone, tx, g);
    RunFrom(Solo(gone, tx, g), es, 4, Solo(gone, tx, written), [], done, [] + (last + []));
    DeletesBeside(rows, tx, g, g.target);
    RunFrom(Solo(rows, tx, g), es, 3, Solo(gone, tx, g), [Answer(Plain(Delete(g.target)), Done)], done, [] + ([] + (last + [])));
    assert [] + ([] + (last + [])) == last;
  }

  lemma EndsHere(s: State, es: seq<Event>)
    requires es == []
    ensures RunsTo(s, es, s, [])
  {
  }

  /**
   A target that holds no seat is not locked, so it may be deleted under the guard: the
   guard answers `Done`, where the call alone would have answered `UserNotFound`. Neither
   leaves a trace.
   */
  lemma DeletedTargetReportsDone(s: State, tx: TxId, target: UserId, write: SeatWrite)
    requires Start(s) && target in s.rows && !HoldsSeat(s.rows[target])
    ensures var call, gone := Guarded(target, write), s.rows - {target};
            && RunsTo(s, DeletedUnderGuard(tx, target, write), State(gone, map[]), [Answer(Plain(Delete(target)), Done)] + [Answer(call, Done)])
            && Serial(gone, call) == (UserNotFound, gone)
  {
    var es := DeletedUnderGuard(tx, target, write);
    var g := Guard(target, write, Begun, {});
    var locked := g.(phase := Locked, seats := Seats(s.rows));
    var done := State(s.rows - {target}, map[]);
    var answers := [Answer(Plain(Delete(target)), Done)] + [Answer(Guarded(target, write), Done)];
    hide Goes, Exec, History, RunsTo;
    DeletedAfterRead(s.rows, tx, locked.(phase := Vetted(false)), es);
    SoloReads(s.rows, tx, locked);
    RunFrom(Solo(s.rows, tx, locked), es, 2, Solo(s.rows, tx, locked.(phase := Vetted(false))), [], done, answers);
    SoloLocks(s.rows, tx, g);
    RunFrom(Solo(s.rows, tx, g), es, 1, Solo(s.rows, tx, locked), [], done, [] + answers);
    SoloBegins(s.rows, tx, target, write);
    assert s == State(s.rows, map[]) && es[0..] == es;
    RunFrom(s, es, 0, Solo(s.rows, tx, g), [], done, [] + ([] + answers));
    assert [] + ([] + ([] + answers)) == answers;
  }
}
