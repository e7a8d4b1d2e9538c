/**
 * Every run of paid calls, with crashes: internal/core/ai/dispatch.go, internal/core/ai/service.go and the
 * boot order of cmd/controlcenter/main.go.
 *
 * Each database transaction is one atomic step. Any number of calls may be in flight; a call may return
 * early at any point, and the process may die between any two transactions, including in
 * the middle of the orphan sweep or of the recovery that follows it.
 */
module CallRecovery {
  import opened Common
  import opened PaidCalls
  import L = Ledger
  import P = Pricing

  // ---- Stored rows and the transactions on them -------------------------------------------

  datatype CallRow = CallRow(
    plugin: string, reservationId: string, status: CallStatus, errClass: Failure,
    reserved: int64, settled: int64, finalized: bool)

  datatype AttemptStatus = Dispatching | AttemptSucceeded | AttemptFailed

  datatype Billing = NotKnown | Unbilled | Billed | Subscription | AmbiguousBill

  datatype AttemptRow = AttemptRow(status: AttemptStatus, errClass: Failure, billing: Billing, cost: int64)

  datatype Db = Db(ledger: L.Ledger, calls: map<string, CallRow>, attempts: map<(string, nat), AttemptRow>)

  datatype Admission = Admitted(db: Db) | Rejected | TxFailed

  /** The reserve transaction of execute. A budget rejection commits, but leaves no call row. */
  function ReserveTx(db: Db, b: L.Budgets, enabled: bool, callId: string, resId: string, plugin: string, max: int64, now: L.Periods): Admission {
    if callId in db.calls then TxFailed
    else
      match L.Reserve(db.ledger, b, enabled, resId, plugin, max, now)
      case Err(BudgetExceeded) => Rejected
      case Err(_) => TxFailed
      case Ok(l) => Admitted(db.(
        ledger := l, calls := db.calls[callId := CallRow(plugin, resId, CallPending, NoFailure, max, 0, false)]))
  }

  function MarkTx(db: Db, callId: string, ordinal: nat): Option<Db> {
    if (callId, ordinal) in db.attempts then None
    else Some(db.(attempts := db.attempts[(callId, ordinal) := AttemptRow(Dispatching, NoFailure, NotKnown, 0)]))
  }

  function RowOf(o: Outcome, unknownBill: bool): AttemptRow {
    AttemptRow(
      if o.errClass != NoFailure then AttemptFailed else AttemptSucceeded, o.errClass,
      if unknownBill && o.errClass != NoFailure then AmbiguousBill
      else if !o.metered then Subscription
      else if o.billed then Billed else Unbilled,
      o.cost)
  }

  /** What a settled attempt row says of its outcome. */
  predicate RowIs(row: AttemptRow, o: Outcome, unknownBill: bool) {
    var failed := o.errClass != NoFailure;
    && row.errClass == o.errClass && row.cost == o.cost
    && (failed ==> row.status == AttemptFailed) && (!failed ==> row.status == AttemptSucceeded)
    && (unknownBill && failed ==> row.billing == AmbiguousBill)
    && (!(unknownBill && failed) && !o.metered ==> row.billing == Subscription)
    && (!(unknownBill && failed) && o.metered ==> row.billing == if o.billed then Billed else Unbilled)
  }

  /** Settlement rewrites exactly the rows of the call's recorded attempts, each to what its outcome says. */
  lemma OutcomesRecorded(attempts: map<(string, nat), AttemptRow>, callId: string, rep: Report)
    ensures var after := RecordOutcomes(attempts, callId, rep);
      && after.Keys == attempts.Keys
      && forall k <- attempts ::
           if k.0 == callId && 1 <= k.1 <= |rep.outcomes| then RowIs(after[k], rep.outcomes[k.1 - 1], rep.unknownBill)
           else after[k] == attempts[k]
  {
  }

  /** Recovery ends exactly the call's dispatching rows, as failures with an unknown bill. */
  lemma AttemptsEnded(attempts: map<(string, nat), AttemptRow>, callId: string)
    ensures var after := EndAttempts(attempts, callId);
      && after.Keys == attempts.Keys
      && forall k <- attempts ::
           if k.0 == callId && attempts[k].status == Dispatching
           then after[k] == AttemptRow(AttemptFailed, attempts[k].errClass, AmbiguousBill, attempts[k].cost)
           else after[k] == attempts[k]
  {
  }

  /** Outcome k is the attempt with ordinal k + 1. */
  function RecordOutcomes(attempts: map<(string, nat), AttemptRow>, callId: string, rep: Report): map<(string, nat), AttemptRow> {
    map k | k in attempts ::
      if k.0 == callId && 1 <= k.1 <= |rep.outcomes| then RowOf(rep.outcomes[k.1 - 1], rep.unknownBill) else attempts[k]
  }

  /** The settlement transaction. */
  function SettleTx(db: Db, callId: string, resId: string, rep: Report): Option<Db> {
    var attempts := RecordOutcomes(db.attempts, callId, rep);
    var taken := if rep.release then L.Release(db.ledger, resId) else L.Settle(db.ledger, resId, rep.settled);
    if taken.Err? then None
    else if callId !in db.calls then Some(db.(ledger := taken.value, attempts := attempts))
    else
      var row := db.calls[callId].(status := rep.status, errClass := rep.errClass, settled := Amount(rep), finalized := true);
      Some(Db(taken.value, db.calls[callId := row], attempts))
  }

  function EndAttempts(attempts: map<(string, nat), AttemptRow>, callId: string): map<(string, nat), AttemptRow> {
    map k | k in attempts ::
      if k.0 == callId && attempts[k].status.Dispatching?
      then attempts[k].(status := AttemptFailed, billing := AmbiguousBill) else attempts[k]
  }

  /** finalizeConservative: charge the maximum, tolerating a reservation the sweep already took. */
  function FinalizeTx(db: Db, callId: string, resId: string, max: int64): Option<Db> {
    var calls := if callId in db.calls && !db.calls[callId].finalized
      then db.calls[callId := db.calls[callId].(status := CallFailed, errClass := Recovered, settled := max, finalized := true)]
      else db.calls;
    var attempts := EndAttempts(db.attempts, callId);
    if resId == "" then Some(Db(db.ledger, calls, attempts))
    else
      match L.Settle(db.ledger, resId, max)
      case Ok(l) => Some(Db(l, calls, attempts))
      case Err(UnknownReservation) => Some(Db(db.ledger, calls, attempts))
      case Err(_) => None
  }

  /**
   * The call is finalized as failed at the maximum, unless it was finalized before; its reservation is charged the
   * maximum if it is still open, and otherwise the ledger stays. Only a negative maximum can fail.
   */
  lemma FinalizeExact(db: Db, callId: string, resId: string, max: int64)
    requires max >= 0
    ensures var r := FinalizeTx(db, callId, resId, max); var open := resId != "" && exists x <- db.ledger.reservations :: x.id == resId;
      && r.Some? && r.value.attempts == EndAttempts(db.attempts, callId)
      && (open ==> L.Settle(db.ledger, resId, max) == Ok(r.value.ledger))
      && (!open ==> r.value.ledger == db.ledger)
      && r.value.calls.Keys == db.calls.Keys
      && forall c <- db.calls ::
           if c == callId && !db.calls[c].finalized then
             && r.value.calls[c].status == CallFailed && r.value.calls[c].errClass == Recovered
             && r.value.calls[c].settled == max && r.value.calls[c].finalized
           else r.value.calls[c] == db.calls[c]
  {
    L.TakeIff(db.ledger, resId, max);
  }

  // ---- The system ---------------------------------------------------------------------------

  /** A call between its reservation and its settlement. */
  datatype Flight = Flight(resId: string, max: int64, dispatched: nat)

  datatype Phase = Sweeping | Recovering | Serving

  datatype System = System(db: Db, live: map<string, Flight>, phase: Phase)

  datatype Step =
    | Admit(budgets: L.Budgets, enabled: bool, callId: string, resId: string, plugin: string, max: int64, now: L.Periods)
    | Dispatch(callId: string)
    | Finish(callId: string, report: Report)
    | Abandon(callId: string)
    | Crash
    | SweepOne
    | SweepDone
    | RecoverOne(callId: string)
    | RecoverDone

  const FIRST_BOOT := System(Db(L.EMPTY, map[], map[]), map[], Sweeping)

  predicate AllFinalized(db: Db) { forall c <- db.calls :: db.calls[c].finalized }

  /** One step, or None when it is not enabled. Reservation ids are random and never repeat. */
  function Apply(s: System, step: Step): Option<System> {
    match step
    case Admit(b, enabled, callId, resId, plugin, max, now) =>
      if !s.phase.Serving? || resId == "" || !L.Fresh(s.db.ledger, resId) then None
      else
        var r := ReserveTx(s.db, b, enabled, callId, resId, plugin, max, now);
        if !r.Admitted? then Some(s)
        else Some(s.(db := r.db, live := s.live[callId := Flight(resId, max, 0)]))
    case Dispatch(callId) =>
      if callId !in s.live then None
      else
        var f := s.live[callId];
        var db := MarkTx(s.db, callId, f.dispatched + 1);
        if db.None? then None
        else Some(s.(db := db.value, live := s.live[callId := f.(dispatched := f.dispatched + 1)]))
    case Finish(callId, rep) =>
      if callId !in s.live || |rep.outcomes| != s.live[callId].dispatched then None
      else
        var db := SettleTx(s.db, callId, s.live[callId].resId, rep);
        if db.None? then None else Some(s.(db := db.value, live := s.live - {callId}))
    case Abandon(callId) => if callId in s.live then Some(s.(live := s.live - {callId})) else None
    case Crash => Some(System(s.db, map[], Sweeping))
    case SweepOne =>
      if !s.phase.Sweeping? || s.db.ledger.reservations == [] then None
      else
        var r := s.db.ledger.reservations[0];
        var l := L.Settle(s.db.ledger, r.id, r.maximum);
        if l.Err? then None else Some(s.(db := s.db.(ledger := l.value)))
    case SweepDone =>
      if s.phase.Sweeping? && s.db.ledger.reservations == [] then Some(s.(phase := Recovering)) else None
    case RecoverOne(callId) =>
      if !s.phase.Recovering? || callId !in s.db.calls || s.db.calls[callId].finalized then None
      else
        var row := s.db.calls[callId];
        var db := FinalizeTx(s.db, callId, row.reservationId, row.reserved);
        if db.None? then None else Some(s.(db := db.value))
    case RecoverDone =>
      if s.phase.Recovering? && AllFinalized(s.db) then Some(s.(phase := Serving)) else None
  }

  function Run(s: System, steps: seq<Step>): Option<System> {
    if steps == [] then Some(s)
    else
      var t := Run(s, steps[..|steps| - 1]);
      if t.None? then None else Apply(t.value, steps[|steps| - 1])
  }

  // ---- The invariant ------------------------------------------------------------------------

  /**
   * What the ledger says about one call, phase by phase. Only a crash can leave an unfinalized call whose
   * reservation the sweep has already taken, and then it took the reserved maximum.
   */
  predicate Accounted(l: L.Ledger, phase: Phase, row: CallRow) {
    && row.reserved >= 0 && row.reservationId != ""
    && match L.LifeOf(l, row.reservationId)
       case Unused => false
       case Open(p, m) => !row.finalized && p == row.plugin && m == row.reserved && !phase.Recovering?
       case Taken(p, a) => p == row.plugin && (if row.finalized then a == row.settled else a == row.reserved && !phase.Serving?)
  }

  predicate CallsAccounted(s: System) {
    forall c <- s.db.calls :: Accounted(s.db.ledger, s.phase, s.db.calls[c])
  }

  function ReservationIds(calls: map<string, CallRow>): set<string> {
    set c | c in calls :: calls[c].reservationId
  }

  /** Calls and reservation ids correspond one to one. */
  ghost predicate OneToOne(db: Db) {
    && (forall c, d :: c in db.calls && d in db.calls && c != d ==> db.calls[c].reservationId != db.calls[d].reservationId)
    && (forall id :: !L.LifeOf(db.ledger, id).Unused? ==> id in ReservationIds(db.calls))
  }

  predicate InFlight(s: System, c: string)
    requires c in s.live
  {
    && c in s.db.calls && !s.db.calls[c].finalized
    && s.db.calls[c].reservationId == s.live[c].resId && s.db.calls[c].reserved == s.live[c].max
  }

  predicate FlightsOpen(s: System) {
    && (s.live != map[] ==> s.phase.Serving?)
    && (forall c <- s.live :: InFlight(s, c))
  }

  /** An attempt row belongs to a known call and stops dispatching no later than its call does. */
  predicate RowOk(s: System, k: (string, nat))
    requires k in s.db.attempts
  {
    && k.0 in s.db.calls && k.1 >= 1
    && (s.db.calls[k.0].finalized ==> !s.db.attempts[k].status.Dispatching?)
    && (k.0 in s.live ==> k.1 <= s.live[k.0].dispatched)
  }

  predicate RowsMatch(s: System) { forall k <- s.db.attempts :: RowOk(s, k) }

  ghost predicate LedgerOk(s: System) {
    && L.Distinct(s.db.ledger) && L.Balanced(s.db.ledger) && L.NonNegative(s.db.ledger)
    && (s.phase.Recovering? ==> s.db.ledger.reservations == [])
  }

  ghost predicate Inv(s: System) {
    LedgerOk(s) && CallsAccounted(s) && OneToOne(s.db) && FlightsOpen(s) && RowsMatch(s)
  }

  // ---- Every step keeps it -------------------------------------------------------------------

  /** What an accepted reservation changes. */
  lemma AdmitShape(s: System, step: Step)
    requires Inv(s) && step.Admit? && Apply(s, step).Some? && Apply(s, step).value != s
    ensures var s' := Apply(s, step).value; var r := L.Reservation(step.resId, step.plugin, step.max, step.now);
      var row := CallRow(step.plugin, step.resId, CallPending, NoFailure, step.max, 0, false);
      && step.callId !in s.db.calls && step.resId != "" && step.max >= 0 && s.phase.Serving?
      && L.LifeOf(s.db.ledger, r.id).Unused?
      && L.LifeOf(s'.db.ledger, r.id) == L.Open(r.plugin, r.maximum)
      && LifeChangesOnly(s.db.ledger, s'.db.ledger, r.id)
      && LedgerOk(s')
      && s' == System(Db(s'.db.ledger, s.db.calls[step.callId := row], s.db.attempts),
                      s.live[step.callId := Flight(step.resId, step.max, 0)], s.phase)
  {
    var s' := Apply(s, step).value;
    L.ReserveOpensOneId(s.db.ledger, s'.db.ledger, L.Reservation(step.resId, step.plugin, step.max, step.now));
  }

  lemma AdmitKeepsInv(s: System, step: Step)
    requires Inv(s) && step.Admit? && Apply(s, step).Some?
    ensures Inv(Apply(s, step).value)
  {
    var s' := Apply(s, step).value;
    if s' != s {
      AdmitShape(s, step);
      AdmitAccounts(s, s', step.callId);
      AdmitRows(s, s', step.callId);
    }
  }

  /** Whatever the ledger says of the other reservations, it still says. */
  ghost predicate LifeChangesOnly(l: L.Ledger, l': L.Ledger, id: string) {
    forall x | x != id :: L.LifeOf(l', x) == L.LifeOf(l, x)
  }

  lemma AdmitAccounts(s: System, s': System, c: string)
    requires CallsAccounted(s) && OneToOne(s.db) && c !in s.db.calls && c in s'.db.calls && s'.phase == s.phase
    requires s'.db.calls == s.db.calls[c := s'.db.calls[c]] && Accounted(s'.db.ledger, s'.phase, s'.db.calls[c])
    requires L.LifeOf(s.db.ledger, s'.db.calls[c].reservationId).Unused?
    requires LifeChangesOnly(s.db.ledger, s'.db.ledger, s'.db.calls[c].reservationId)
    ensures CallsAccounted(s') && OneToOne(s'.db)
  {
    forall d <- s.db.calls
      ensures s.db.calls[d].reservationId != s'.db.calls[c].reservationId && Accounted(s'.db.ledger, s'.phase, s.db.calls[d])
    {
      assert Accounted(s.db.ledger, s.phase, s.db.calls[d]);
    }
    IdsAfterInsert(s.db.calls, c, s'.db.calls[c]);
  }

  lemma AdmitRows(s: System, s': System, c: string)
    requires FlightsOpen(s) && RowsMatch(s) && c !in s.db.calls && c in s'.db.calls && c in s'.live
    requires s'.db.calls == s.db.calls[c := s'.db.calls[c]] && s'.live == s.live[c := s'.live[c]]
    requires s'.db.attempts == s.db.attempts && s'.phase == s.phase == Serving && InFlight(s', c)
    ensures FlightsOpen(s') && RowsMatch(s')
  {
    forall d <- s'.live ensures InFlight(s', d) {
      if d != c { assert InFlight(s, d); }
    }
    forall k <- s'.db.attempts ensures RowOk(s', k) { assert RowOk(s, k); }
  }

  lemma IdsAfterInsert(calls: map<string, CallRow>, c: string, row: CallRow)
    requires c !in calls || calls[c].reservationId == row.reservationId
    ensures ReservationIds(calls[c := row]) == ReservationIds(calls) + {row.reservationId}
  {
    var calls' := calls[c := row];
    assert calls'[c].reservationId == row.reservationId;
    forall id | id in ReservationIds(calls) ensures id in ReservationIds(calls') {
      var d :| d in calls && calls[d].reservationId == id;
      assert d in calls' && calls'[d].reservationId == id;
    }
  }

  lemma DispatchKeepsInv(s: System, step: Step)
    requires Inv(s) && step.Dispatch? && Apply(s, step).Some?
    ensures Inv(Apply(s, step).value)
  {
    var s' := Apply(s, step).value;
    assert InFlight(s, step.callId);
    forall c | c in s'.live ensures InFlight(s', c) { assert InFlight(s, c); }
    forall k | k in s'.db.attempts ensures RowOk(s', k) {
      if k in s.db.attempts { assert RowOk(s, k); }
    }
  }

  /** What every charging step shares: one reservation is taken, and only its own call is rewritten. */
  lemma TakeKeepsOthers(db: Db, db': Db, phase: Phase, own: string, amount: nat)
    requires L.Distinct(db.ledger) && OneToOne(db) && own in db.calls
    requires forall c <- db.calls :: Accounted(db.ledger, phase, db.calls[c])
    requires amount < TWO63
    requires L.Settle(db.ledger, db.calls[own].reservationId, amount) == Ok(db'.ledger)
      || (amount == 0 && L.Release(db.ledger, db.calls[own].reservationId) == Ok(db'.ledger))
    requires own in db'.calls && db'.calls == db.calls[own := db'.calls[own]]
    requires db'.calls[own].reservationId == db.calls[own].reservationId
    ensures L.Distinct(db'.ledger) && OneToOne(db')
    ensures L.LifeOf(db'.ledger, db'.calls[own].reservationId) == L.Taken(db.calls[own].plugin, amount)
    ensures forall c <- db.calls :: c != own ==> Accounted(db'.ledger, phase, db'.calls[c])
    ensures L.NonNegative(db.ledger) ==> L.NonNegative(db'.ledger)
  {
    var id := db.calls[own].reservationId;
    assert L.LifeOf(db.ledger, id).Open? ==> L.LifeOf(db.ledger, id).plugin == db.calls[own].plugin by {
      assert Accounted(db.ledger, phase, db.calls[own]);
    }
    L.TakeMovesOneId(db.ledger, db'.ledger, id, amount);
    SameIds(db, db', own);
    OneToOneStays(db, db', own);
    OthersAccounted(db, db', phase, own);
  }

  lemma OthersAccounted(db: Db, db': Db, phase: Phase, own: string)
    requires OneToOne(db) && own in db.calls && forall c <- db.calls :: Accounted(db.ledger, phase, db.calls[c])
    requires LifeChangesOnly(db.ledger, db'.ledger, db.calls[own].reservationId)
    requires own in db'.calls && db'.calls == db.calls[own := db'.calls[own]]
    ensures forall c <- db.calls :: c != own ==> Accounted(db'.ledger, phase, db'.calls[c])
  {
    forall c <- db.calls | c != own ensures Accounted(db'.ledger, phase, db'.calls[c]) {
      assert Accounted(db.ledger, phase, db.calls[c]);
    }
  }

  lemma OneToOneStays(db: Db, db': Db, own: string)
    requires OneToOne(db) && own in db.calls && db'.calls.Keys == db.calls.Keys
    requires ReservationIds(db'.calls) == ReservationIds(db.calls)
    requires forall c <- db.calls :: db'.calls[c].reservationId == db.calls[c].reservationId
    requires LifeChangesOnly(db.ledger, db'.ledger, db.calls[own].reservationId)
    ensures OneToOne(db')
  {
    assert db.calls[own].reservationId in ReservationIds(db.calls);
  }

  lemma SameIds(db: Db, db': Db, own: string)
    requires own in db.calls && own in db'.calls && db'.calls == db.calls[own := db'.calls[own]]
    requires db'.calls[own].reservationId == db.calls[own].reservationId
    ensures ReservationIds(db'.calls) == ReservationIds(db.calls)
    ensures forall c <- db.calls :: c in db'.calls && db'.calls[c].reservationId == db.calls[c].reservationId
  {
    IdsAfterInsert(db.calls, own, db'.calls[own]);
    assert db.calls[own].reservationId in ReservationIds(db.calls);
  }

  lemma FinishKeepsInv(s: System, step: Step)
    requires Inv(s) && step.Finish? && Apply(s, step).Some?
    ensures Inv(Apply(s, step).value)
  {
    var s', own := Apply(s, step).value, step.callId;
    FinishShape(s, step);
    FinishBalances(s, step);
    TakeKeepsOthers(s.db, s'.db, s.phase, own, Amount(step.report));
    FinishFlights(s, s', own);
    FinishEndsRows(s, step);
  }

  /** What settling a call changes. */
  lemma FinishShape(s: System, step: Step)
    requires Inv(s) && step.Finish? && Apply(s, step).Some?
    ensures var s' := Apply(s, step).value; var own, rep := step.callId, step.report;
      && own in s.live && |rep.outcomes| == s.live[own].dispatched
      && own in s.db.calls && s.db.calls[own].reservationId == s.live[own].resId && own in s'.db.calls
      && s' == System(Db(s'.db.ledger, s.db.calls[own := s'.db.calls[own]], RecordOutcomes(s.db.attempts, own, rep)),
                      s.live - {own}, s.phase)
      && s'.db.calls[own] == s.db.calls[own].(status := rep.status, errClass := rep.errClass, settled := Amount(rep), finalized := true)
  {
    assert InFlight(s, step.callId);
  }

  lemma FinishBalances(s: System, step: Step)
    requires Inv(s) && step.Finish? && Apply(s, step).Some?
    ensures var l' := Apply(s, step).value.db.ledger; var id := s.live[step.callId].resId;
      && Amount(step.report) >= 0
      && (L.Settle(s.db.ledger, id, Amount(step.report)) == Ok(l')
          || (Amount(step.report) == 0 && L.Release(s.db.ledger, id) == Ok(l')))
      && L.Balanced(l')
  {
    var id := s.live[step.callId].resId;
    if step.report.release { L.ReleaseKeepsBalance(s.db.ledger, id); }
    else { L.SettleKeepsBalance(s.db.ledger, id, step.report.settled); }
  }

  lemma FinishFlights(s: System, s': System, own: string)
    requires FlightsOpen(s) && own in s.db.calls && own in s'.db.calls && s'.phase == s.phase
    requires s'.db.calls == s.db.calls[own := s'.db.calls[own]] && s'.live == s.live - {own}
    ensures FlightsOpen(s')
  {
    forall c <- s'.live ensures InFlight(s', c) { assert InFlight(s, c); }
  }

  /** Settlement leaves no attempt of its call dispatching, because every marked ordinal has an outcome. */
  lemma FinishEndsRows(s: System, step: Step)
    requires Inv(s) && step.Finish? && Apply(s, step).Some?
    ensures RowsMatch(Apply(s, step).value)
    ensures forall k <- Apply(s, step).value.db.attempts | k.0 == step.callId ::
      !Apply(s, step).value.db.attempts[k].status.Dispatching?
  {
    FinishShape(s, step);
    RowsEnd(s, Apply(s, step).value, step.callId);
  }

  /** Rows of a call stop dispatching with it, and the other calls' rows stay. */
  lemma RowsEnd(s: System, s': System, own: string)
    requires RowsMatch(s) && own in s.db.calls && own in s'.db.calls && own !in s'.live
    requires s'.db.calls == s.db.calls[own := s'.db.calls[own]] && s'.live.Items <= s.live.Items
    requires s'.db.attempts.Keys == s.db.attempts.Keys
    requires forall k <- s.db.attempts | k.0 != own :: s'.db.attempts[k] == s.db.attempts[k]
    requires forall k <- s.db.attempts | k.0 == own && RowOk(s, k) :: !s'.db.attempts[k].status.Dispatching?
    ensures RowsMatch(s')
    ensures forall k <- s'.db.attempts | k.0 == own :: !s'.db.attempts[k].status.Dispatching?
  {
    forall k <- s'.db.attempts
      ensures RowOk(s', k) && (k.0 == own ==> !s'.db.attempts[k].status.Dispatching?)
    {
      assert RowOk(s, k);
      if k.0 in s'.live { assert (k.0, s'.live[k.0]) in s'.live.Items; }
    }
  }

  lemma SweepKeepsInv(s: System, step: Step)
    requires Inv(s) && step.SweepOne? && Apply(s, step).Some?
    ensures Inv(Apply(s, step).value)
  {
    var s' := Apply(s, step).value;
    var own := SweepOwner(s);
    var r := s.db.ledger.reservations[0];
    assert s' == s.(db := s.db.(ledger := s'.db.ledger)) && L.Settle(s.db.ledger, r.id, r.maximum) == Ok(s'.db.ledger);
    assert s'.db.calls == s.db.calls[own := s.db.calls[own]];
    TakeKeepsOthers(s.db, s'.db, s.phase, own, r.maximum);
    L.SettleKeepsBalance(s.db.ledger, r.id, r.maximum);
    RowsStay(s, s');
  }

  /** The first reservation belongs to a call that is accounted for by it. */
  lemma SweepOwner(s: System) returns (own: string)
    requires Inv(s) && s.db.ledger.reservations != []
    ensures var r := s.db.ledger.reservations[0];
      && own in s.db.calls && s.db.calls[own].reservationId == r.id && r.maximum >= 0
      && !s.db.calls[own].finalized && s.db.calls[own].reserved == r.maximum && s.db.calls[own].plugin == r.plugin
  {
    var r := s.db.ledger.reservations[0];
    assert L.IndexOf(s.db.ledger.reservations, r.id) == 0;
    assert r.id in ReservationIds(s.db.calls);
    own :| own in s.db.calls && s.db.calls[own].reservationId == r.id;
    assert Accounted(s.db.ledger, s.phase, s.db.calls[own]);
  }

  lemma RowsStay(s: System, s': System)
    requires RowsMatch(s) && FlightsOpen(s)
    requires s'.db.calls == s.db.calls && s'.db.attempts == s.db.attempts && s'.live == s.live && s'.phase == s.phase
    ensures RowsMatch(s') && FlightsOpen(s')
  {
    forall k <- s'.db.attempts ensures RowOk(s', k) { assert RowOk(s, k); }
    forall c <- s'.live ensures InFlight(s', c) { assert InFlight(s, c); }
  }

  lemma RecoverKeepsInv(s: System, step: Step)
    requires Inv(s) && step.RecoverOne? && Apply(s, step).Some?
    ensures Inv(Apply(s, step).value)
  {
    var s' := Apply(s, step).value;
    RecoverShape(s, step);
    RecoverAccounts(s, s', step.callId);
    RowsEnd(s, s', step.callId);
  }

  /** What recovering a call changes; its reservation is gone already. */
  lemma RecoverShape(s: System, step: Step)
    requires Inv(s) && step.RecoverOne? && Apply(s, step).Some?
    ensures var s', own := Apply(s, step).value, step.callId;
      && s.phase.Recovering? && s.live == map[] && own in s.db.calls && !s.db.calls[own].finalized && own in s'.db.calls
      && s' == System(Db(s.db.ledger, s.db.calls[own := s'.db.calls[own]], EndAttempts(s.db.attempts, own)), map[], s.phase)
      && s'.db.calls[own] == s.db.calls[own].(
           status := CallFailed, errClass := Recovered, settled := s.db.calls[own].reserved, finalized := true)
  {
    assert Accounted(s.db.ledger, s.phase, s.db.calls[step.callId]);
  }

  lemma RecoverAccounts(s: System, s': System, own: string)
    requires CallsAccounted(s) && OneToOne(s.db) && own in s.db.calls && own in s'.db.calls && s.phase.Recovering?
    requires s'.db.calls == s.db.calls[own := s'.db.calls[own]] && s'.db.ledger == s.db.ledger && s'.phase == s.phase
    requires !s.db.calls[own].finalized && s'.db.calls[own] == s.db.calls[own].(
      status := CallFailed, errClass := Recovered, settled := s.db.calls[own].reserved, finalized := true)
    ensures CallsAccounted(s') && OneToOne(s'.db)
  {
    forall c <- s'.db.calls ensures Accounted(s'.db.ledger, s'.phase, s'.db.calls[c]) {
      assert Accounted(s.db.ledger, s.phase, s.db.calls[c]);
    }
    SameIds(s.db, s'.db, own);
    OneToOneStays(s.db, s'.db, own);
  }

  lemma QuietKeepsInv(s: System, step: Step)
    requires Inv(s) && Apply(s, step).Some?
    requires step.Abandon? || step.Crash? || step.SweepDone? || step.RecoverDone?
    ensures Inv(Apply(s, step).value)
  {
    var s' := Apply(s, step).value;
    forall c | c in s'.db.calls ensures Accounted(s'.db.ledger, s'.phase, s'.db.calls[c]) {
      assert Accounted(s.db.ledger, s.phase, s.db.calls[c]);
    }
    forall c | c in s'.live ensures InFlight(s', c) { assert InFlight(s, c); }
    forall k | k in s'.db.attempts ensures RowOk(s', k) { assert RowOk(s, k); }
  }

  lemma StepKeepsInv(s: System, step: Step)
    requires Inv(s) && Apply(s, step).Some?
    ensures Inv(Apply(s, step).value)
  {
    match step
    case Admit(_, _, _, _, _, _, _) => AdmitKeepsInv(s, step);
    case Dispatch(_) => DispatchKeepsInv(s, step);
    case Finish(_, _) => FinishKeepsInv(s, step);
    case SweepOne => SweepKeepsInv(s, step);
    case RecoverOne(_) => RecoverKeepsInv(s, step);
    case _ => QuietKeepsInv(s, step);
  }

  lemma {:induction false} RunKeepsInv(s: System, steps: seq<Step>)
    requires Inv(s) && Run(s, steps).Some?
    ensures Inv(Run(s, steps).value)
    decreases |steps|
  {
    if steps != [] {
      RunKeepsInv(s, steps[..|steps| - 1]);
      StepKeepsInv(Run(s, steps[..|steps| - 1]).value, steps[|steps| - 1]);
    }
  }

  // ---- What boot recovery guarantees -----------------------------------------------------------

  lemma FirstBootIsSound()
    ensures Inv(FIRST_BOOT)
  {
  }

  /**
   * After any history of calls, early returns, crashes and half-finished boots, a boot that completes
   * leaves every call finalized, no reservation open and no attempt dispatching. Each call's
   * reservation was charged exactly once, for the amount its row records, every charge
   * belongs to a call, and the per-period rollups add up to exactly those charges.
   */
  lemma BootRecoversEverything(steps: seq<Step>)
    requires Run(FIRST_BOOT, steps + [RecoverDone]).Some?
    ensures var db := Run(FIRST_BOOT, steps + [RecoverDone]).value.db;
      && db.ledger.reservations == []
      && (forall c <- db.calls :: db.calls[c].finalized
            && L.ChargedOnce(db.ledger, db.calls[c].reservationId, db.calls[c].plugin, db.calls[c].settled))
      && (forall i :: 0 <= i < |db.ledger.history| ==> db.ledger.history[i].id in ReservationIds(db.calls))
      && (forall k <- db.attempts :: !db.attempts[k].status.Dispatching?)
      && L.Balanced(db.ledger)
  {
    FirstBootIsSound();
    assert (steps + [RecoverDone])[..|steps|] == steps;
    RunKeepsInv(FIRST_BOOT, steps);
    RunKeepsInv(FIRST_BOOT, steps + [RecoverDone]);
    var s := Run(FIRST_BOOT, steps + [RecoverDone]).value;
    forall c | c in s.db.calls
      ensures L.ChargedOnce(s.db.ledger, s.db.calls[c].reservationId, s.db.calls[c].plugin, s.db.calls[c].settled)
    {
      assert Accounted(s.db.ledger, s.phase, s.db.calls[c]);
      L.TakenIsChargedOnce(s.db.ledger, s.db.calls[c].reservationId);
    }
    forall i | 0 <= i < |s.db.ledger.history| ensures s.db.ledger.history[i].id in ReservationIds(s.db.calls) {
      assert !L.LifeOf(s.db.ledger, s.db.ledger.history[i].id).Unused?;
    }
    forall k | k in s.db.attempts ensures !s.db.attempts[k].status.Dispatching? { assert RowOk(s, k); }
  }

  /** At every moment, not only after a boot, a finalized call was charged once for what it records. */
  lemma FinalizedIsCharged(steps: seq<Step>, c: string)
    requires Run(FIRST_BOOT, steps).Some?
    requires c in Run(FIRST_BOOT, steps).value.db.calls && Run(FIRST_BOOT, steps).value.db.calls[c].finalized
    ensures var db := Run(FIRST_BOOT, steps).value.db;
      L.ChargedOnce(db.ledger, db.calls[c].reservationId, db.calls[c].plugin, db.calls[c].settled)
  {
    FirstBootIsSound();
    RunKeepsInv(FIRST_BOOT, steps);
    var s := Run(FIRST_BOOT, steps).value;
    assert Accounted(s.db.ledger, s.phase, s.db.calls[c]);
    L.TakenIsChargedOnce(s.db.ledger, s.db.calls[c].reservationId);
  }

  /** A finalized row is never rewritten: later crashes and recoveries pass it by. */
  lemma {:induction false} FinalizedForever(s: System, steps: seq<Step>, c: string)
    requires Inv(s) && Run(s, steps).Some? && c in s.db.calls && s.db.calls[c].finalized
    ensures c in Run(s, steps).value.db.calls && Run(s, steps).value.db.calls[c] == s.db.calls[c]
    decreases |steps|
  {
    if steps != [] {
      var before := steps[..|steps| - 1];
      FinalizedForever(s, before, c);
      RunKeepsInv(s, before);
      FinalizedOneStep(Run(s, before).value, steps[|steps| - 1], c);
    }
  }

  lemma FinalizedOneStep(s: System, step: Step, c: string)
    requires Inv(s) && Apply(s, step).Some? && c in s.db.calls && s.db.calls[c].finalized
    ensures c in Apply(s, step).value.db.calls && Apply(s, step).value.db.calls[c] == s.db.calls[c]
  {
    match step
    case Admit(_, _, _, _, _, _, _) => AdmitOthers(s, step);
    case Finish(_, _) => FinishOthers(s, step);
    case RecoverOne(_) => RecoverOthers(s, step);
    case _ => QuietCalls(s, step);
  }

  lemma AdmitOthers(s: System, step: Step)
    requires step.Admit? && Apply(s, step).Some?
    ensures forall c <- s.db.calls :: c in Apply(s, step).value.db.calls && Apply(s, step).value.db.calls[c] == s.db.calls[c]
  {
  }

  lemma RecoverOthers(s: System, step: Step)
    requires step.RecoverOne? && Apply(s, step).Some?
    ensures forall c <- s.db.calls | s.db.calls[c].finalized ::
      c in Apply(s, step).value.db.calls && Apply(s, step).value.db.calls[c] == s.db.calls[c]
  {
  }

  lemma QuietCalls(s: System, step: Step)
    requires !step.Admit? && !step.Finish? && !step.RecoverOne? && Apply(s, step).Some?
    ensures Apply(s, step).value.db.calls == s.db.calls
  {
  }

  lemma FinishOthers(s: System, step: Step)
    requires Inv(s) && step.Finish? && Apply(s, step).Some?
    ensures step.callId in s.db.calls && !s.db.calls[step.callId].finalized
    ensures forall c <- s.db.calls | c != step.callId ::
      c in Apply(s, step).value.db.calls && Apply(s, step).value.db.calls[c] == s.db.calls[c]
  {
    FinishShape(s, step);
    assert InFlight(s, step.callId);
  }

  // ---- Budgets over whole runs --------------------------------------------------------------------

  /**
   * Budgets may change, as long as `b` allows at least as much; no admission test wraps; and settlements respect
   * what was reserved.
   */
  ghost predicate Thrifty(s: System, step: Step, b: L.Budgets) {
    && (step.Admit? ==> L.Tighter(step.budgets, b) && L.NoWrap(s.db.ledger, b, step.plugin, step.max, step.now))
    && (step.Finish? && step.callId in s.live ==> Amount(step.report) <= s.live[step.callId].max)
  }

  ghost predicate ThriftyRun(s: System, steps: seq<Step>, b: L.Budgets) {
    forall n :: 0 <= n < |steps| && Run(s, steps[..n]).Some? ==> Thrifty(Run(s, steps[..n]).value, steps[n], b)
  }

  /**
   * Reserved plus committed spend stays within every finite hourly, daily and monthly limit at every step
   * of every run, crashes and recoveries included, as long as no call settles above its
   * reserved maximum. When budgets change during the run, the limit is the loosest in force.
   */
  lemma {:induction false} BudgetsHold(steps: seq<Step>, b: L.Budgets)
    requires Run(FIRST_BOOT, steps).Some? && ThriftyRun(FIRST_BOOT, steps, b)
    ensures L.WithinBudget(Run(FIRST_BOOT, steps).value.db.ledger, b)
    decreases |steps|
  {
    if steps == [] {
      NothingSpent(b);
    } else {
      ThriftyBefore(steps, b);
      BudgetsHold(steps[..|steps| - 1], b);
      NextKeepsBudget(steps, b);
    }
  }

  lemma NothingSpent(b: L.Budgets)
    ensures L.WithinBudget(L.EMPTY, b)
  {
    forall key: L.SpendKey ensures L.Reserved([], key) + L.Committed(L.EMPTY, key) == 0 {}
  }

  lemma NextKeepsBudget(steps: seq<Step>, b: L.Budgets)
    requires steps != [] && Run(FIRST_BOOT, steps).Some?
    requires L.WithinBudget(Run(FIRST_BOOT, steps[..|steps| - 1]).value.db.ledger, b)
    requires Thrifty(Run(FIRST_BOOT, steps[..|steps| - 1]).value, steps[|steps| - 1], b)
    ensures L.WithinBudget(Run(FIRST_BOOT, steps).value.db.ledger, b)
  {
    FirstBootIsSound();
    RunKeepsInv(FIRST_BOOT, steps[..|steps| - 1]);
    StepKeepsBudget(Run(FIRST_BOOT, steps[..|steps| - 1]).value, steps[|steps| - 1], b);
  }

  lemma ThriftyBefore(steps: seq<Step>, b: L.Budgets)
    requires steps != [] && ThriftyRun(FIRST_BOOT, steps, b) && Run(FIRST_BOOT, steps).Some?
    ensures ThriftyRun(FIRST_BOOT, steps[..|steps| - 1], b)
    ensures Thrifty(Run(FIRST_BOOT, steps[..|steps| - 1]).value, steps[|steps| - 1], b)
  {
    var before := steps[..|steps| - 1];
    assert steps[..|before|] == before;
    forall n | 0 <= n < |before| && Run(FIRST_BOOT, before[..n]).Some?
      ensures Thrifty(Run(FIRST_BOOT, before[..n]).value, before[n], b)
    {
      assert before[..n] == steps[..n];
    }
  }

  lemma StepKeepsBudget(s: System, step: Step, b: L.Budgets)
    requires Inv(s) && Apply(s, step).Some? && Thrifty(s, step, b) && L.WithinBudget(s.db.ledger, b)
    ensures L.WithinBudget(Apply(s, step).value.db.ledger, b)
  {
    match step
    case Admit(_, _, _, _, _, _, _) => AdmitKeepsBudget(s, step, b);
    case Finish(_, _) => FinishKeepsBudget(s, step, b);
    case SweepOne => SweepKeepsBudget(s, step, b);
    case RecoverOne(_) => RecoverShape(s, step);
    case _ => LedgerUntouched(s, step);
  }

  lemma LedgerUntouched(s: System, step: Step)
    requires Apply(s, step).Some?
    requires step.Dispatch? || step.Abandon? || step.Crash? || step.SweepDone? || step.RecoverDone?
    ensures Apply(s, step).value.db.ledger == s.db.ledger
  {
  }

  lemma AdmitKeepsBudget(s: System, step: Step, b: L.Budgets)
    requires LedgerOk(s) && step.Admit? && Apply(s, step).Some? && Thrifty(s, step, b) && L.WithinBudget(s.db.ledger, b)
    ensures L.WithinBudget(Apply(s, step).value.db.ledger, b)
  {
    if Apply(s, step).value.db.ledger != s.db.ledger {
      L.ReserveKeepsBudgetIff(s.db.ledger, b, step.budgets, step.enabled, step.resId, step.plugin, step.max, step.now);
    }
  }

  lemma FinishKeepsBudget(s: System, step: Step, b: L.Budgets)
    requires Inv(s) && step.Finish? && Apply(s, step).Some? && Thrifty(s, step, b) && L.WithinBudget(s.db.ledger, b)
    ensures L.WithinBudget(Apply(s, step).value.db.ledger, b)
  {
    FinishShape(s, step);
    var l, id, rep := s.db.ledger, s.live[step.callId].resId, step.report;
    ReservedAsLive(s, step.callId);
    if rep.release { L.ReleaseKeepsBudget(l, b, id); } else { L.SettleKeepsBudget(l, b, id, rep.settled); }
  }

  /** A call in flight has an open reservation of its own maximum. */
  lemma ReservedAsLive(s: System, c: string)
    requires Inv(s) && c in s.live
    ensures var k := L.IndexOf(s.db.ledger.reservations, s.live[c].resId);
      k < |s.db.ledger.reservations| && s.db.ledger.reservations[k].maximum == s.live[c].max
  {
    assert InFlight(s, c);
    assert Accounted(s.db.ledger, s.phase, s.db.calls[c]);
  }

  lemma SweepKeepsBudget(s: System, step: Step, b: L.Budgets)
    requires step.SweepOne? && Apply(s, step).Some? && L.WithinBudget(s.db.ledger, b)
    ensures L.WithinBudget(Apply(s, step).value.db.ledger, b)
  {
    var r := s.db.ledger.reservations[0];
    assert L.IndexOf(s.db.ledger.reservations, r.id) == 0;
    L.SettleKeepsBudget(s.db.ledger, b, r.id, r.maximum);
  }
}
