/**
 * The imperative side of the paid-call model: execute, the orphan sweep and recover, as they are written.
 *
 * A service carries, as a ghost trace, the run of CallRecovery's transition system that produced its state,
 * and every method extends that run. So each result about all runs is a result about this
 * code, and a crash inside a method is the run that stops at a prefix of its trace.
 */
module CallService {
  import opened Common
  import opened PaidCalls
  import opened CallRecovery
  import opened Settlement
  import L = Ledger
  import P = Pricing

  datatype ExecuteResult =
    | NotAdmitted(rejected: bool)  // nothing was stored
    | LeftOpen                     // an early return; the next boot recovers the call
    | Done(report: Report)

  ghost predicate Reached(trace: seq<Step>, s: System) { Run(FIRST_BOOT, trace) == Some(s) }

  lemma ReachedNext(trace: seq<Step>, s: System, step: Step)
    requires Reached(trace, s) && Apply(s, step).Some?
    ensures Reached(trace + [step], Apply(s, step).value)
  {
    assert (trace + [step])[..|trace|] == trace;
  }

  // ---- Which steps are enabled in a reached state ------------------------------------------------

  lemma UnknownCallIsNotLive(trace: seq<Step>, s: System, c: string)
    requires Reached(trace, s) && c !in s.db.calls
    ensures c !in s.live
  {
    FirstBootIsSound();
    RunKeepsInv(FIRST_BOOT, trace);
    assert forall d <- s.live :: InFlight(s, d);
  }

  lemma UnknownCallHasNoRows(trace: seq<Step>, s: System, c: string)
    requires Reached(trace, s) && c !in s.db.calls
    ensures forall k <- s.db.attempts :: k.0 != c
  {
    FirstBootIsSound();
    RunKeepsInv(FIRST_BOOT, trace);
    assert forall k <- s.db.attempts :: RowOk(s, k);
  }

  lemma AdmissionIff(trace: seq<Step>, s: System, b: L.Budgets, enabled: bool, resId: string, plugin: string, max: int64, now: L.Periods)
    requires Reached(trace, s) && L.Fresh(s.db.ledger, resId)
    ensures var r := L.Reserve(s.db.ledger, b, enabled, resId, plugin, max, now);
      && (r.Ok? <==> L.Admissible(s.db.ledger, b, enabled, plugin, max, now))
      && (r == Err(L.BudgetExceeded) <==> max >= 0 && enabled && !L.Admissible(s.db.ledger, b, enabled, plugin, max, now))
  {
    FirstBootIsSound();
    RunKeepsInv(FIRST_BOOT, trace);
    L.ReserveIff(s.db.ledger, b, enabled, resId, plugin, max, now);
  }

  // ---- Attempt rows -------------------------------------------------------------------------------

  /** Exactly these ordinals of the call have been added, as dispatching rows; every other row is as it was. */
  ghost predicate MarkedUpTo(was: map<(string, nat), AttemptRow>, now: map<(string, nat), AttemptRow>, c: string, n: nat) {
    && (forall k :: k in now <==> k in was || (k.0 == c && 1 <= k.1 <= n))
    && (forall k <- was :: now[k] == was[k])
    && (forall k <- now | k !in was :: now[k] == AttemptRow(Dispatching, NoFailure, NotKnown, 0))
  }

  /** Exactly the recorded attempts of the call have been added, each as its outcome says. */
  ghost predicate SettledRows(was: map<(string, nat), AttemptRow>, now: map<(string, nat), AttemptRow>, c: string, rep: Report) {
    && (forall k :: k in now <==> k in was || (k.0 == c && 1 <= k.1 <= |rep.outcomes|))
    && (forall k <- was :: now[k] == was[k])
    && (forall k <- now | k !in was && k.0 == c && 1 <= k.1 <= |rep.outcomes| ::
          RowIs(now[k], rep.outcomes[k.1 - 1], rep.unknownBill))
  }

  lemma RowsSettle(was: map<(string, nat), AttemptRow>, marked: map<(string, nat), AttemptRow>, c: string, rep: Report)
    requires MarkedUpTo(was, marked, c, |rep.outcomes|) && forall k <- was :: k.0 != c
    ensures SettledRows(was, RecordOutcomes(marked, c, rep), c, rep)
  {
    OutcomesRecorded(marked, c, rep);
  }

  lemma MarksNext(was: map<(string, nat), AttemptRow>, now: map<(string, nat), AttemptRow>, c: string, n: nat)
    requires MarkedUpTo(was, now, c, n) && forall k <- was :: k.0 != c
    ensures MarkedUpTo(was, now[(c, n + 1) := AttemptRow(Dispatching, NoFailure, NotKnown, 0)], c, n + 1)
  {
    var now' := now[(c, n + 1) := AttemptRow(Dispatching, NoFailure, NotKnown, 0)];
    forall k ensures k in now' <==> k in was || (k.0 == c && 1 <= k.1 <= n + 1) {
      assert k == (k.0, k.1);
    }
  }

  lemma DispatchEnabled(trace: seq<Step>, s: System, c: string)
    requires Reached(trace, s) && c in s.live
    ensures MarkTx(s.db, c, s.live[c].dispatched + 1).Some?
  {
    FirstBootIsSound();
    RunKeepsInv(FIRST_BOOT, trace);
    assert forall k <- s.db.attempts :: RowOk(s, k);
  }

  lemma FinishEnabled(trace: seq<Step>, s: System, c: string, rep: Report)
    requires Reached(trace, s) && c in s.live && rep.settled >= 0
    ensures SettleTx(s.db, c, s.live[c].resId, rep).Some? && c in s.db.calls
  {
    FirstBootIsSound();
    RunKeepsInv(FIRST_BOOT, trace);
    assert InFlight(s, c) && Accounted(s.db.ledger, s.phase, s.db.calls[c]);
  }

  lemma SweepEnabled(trace: seq<Step>, s: System)
    requires Reached(trace, s) && s.db.ledger.reservations != []
    ensures var r := s.db.ledger.reservations[0]; var l := L.Settle(s.db.ledger, r.id, r.maximum);
      r.maximum >= 0 && l.Ok? && l.value.reservations == s.db.ledger.reservations[1..]
      && l.value.history == s.db.ledger.history + [L.Charge(r.id, r.plugin, r.periods, r.maximum)]
  {
    FirstBootIsSound();
    RunKeepsInv(FIRST_BOOT, trace);
    assert L.IndexOf(s.db.ledger.reservations, s.db.ledger.reservations[0].id) == 0;
    assert L.Without(s.db.ledger.reservations, 0) == s.db.ledger.reservations[1..];
  }

  lemma RecoverEnabled(trace: seq<Step>, s: System, c: string)
    requires Reached(trace, s) && s.phase.Recovering? && c in s.db.calls && !s.db.calls[c].finalized
    ensures var row := s.db.calls[c]; var db := FinalizeTx(s.db, c, row.reservationId, row.reserved);
      && db.Some? && db.value.ledger == s.db.ledger && db.value.attempts == EndAttempts(s.db.attempts, c)
      && db.value.calls == s.db.calls[c := row.(status := CallFailed, errClass := Recovered, settled := row.reserved, finalized := true)]
  {
    FirstBootIsSound();
    RunKeepsInv(FIRST_BOOT, trace);
    assert Accounted(s.db.ledger, s.phase, s.db.calls[c]);
  }

  lemma ReportIsSettleable(plan: seq<P.Attempt>, turns: seq<Turn>, max: int64)
    requires |plan| == |turns| && max >= 0
    ensures var end := AttemptLoop(plan, turns, max, START);
      end.Finished? ==>
        && Conclude(end, max).settled >= 0 && Conclude(end, max).outcomes == EndOutcomes(end)
        && (plan != [] ==> Settles(plan, turns, max, Conclude(end, max)))
  {
    DispatchDiscipline(plan, turns, max, START);
    if plan != [] && AttemptLoop(plan, turns, max, START).Finished? { ConcludesProperly(plan, turns, max); }
  }

  /** What the loop makes of a marked attempt. */
  function TakeTurn(p: Progress, a: P.Attempt, turn: Turn, max: int64): Verdict
    requires !turn.Cancelled? && !turn.MarkFails?
  {
    match turn
    case NoCredential => GoOn(NotReached(p, a, Credential))
    case NoAdapter => GoOn(NotReached(p, a, Provider))
    case Replied(r) => TakeReply(p, a, r, max)
  }

  /** The loop from attempt `i` on, unfolded once; each marked attempt has one outcome. */
  lemma LoopNext(plan: seq<P.Attempt>, turns: seq<Turn>, max: int64, p: Progress, i: nat)
    requires i < |plan| == |turns|
    ensures var loop := AttemptLoop(plan[i..], turns[i..], max, p);
      if turns[i].Cancelled? then loop == Finished(p.(errClass := CallCancelled), p.billedAny)
      else if turns[i].MarkFails? then loop == Returned(p.outcomes)
      else match TakeTurn(p, plan[i], turns[i], max)
        case Stop(end) => loop == end && |EndOutcomes(end)| == |p.outcomes| + 1
        case GoOn(p') => loop == AttemptLoop(plan[i + 1..], turns[i + 1..], max, p') && |p'.outcomes| == |p.outcomes| + 1
  {
    assert plan[i..][1..] == plan[i + 1..] && turns[i..][1..] == turns[i + 1..];
  }

  // ---- The methods -------------------------------------------------------------------------------

  class Service {
    var db: Db
    ghost var live: map<string, Flight>
    ghost var phase: Phase
    ghost var trace: seq<Step>

    ghost function Sys(): System
      reads this
    {
      System(db, live, phase)
    }

    ghost predicate Valid()
      reads this
    {
      Reached(trace, Sys())
    }

    /** A process start over whatever an earlier run left in the database. */
    constructor (stored: Db, ghost past: seq<Step>, ghost last: System)
      requires Reached(past, last) && last.db == stored
      ensures Valid() && db == stored && trace == past + [Crash] && phase == Sweeping && live == map[]
    {
      ReachedNext(past, last, Crash);
      db, live, phase, trace := stored, map[], Sweeping, past + [Crash];
    }

    /** The policy store's sweep: settle every leftover reservation at its maximum, one transaction each. */
    method SettleOrphanedReservations() returns (n: nat)
      requires Valid() && phase.Sweeping?
      modifies this
      ensures Valid() && old(trace) <= trace
      ensures n == |old(db.ledger.reservations)| && db.ledger.reservations == []
      ensures db.ledger.history == old(db.ledger.history) + MaximumCharges(old(db.ledger.reservations))
      ensures db.calls == old(db.calls) && db.attempts == old(db.attempts)
      ensures live == old(live) && phase == Recovering
    {
      var orphans := db.ledger.reservations;
      for i := 0 to |orphans|
        invariant Valid() && old(trace) <= trace && phase.Sweeping? && live == old(live)
        invariant db.ledger.reservations == orphans[i..]
        invariant db.ledger.history == old(db.ledger.history) + MaximumCharges(orphans[..i])
        invariant db.calls == old(db.calls) && db.attempts == old(db.attempts)
      {
        assert orphans[i..][1..] == orphans[i + 1..];
        SettleOne(orphans[i]);
        ChargesNext(orphans, i);
      }
      n := |orphans|;
      assert orphans[..n] == orphans;
      ReachedNext(trace, Sys(), SweepDone);
      phase := Recovering;
      trace := trace + [SweepDone];
    }

    method SettleOne(o: L.Reservation)
      requires Valid() && phase.Sweeping? && db.ledger.reservations != [] && o == db.ledger.reservations[0]
      modifies this
      ensures Valid() && trace == old(trace) + [SweepOne] && phase == old(phase) && live == old(live)
      ensures db.calls == old(db.calls) && db.attempts == old(db.attempts)
      ensures db.ledger.reservations == old(db.ledger.reservations)[1..]
      ensures o.maximum >= 0
      ensures db.ledger.history == old(db.ledger.history) + [L.Charge(o.id, o.plugin, o.periods, o.maximum)]
    {
      SweepEnabled(trace, Sys());
      ReachedNext(trace, Sys(), SweepOne);
      var settled := L.Settle(db.ledger, o.id, o.maximum);
      db := db.(ledger := settled.value);
      trace := trace + [SweepOne];
    }

    /** recover: finalize every unfinalized call at its reserved maximum, one transaction each. */
    method Recover()
      requires Valid() && phase.Recovering?
      modifies this
      ensures Valid() && old(trace) <= trace
      ensures AllFinalized(db) && phase == Serving && db.ledger == old(db.ledger) && live == old(live)
      ensures db.calls.Keys == old(db.calls).Keys
      ensures forall c <- db.calls :: db.calls[c].settled == RecoveredAmount(old(db.calls)[c])
      ensures RowsRecovered(old(db.calls), {}, old(db.attempts), db.attempts)
    {
      var pending := set c | c in db.calls && !db.calls[c].finalized;
      while pending != {}
        invariant Valid() && old(trace) <= trace && phase.Recovering? && live == old(live)
        invariant db.ledger == old(db.ledger) && PartlyRecovered(old(db.calls), db.calls, pending)
        invariant RowsRecovered(old(db.calls), pending, old(db.attempts), db.attempts)
        decreases |pending|
      {
        var c :| c in pending;
        RecoveredNext(old(db.calls), db.calls, pending, c);
        RowsRecoveredNext(old(db.calls), pending, old(db.attempts), db.attempts, c);
        FinalizeConservative(c);
        pending := pending - {c};
      }
      ReachedNext(trace, Sys(), RecoverDone);
      phase := Serving;
      trace := trace + [RecoverDone];
    }

    method FinalizeConservative(c: string)
      requires Valid() && phase.Recovering? && c in db.calls && !db.calls[c].finalized
      modifies this
      ensures Valid() && trace == old(trace) + [RecoverOne(c)] && phase == old(phase) && live == old(live)
      ensures db.ledger == old(db.ledger)
      ensures db.calls == old(db.calls)[c := old(db.calls)[c].(
        status := CallFailed, errClass := Recovered, settled := old(db.calls)[c].reserved, finalized := true)]
      ensures db.attempts == EndAttempts(old(db.attempts), c)
    {
      RecoverEnabled(trace, Sys(), c);
      ReachedNext(trace, Sys(), RecoverOne(c));
      var row := db.calls[c];
      var next := FinalizeTx(db, c, row.reservationId, row.reserved);
      db := next.value;
      trace := trace + [RecoverOne(c)];
    }

    /** Boot in the order of the program's start-up: the sweep, then recover. It always completes. */
    method Boot()
      requires Valid() && phase.Sweeping?
      modifies this
      ensures Valid() && old(trace) <= trace && phase == Serving
      ensures AllFinalized(db) && db.ledger.reservations == []
      ensures db.calls.Keys == old(db.calls).Keys
      ensures forall c <- db.calls :: db.calls[c].settled == RecoveredAmount(old(db.calls)[c])
      ensures RowsRecovered(old(db.calls), {}, old(db.attempts), db.attempts)
    {
      var n := SettleOrphanedReservations();
      Recover();
    }

    /** The reserve transaction, the attempt loop, and the settlement or release transaction. */
    method Execute(
      b: L.Budgets, enabled: bool, callId: string, resId: string, plugin: string,
      plan: seq<P.Attempt>, max: int64, now: L.Periods, turns: seq<Turn>, commitFails: bool)
      returns (r: ExecuteResult)
      requires Valid() && phase.Serving? && resId != "" && L.Fresh(db.ledger, resId) && |plan| == |turns|
      modifies this
      ensures Valid() && old(trace) <= trace && live == old(live) && phase == old(phase)
      ensures r.NotAdmitted? <==> callId in old(db.calls) || !L.Admissible(old(db.ledger), b, enabled, plugin, max, now)
      ensures r == NotAdmitted(true) <==>
        callId !in old(db.calls) && max >= 0 && enabled && !L.Admissible(old(db.ledger), b, enabled, plugin, max, now)
      ensures r.NotAdmitted? ==> db == old(db)
      ensures r.LeftOpen? ==>
        && (AttemptLoop(plan, turns, max, START).Returned? || commitFails)
        && db.calls == old(db.calls)[callId := CallRow(plugin, resId, CallPending, NoFailure, max, 0, false)]
        && MarkedUpTo(old(db.attempts), db.attempts, callId, |EndOutcomes(AttemptLoop(plan, turns, max, START))|)
      ensures r.Done? ==>
        && AttemptLoop(plan, turns, max, START).Finished?
        && r.report.outcomes == EndOutcomes(AttemptLoop(plan, turns, max, START))
        && (plan != [] ==> Settles(plan, turns, max, r.report))
        && db.calls == old(db.calls)[callId :=
             CallRow(plugin, resId, r.report.status, r.report.errClass, max, Amount(r.report), true)]
        && SettledRows(old(db.attempts), db.attempts, callId, r.report)
    {
      if callId !in db.calls { UnknownCallHasNoRows(trace, Sys(), callId); }
      var rejection := Reserve(b, enabled, callId, resId, plugin, max, now);
      if rejection.Some? { return NotAdmitted(rejection.value); }
      assert old(live)[callId := live[callId]] - {callId} == old(live);
      r := Attend(callId, resId, plan, max, turns, commitFails);
    }

    /** execute after the reservation: the attempts, and the settlement unless it returns or fails before. */
    method Attend(callId: string, resId: string, plan: seq<P.Attempt>, max: int64, turns: seq<Turn>, commitFails: bool)
      returns (r: ExecuteResult)
      requires Valid() && |plan| == |turns| && callId in live && live[callId] == Flight(resId, max, 0) && max >= 0
      requires callId in db.calls && forall k <- db.attempts :: k.0 != callId
      modifies this
      ensures Valid() && old(trace) <= trace && live == old(live) - {callId} && phase == old(phase) && !r.NotAdmitted?
      ensures r.LeftOpen? ==>
        && (AttemptLoop(plan, turns, max, START).Returned? || commitFails)
        && db.calls == old(db.calls)
        && MarkedUpTo(old(db.attempts), db.attempts, callId, |EndOutcomes(AttemptLoop(plan, turns, max, START))|)
      ensures r.Done? ==>
        && AttemptLoop(plan, turns, max, START).Finished?
        && r.report.outcomes == EndOutcomes(AttemptLoop(plan, turns, max, START))
        && (plan != [] ==> Settles(plan, turns, max, r.report))
        && db.calls == old(db.calls)[callId := old(db.calls)[callId].(
             status := r.report.status, errClass := r.report.errClass, settled := Amount(r.report), finalized := true)]
        && SettledRows(old(db.attempts), db.attempts, callId, r.report)
    {
      var end := RunAttempts(callId, resId, plan, max, turns);
      assert old(live)[callId := live[callId]] - {callId} == old(live) - {callId};
      if end.Returned? || commitFails {
        GiveUp(callId);
        return LeftOpen;
      }
      var report := Conclude(end, max);
      ReportIsSettleable(plan, turns, max);
      RowsSettle(old(db.attempts), db.attempts, callId, report);
      SettleNow(callId, resId, report);
      return Done(report);
    }

    /** The reserve transaction; a result says that nothing was stored, and whether a budget said no. */
    method Reserve(b: L.Budgets, enabled: bool, callId: string, resId: string, plugin: string, max: int64, now: L.Periods)
      returns (rejection: Option<bool>)
      requires Valid() && phase.Serving? && resId != "" && L.Fresh(db.ledger, resId)
      modifies this
      ensures Valid() && phase == old(phase)
      ensures rejection.None? <==> callId !in old(db.calls) && L.Admissible(old(db.ledger), b, enabled, plugin, max, now)
      ensures rejection == Some(true) <==>
        callId !in old(db.calls) && max >= 0 && enabled && !L.Admissible(old(db.ledger), b, enabled, plugin, max, now)
      ensures rejection.Some? ==> db == old(db) && live == old(live) && trace == old(trace)
      ensures rejection.None? ==>
        && trace == old(trace) + [Admit(b, enabled, callId, resId, plugin, max, now)]
        && max >= 0 && callId !in old(db.calls) && callId !in old(live)
        && live == old(live)[callId := Flight(resId, max, 0)]
        && db.calls == old(db.calls)[callId := CallRow(plugin, resId, CallPending, NoFailure, max, 0, false)]
        && db.attempts == old(db.attempts)
    {
      AdmissionIff(trace, Sys(), b, enabled, resId, plugin, max, now);
      var admission := ReserveTx(db, b, enabled, callId, resId, plugin, max, now);
      if !admission.Admitted? { return Some(admission.Rejected?); }
      UnknownCallIsNotLive(trace, Sys(), callId);
      ghost var admit := Admit(b, enabled, callId, resId, plugin, max, now);
      ReachedNext(trace, Sys(), admit);
      db := admission.db;
      live := live[callId := Flight(resId, max, 0)];
      trace := trace + [admit];
      return None;
    }

    /** The loop over the attempt plan, marking each attempt before it is dispatched. */
    method RunAttempts(callId: string, resId: string, plan: seq<P.Attempt>, max: int64, turns: seq<Turn>)
      returns (end: LoopEnd)
      requires Valid() && |plan| == |turns| && callId in live && live[callId] == Flight(resId, max, 0)
      requires forall k <- db.attempts :: k.0 != callId
      modifies this
      ensures Valid() && old(trace) <= trace && phase == old(phase) && db.calls == old(db.calls)
      ensures end == AttemptLoop(plan, turns, max, START)
      ensures live == old(live)[callId := Flight(resId, max, |EndOutcomes(end)|)]
      ensures MarkedUpTo(old(db.attempts), db.attempts, callId, |EndOutcomes(end)|)
    {
      var p := START;
      var i := 0;
      while i < |plan|
        invariant i == |p.outcomes| <= |plan|
        invariant AttemptLoop(plan[i..], turns[i..], max, p) == AttemptLoop(plan, turns, max, START)
        invariant Valid() && old(trace) <= trace && phase == old(phase) && db.calls == old(db.calls)
        invariant live == old(live)[callId := Flight(resId, max, i)]
        invariant MarkedUpTo(old(db.attempts), db.attempts, callId, i)
      {
        var turn, a := turns[i], plan[i];
        LoopNext(plan, turns, max, p, i);
        if turn.Cancelled? { return Finished(p.(errClass := CallCancelled), p.billedAny); }
        if turn.MarkFails? { return Returned(p.outcomes); }
        MarksNext(old(db.attempts), db.attempts, callId, i);
        i := i + 1;
        MarkNext(callId, i);
        var verdict := HandleTurn(p, a, turn, max);
        if verdict.Stop? { return verdict.end; }
        p := verdict.progress;
      }
      return Finished(p, false);
    }

    /** The part of the loop body after the attempt has been marked. */
    method HandleTurn(p: Progress, a: P.Attempt, turn: Turn, max: int64) returns (v: Verdict)
      requires !turn.Cancelled? && !turn.MarkFails?
      ensures v == TakeTurn(p, a, turn, max)
    {
      if turn.NoCredential? { return GoOn(NotReached(p, a, Credential)); }
      if turn.NoAdapter? { return GoOn(NotReached(p, a, Provider)); }
      v := HandleReply(p, a, turn.reply, max);
    }

    /** And after the provider has answered. */
    method HandleReply(p: Progress, a: P.Attempt, out: Reply, max: int64) returns (v: Verdict)
      ensures v == TakeReply(p, a, out, max)
    {
      var failure := if out.failed && out.errClass == NoFailure then Provider else out.errClass;
      if out.cost > max { failure := AccountingInvariant; }
      var outcomes := p.outcomes + [Outcome(true, a.metered, failure, out.billed, out.cost)];
      var next := Wrap(p.cost + out.cost);
      if next < p.cost { return Stop(Returned(outcomes)); }
      var p' := Progress(outcomes, next, failure, p.billedAny || out.billed);
      if failure == NoFailure || !Spillover(failure) { return Stop(Finished(p', false)); }
      return GoOn(p');
    }

    method MarkNext(callId: string, ordinal: nat)
      requires Valid() && callId in live && live[callId].dispatched + 1 == ordinal
      modifies this
      ensures Valid() && trace == old(trace) + [Dispatch(callId)]
      ensures db == old(db).(attempts := old(db.attempts)[(callId, ordinal) := AttemptRow(Dispatching, NoFailure, NotKnown, 0)])
      ensures phase == old(phase)
      ensures live == old(live)[callId := old(live)[callId].(dispatched := ordinal)]
    {
      DispatchEnabled(trace, Sys(), callId);
      ReachedNext(trace, Sys(), Dispatch(callId));
      var marked := MarkTx(db, callId, ordinal);
      db := marked.value;
      live := live[callId := live[callId].(dispatched := ordinal)];
      trace := trace + [Dispatch(callId)];
    }

    method SettleNow(callId: string, resId: string, report: Report)
      requires Valid() && callId in live && live[callId].resId == resId && |report.outcomes| == live[callId].dispatched
      requires report.settled >= 0
      modifies this
      ensures Valid() && trace == old(trace) + [Finish(callId, report)]
      ensures callId in old(db.calls) && db.calls == old(db.calls)[callId := old(db.calls)[callId].(
        status := report.status, errClass := report.errClass, settled := Amount(report), finalized := true)]
      ensures db.attempts == RecordOutcomes(old(db.attempts), callId, report)
      ensures live == old(live) - {callId} && phase == old(phase)
    {
      FinishEnabled(trace, Sys(), callId, report);
      ReachedNext(trace, Sys(), Finish(callId, report));
      var settled := SettleTx(db, callId, resId, report);
      db := settled.value;
      live := live - {callId};
      trace := trace + [Finish(callId, report)];
    }

    /** An early return: the goroutine is gone, the rows stay as they are. */
    ghost method GiveUp(callId: string)
      requires Valid() && callId in live
      modifies this`live, this`trace
      ensures Valid() && trace == old(trace) + [Abandon(callId)]
      ensures live == old(live) - {callId}
    {
      ReachedNext(trace, Sys(), Abandon(callId));
      live := live - {callId};
      trace := trace + [Abandon(callId)];
    }
  }

  /** Each reservation charged at its maximum, in order; a negative one cannot be stored. */
  function MaximumCharges(rs: seq<L.Reservation>): seq<L.Charge> {
    if rs == [] then []
    else
      var r := rs[|rs| - 1];
      MaximumCharges(rs[..|rs| - 1]) + [L.Charge(r.id, r.plugin, r.periods, if r.maximum < 0 then 0 else r.maximum)]
  }

  lemma ChargesNext(rs: seq<L.Reservation>, i: nat)
    requires i < |rs| && rs[i].maximum >= 0
    ensures MaximumCharges(rs[..i + 1])
         == MaximumCharges(rs[..i]) + [L.Charge(rs[i].id, rs[i].plugin, rs[i].periods, rs[i].maximum)]
  {
    assert rs[..i + 1][..i] == rs[..i];
  }

  /** All but the pending calls are as recovery leaves them. */
  ghost predicate PartlyRecovered(was: map<string, CallRow>, calls: map<string, CallRow>, pending: set<string>) {
    && calls.Keys == was.Keys && pending <= calls.Keys
    && (forall c <- pending :: calls[c] == was[c] && !calls[c].finalized)
    && (forall c <- calls | c !in pending :: calls[c].finalized && calls[c].settled == RecoveredAmount(was[c]))
  }

  /** A dispatching row of a call that was open is ended as a failure whose bill is unknown; others stay. */
  ghost predicate RowsRecovered(
      was: map<string, CallRow>, pending: set<string>, rows: map<(string, nat), AttemptRow>, now: map<(string, nat), AttemptRow>) {
    && now.Keys == rows.Keys
    && forall k <- rows ::
         if k.0 in was && !was[k.0].finalized && k.0 !in pending && rows[k].status == Dispatching
         then now[k] == AttemptRow(AttemptFailed, rows[k].errClass, AmbiguousBill, rows[k].cost)
         else now[k] == rows[k]
  }

  lemma RowsRecoveredNext(
      was: map<string, CallRow>, pending: set<string>, rows: map<(string, nat), AttemptRow>, now: map<(string, nat), AttemptRow>,
      c: string)
    requires RowsRecovered(was, pending, rows, now) && c in pending && c in was && !was[c].finalized
    ensures RowsRecovered(was, pending - {c}, rows, EndAttempts(now, c))
  {
    AttemptsEnded(now, c);
  }

  lemma RecoveredNext(was: map<string, CallRow>, calls: map<string, CallRow>, pending: set<string>, c: string)
    requires PartlyRecovered(was, calls, pending) && c in pending
    ensures PartlyRecovered(was, calls[c := calls[c].(
      status := CallFailed, errClass := Recovered, settled := calls[c].reserved, finalized := true)], pending - {c})
  {
  }

  function RecoveredAmount(row: CallRow): int64 { if row.finalized then row.settled else row.reserved }
}
