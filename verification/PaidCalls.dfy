/**
 * Paid calls: internal/core/ai/dispatch.go and internal/core/ai/service.go.
 *
 * `AttemptLoop` is the spillover loop of execute, for every way its attempts can turn out, and `Conclude` what
 * the settlement is told. What they add up to is compared with the reserved maximum.
 */
module PaidCalls {
  import opened Common
  import P = Pricing

  // ---- The attempt loop --------------------------------------------------------------

  /** The error_class column. `NoFailure` is the empty string; adapters may invent further classes. */
  datatype Failure =
    | NoFailure | RateLimit | Quota | Provider5xx | Unsupported | Credential | Provider
    | AccountingInvariant | CallCancelled | Ambiguous | Recovered | Other(name: string)

  /** What a provider adapter returned; `failed` says whether it also returned an error. */
  datatype Reply = Reply(cost: int64, billed: bool, errClass: Failure, failed: bool)

  /** What happens at one turn of the loop, outside the loop's control. */
  datatype Turn = Cancelled | MarkFails | NoCredential | NoAdapter | Replied(reply: Reply)

  datatype Outcome = Outcome(reached: bool, metered: bool, errClass: Failure, billed: bool, cost: int64)

  /** The variables the loop carries from one attempt to the next. */
  datatype Progress = Progress(outcomes: seq<Outcome>, cost: int64, errClass: Failure, billedAny: bool)

  datatype LoopEnd = Returned(outcomes: seq<Outcome>) | Finished(progress: Progress, unknownBill: bool)

  const START := Progress([], 0, NoFailure, false)

  predicate Spillover(failure: Failure) {
    failure == RateLimit || failure == Quota || failure == Provider5xx || failure == Unsupported
  }

  function Classify(r: Reply, max: int64): Failure {
    if r.cost > max then AccountingInvariant
    else if r.failed && r.errClass == NoFailure then Provider
    else r.errClass
  }

  function NotReached(p: Progress, a: P.Attempt, failure: Failure): Progress {
    p.(outcomes := p.outcomes + [Outcome(false, a.metered, failure, false, 0)], errClass := failure)
  }

  function AttemptLoop(plan: seq<P.Attempt>, turns: seq<Turn>, max: int64, p: Progress): LoopEnd
    requires |plan| == |turns|
    decreases |plan|
  {
    if plan == [] then Finished(p, false)
    else
      match turns[0]
      case Cancelled => Finished(p.(errClass := CallCancelled), p.billedAny)
      case MarkFails => Returned(p.outcomes)
      case NoCredential => AttemptLoop(plan[1..], turns[1..], max, NotReached(p, plan[0], Credential))
      case NoAdapter => AttemptLoop(plan[1..], turns[1..], max, NotReached(p, plan[0], Provider))
      case Replied(r) =>
        match TakeReply(p, plan[0], r, max)
        case Stop(end) => end
        case GoOn(p') => AttemptLoop(plan[1..], turns[1..], max, p')
  }

  datatype Verdict = Stop(end: LoopEnd) | GoOn(progress: Progress)

  /** What the loop makes of one reply. */
  function TakeReply(p: Progress, a: P.Attempt, r: Reply, max: int64): Verdict {
    var next := Wrap(p.cost + r.cost);
    if next < p.cost then Stop(Returned(p.outcomes + [OutcomeOf(a, r, max)])) else Advance(p, OutcomeOf(a, r, max), next)
  }

  function OutcomeOf(a: P.Attempt, r: Reply, max: int64): Outcome {
    Outcome(true, a.metered, Classify(r, max), r.billed, r.cost)
  }

  /** The reply's outcome is recorded; a clean answer or a failure that does not spill over ends the loop. */
  function Advance(p: Progress, o: Outcome, cost: int64): Verdict {
    var p' := Progress(p.outcomes + [o], cost, o.errClass, p.billedAny || o.billed);
    if o.errClass == NoFailure || !Spillover(o.errClass) then Stop(Finished(p', false)) else GoOn(p')
  }

  predicate Clean(o: Outcome) { o.reached && o.errClass == NoFailure }

  /** An outcome after which the loop goes on to the next attempt. */
  predicate MovesOn(o: Outcome) {
    if o.reached then Spillover(o.errClass) else o.errClass == Credential || o.errClass == Provider
  }

  function CostSum(outs: seq<Outcome>): int {
    if outs == [] then 0 else CostSum(outs[..|outs| - 1]) + outs[|outs| - 1].cost
  }

  /** The loop's variables agree with the outcomes recorded so far. */
  predicate Tallied(p: Progress) {
    && p.cost == CostSum(p.outcomes) >= 0
    && (p.billedAny <==> exists k :: 0 <= k < |p.outcomes| && p.outcomes[k].billed)
    && (forall k :: 0 <= k < |p.outcomes| - 1 ==> MovesOn(p.outcomes[k]))
  }

  lemma CostSumAppend(outs: seq<Outcome>, o: Outcome)
    ensures CostSum(outs + [o]) == CostSum(outs) + o.cost
  {
    assert (outs + [o])[..|outs|] == outs;
  }

  /** Recording one more outcome after an attempt that moved on. */
  lemma TallyNext(p: Progress, o: Outcome, p': Progress)
    requires Tallied(p) && (p.outcomes == [] || MovesOn(p.outcomes[|p.outcomes| - 1]))
    requires p'.outcomes == p.outcomes + [o] && p'.cost == p.cost + o.cost && p'.billedAny == (p.billedAny || o.billed)
    requires p'.cost >= 0
    ensures Tallied(p')
  {
    CostSumAppend(p.outcomes, o);
    assert p'.outcomes[|p.outcomes|] == o;
    if p.billedAny {
      var k :| 0 <= k < |p.outcomes| && p.outcomes[k].billed;
      assert p'.outcomes[k].billed;
    }
  }

  function EndOutcomes(end: LoopEnd): seq<Outcome> {
    match end case Returned(o) => o case Finished(p, _) => p.outcomes
  }

  /** Attempts go out in plan order without a gap, and every one but the last moved on. */
  predicate InPlanOrder(plan: seq<P.Attempt>, p: Progress, outs: seq<Outcome>) {
    && p.outcomes <= outs && |outs| - |p.outcomes| <= |plan|
    && (forall k :: |p.outcomes| <= k < |outs| ==> outs[k].metered == plan[k - |p.outcomes|].metered)
    && (forall k :: 0 <= k < |outs| - 1 ==> MovesOn(outs[k]))
  }

  /** The loop was cancelled before the next attempt, which the outcomes so far had left to make. */
  predicate CutShort(turns: seq<Turn>, from: nat, outs: seq<Outcome>) {
    && 0 <= |outs| - from < |turns| && turns[|outs| - from].Cancelled?
    && (outs == [] || MovesOn(outs[|outs| - 1]))
  }

  /** Where the loop may end, counted in attempts dispatched beyond `p`. */
  predicate FinishesProperly(plan: seq<P.Attempt>, turns: seq<Turn>, p: Progress, q: Progress, unknownBill: bool)
    requires |plan| == |turns| && InPlanOrder(plan, p, q.outcomes)
  {
    var n, m := |q.outcomes|, |p.outcomes|;
    && Tallied(q)
    && (m + |plan| > 0 ==> (q.errClass == NoFailure <==> n > 0 && Clean(q.outcomes[n - 1])))
    && (unknownBill <==> CutShort(turns, m, q.outcomes) && q.billedAny)
    && (q.errClass == if CutShort(turns, m, q.outcomes) then CallCancelled
                      else if n == 0 then NoFailure else q.outcomes[n - 1].errClass)
    && (n - m < |plan| ==> turns[n - m].Cancelled? || (n > 0 && !MovesOn(q.outcomes[n - 1])))
  }

  /** Why execute may return from inside the loop: a row insert failed, or the costs left 64 bits or went down. */
  predicate ReturnsProperly(plan: seq<P.Attempt>, turns: seq<Turn>, p: Progress, outs: seq<Outcome>)
    requires |plan| == |turns| && InPlanOrder(plan, p, outs)
  {
    var n, m := |outs|, |p.outcomes|;
    || (n - m < |plan| && turns[n - m].MarkFails?)
    || (n > m && turns[n - m - 1].Replied? && (turns[n - m - 1].reply.cost < 0 || CostSum(outs) >= TWO63))
  }

  predicate StopsProperly(plan: seq<P.Attempt>, turns: seq<Turn>, p: Progress, end: LoopEnd)
    requires |plan| == |turns|
  {
    && InPlanOrder(plan, p, EndOutcomes(end))
    && match end
       case Finished(q, unknownBill) => FinishesProperly(plan, turns, p, q, unknownBill)
       case Returned(outs) => ReturnsProperly(plan, turns, p, outs)
  }

  lemma StopsLater(plan: seq<P.Attempt>, turns: seq<Turn>, p: Progress, o: Outcome, p': Progress, end: LoopEnd)
    requires |plan| == |turns| > 0 && p'.outcomes == p.outcomes + [o] && o.metered == plan[0].metered
    requires StopsProperly(plan[1..], turns[1..], p', end)
    ensures StopsProperly(plan, turns, p, end)
  {
    var outs, m := EndOutcomes(end), |p.outcomes|;
    assert outs[m] == o;
    assert forall k :: m < k < |outs| ==> outs[k].metered == plan[1..][k - (m + 1)].metered;
    assert InPlanOrder(plan, p, outs);
  }

  /**
   * The dispatch discipline, for every plan and every way its attempts can turn out. Attempts go out in
   * plan order without a gap; every one but the last failed with a spillover class or was
   * never reached; the loop stops early only after a clean or a final answer or a
   * cancellation, or by returning for a stated cause; and the call carries no error
   * exactly when its last attempt was clean.
   */
  lemma {:induction false} DispatchDiscipline(plan: seq<P.Attempt>, turns: seq<Turn>, max: int64, p: Progress)
    requires |plan| == |turns| && Tallied(p)
    requires p.outcomes == [] || MovesOn(p.outcomes[|p.outcomes| - 1])
    requires p.errClass == if p.outcomes == [] then NoFailure else p.outcomes[|p.outcomes| - 1].errClass
    ensures StopsProperly(plan, turns, p, AttemptLoop(plan, turns, max, p))
    decreases |plan|
  {
    var end := AttemptLoop(plan, turns, max, p);
    if plan == [] || turns[0].Cancelled? || turns[0].MarkFails? {
      StopsNow(plan, turns, p, end);
    } else if turns[0].Replied? && Wrap(p.cost + turns[0].reply.cost) < p.cost {
      StopsOverflowing(plan, turns, max, p);
    } else {
      var o, p' := OneMore(plan, turns, max, p);
      if MovesOn(o) {
        DispatchDiscipline(plan[1..], turns[1..], max, p');
        StopsLater(plan, turns, p, o, p', end);
      } else {
        StopsAfter(plan, turns, p, o, p');
      }
    }
  }

  /** One attempt recorded: the loop goes on from there, or ends there. */
  lemma OneMore(plan: seq<P.Attempt>, turns: seq<Turn>, max: int64, p: Progress) returns (o: Outcome, p': Progress)
    requires |plan| == |turns| > 0 && Tallied(p) && (p.outcomes == [] || MovesOn(p.outcomes[|p.outcomes| - 1]))
    requires turns[0].NoCredential? || turns[0].NoAdapter?
      || (turns[0].Replied? && Wrap(p.cost + turns[0].reply.cost) >= p.cost)
    ensures Tallied(p') && p'.outcomes == p.outcomes + [o] && p'.errClass == o.errClass && o.metered == plan[0].metered
    ensures MovesOn(o) ==> AttemptLoop(plan, turns, max, p) == AttemptLoop(plan[1..], turns[1..], max, p')
    ensures !MovesOn(o) ==> o.reached && AttemptLoop(plan, turns, max, p) == Finished(p', false)
  {
    if turns[0].Replied? {
      o, p' := OneReply(p, plan[0], turns[0].reply, max);
      ReplyUnfolds(plan, turns, max, p);
    } else {
      var failure := if turns[0].NoCredential? then Credential else Provider;
      o, p' := OneMiss(p, plan[0], failure);
      MissUnfolds(plan, turns, max, p);
    }
  }

  lemma ReplyUnfolds(plan: seq<P.Attempt>, turns: seq<Turn>, max: int64, p: Progress)
    requires |plan| == |turns| > 0 && turns[0].Replied?
    ensures var v := TakeReply(p, plan[0], turns[0].reply, max);
      AttemptLoop(plan, turns, max, p) == if v.Stop? then v.end else AttemptLoop(plan[1..], turns[1..], max, v.progress)
  {
  }

  lemma MissUnfolds(plan: seq<P.Attempt>, turns: seq<Turn>, max: int64, p: Progress)
    requires |plan| == |turns| > 0 && (turns[0].NoCredential? || turns[0].NoAdapter?)
    ensures var failure := if turns[0].NoCredential? then Credential else Provider;
      AttemptLoop(plan, turns, max, p) == AttemptLoop(plan[1..], turns[1..], max, NotReached(p, plan[0], failure))
  {
  }

  lemma OneMiss(p: Progress, a: P.Attempt, failure: Failure) returns (o: Outcome, p': Progress)
    requires Tallied(p) && (p.outcomes == [] || MovesOn(p.outcomes[|p.outcomes| - 1]))
    requires failure == Credential || failure == Provider
    ensures Tallied(p') && p' == NotReached(p, a, failure)
    ensures p'.outcomes == p.outcomes + [o] && p'.errClass == o.errClass && o.metered == a.metered && MovesOn(o)
  {
    o := Outcome(false, a.metered, failure, false, 0);
    p' := NotReached(p, a, failure);
    TallyNext(p, o, p');
  }

  lemma OneReply(p: Progress, a: P.Attempt, r: Reply, max: int64) returns (o: Outcome, p': Progress)
    requires Tallied(p) && (p.outcomes == [] || MovesOn(p.outcomes[|p.outcomes| - 1])) && Wrap(p.cost + r.cost) >= p.cost
    ensures Tallied(p') && p'.outcomes == p.outcomes + [o] && p'.errClass == o.errClass && o.metered == a.metered && o.reached
    ensures TakeReply(p, a, r, max) == if MovesOn(o) then GoOn(p') else Stop(Finished(p', false))
  {
    o := OutcomeOf(a, r, max);
    GrowsExactly(p.cost, r.cost);
    p' := Recorded(p, o, Wrap(p.cost + r.cost));
  }

  lemma Recorded(p: Progress, o: Outcome, cost: int64) returns (p': Progress)
    requires Tallied(p) && (p.outcomes == [] || MovesOn(p.outcomes[|p.outcomes| - 1])) && o.reached
    requires cost >= p.cost ==> cost == p.cost + o.cost
    ensures cost >= p.cost ==> Tallied(p')
    ensures p'.outcomes == p.outcomes + [o] && p'.errClass == o.errClass
    ensures Advance(p, o, cost) == if MovesOn(o) then GoOn(p') else Stop(Finished(p', false))
  {
    p' := Progress(p.outcomes + [o], cost, o.errClass, p.billedAny || o.billed);
    if cost >= p.cost { TallyNext(p, o, p'); }
  }

  /** The plan is exhausted, or the turn's cancellation ends the loop. */
  lemma StopsNow(plan: seq<P.Attempt>, turns: seq<Turn>, p: Progress, end: LoopEnd)
    requires |plan| == |turns| && Tallied(p)
    requires p.outcomes == [] || MovesOn(p.outcomes[|p.outcomes| - 1])
    requires p.errClass == if p.outcomes == [] then NoFailure else p.outcomes[|p.outcomes| - 1].errClass
    requires
      || (plan == [] && end == Finished(p, false))
      || (plan != [] && turns[0].Cancelled? && end == Finished(p.(errClass := CallCancelled), p.billedAny))
      || (plan != [] && turns[0].MarkFails? && end == Returned(p.outcomes))
    ensures StopsProperly(plan, turns, p, end)
  {
    assert InPlanOrder(plan, p, p.outcomes);
    if end.Finished? { assert Tallied(end.progress); }
  }

  lemma OrderNext(plan: seq<P.Attempt>, p: Progress, o: Outcome)
    requires plan != [] && Tallied(p) && (p.outcomes == [] || MovesOn(p.outcomes[|p.outcomes| - 1])) && o.metered == plan[0].metered
    ensures InPlanOrder(plan, p, p.outcomes + [o])
    ensures CostSum(p.outcomes + [o]) == p.cost + o.cost
  {
    CostSumAppend(p.outcomes, o);
  }

  /** The first attempt's cost cannot be added. */
  lemma StopsOverflowing(plan: seq<P.Attempt>, turns: seq<Turn>, max: int64, p: Progress)
    requires |plan| == |turns| > 0 && Tallied(p) && (p.outcomes == [] || MovesOn(p.outcomes[|p.outcomes| - 1]))
    requires turns[0].Replied? && Wrap(p.cost + turns[0].reply.cost) < p.cost
    ensures StopsProperly(plan, turns, p, AttemptLoop(plan, turns, max, p))
  {
    var r := turns[0].reply;
    var o := Outcome(true, plan[0].metered, Classify(r, max), r.billed, r.cost);
    var outs := p.outcomes + [o];
    OrderNext(plan, p, o);
    assert r.cost < 0 || CostSum(outs) >= TWO63 by { GrowsExactly(p.cost, r.cost); }
    assert ReturnsProperly(plan, turns, p, outs);
    assert AttemptLoop(plan, turns, max, p) == Returned(outs);
  }

  /** The first attempt gave a clean or a final answer. */
  lemma StopsAfter(plan: seq<P.Attempt>, turns: seq<Turn>, p: Progress, o: Outcome, p': Progress)
    requires |plan| == |turns| > 0 && p'.outcomes == p.outcomes + [o] && o.metered == plan[0].metered
    requires Tallied(p') && p'.errClass == o.errClass && o.reached && !MovesOn(o)
    ensures StopsProperly(plan, turns, p, Finished(p', false))
  {
    assert p'.outcomes[|p.outcomes|] == o;
    assert InPlanOrder(plan, p, p'.outcomes);
  }

  function Sum(shares: seq<nat>): nat {
    if shares == [] then 0 else shares[0] + Sum(shares[1..])
  }

  predicate WithinShares(turns: seq<Turn>, shares: seq<nat>) {
    |turns| == |shares| && forall i :: 0 <= i < |turns| && turns[i].Replied? ==> 0 <= turns[i].reply.cost <= shares[i]
  }

  /**
   * If every reply costs at most its share of the plan, no pattern of spillover can accumulate more than
   * the shares add up to: no addition wraps, nothing trips the accounting check, and only a
   * failed row insert makes the loop return early.
   */
  lemma {:induction false} CostStaysReserved(plan: seq<P.Attempt>, turns: seq<Turn>, max: int64, p: Progress, shares: seq<nat>)
    requires |plan| == |turns| && WithinShares(turns, shares)
    requires p.cost >= 0 && p.cost + Sum(shares) <= max
    ensures var end := AttemptLoop(plan, turns, max, p);
      && (end.Finished? ==> p.cost <= end.progress.cost <= max)
      && (end.Returned? ==> exists i :: 0 <= i < |turns| && turns[i].MarkFails?)
      && (forall i :: 0 <= i < |turns| && turns[i].Replied? ==> turns[i].reply.cost <= max)
    decreases |plan|
  {
    if plan == [] { return; }
    var rest := turns[1..];
    assert WithinShares(rest, shares[1..]);
    assert forall i :: 1 <= i < |turns| ==> turns[i] == rest[i - 1];
    if turns[0].Cancelled? || turns[0].MarkFails? {
      CostStaysReserved(plan[1..], rest, max, p, shares[1..]);
    } else {
      var p' := AfterTurn(plan, turns, max, p, shares[0]);
      CostStaysReserved(plan[1..], rest, max, p', shares[1..]);
      if AttemptLoop(plan[1..], rest, max, p').Returned? {
        var i :| 0 <= i < |rest| && rest[i].MarkFails?;
        assert turns[i + 1].MarkFails?;
      }
    }
  }

  /** One attempt within its share: the loop ends there or goes on, and the cost is the exact sum either way. */
  lemma AfterTurn(plan: seq<P.Attempt>, turns: seq<Turn>, max: int64, p: Progress, share: nat) returns (p': Progress)
    requires |plan| == |turns| > 0 && (turns[0].Replied? || turns[0].NoCredential? || turns[0].NoAdapter?)
    requires p.cost >= 0 && p.cost + share <= max && (turns[0].Replied? ==> 0 <= turns[0].reply.cost <= share)
    ensures p.cost <= p'.cost <= p.cost + share
    ensures AttemptLoop(plan, turns, max, p) == Finished(p', false)
         || AttemptLoop(plan, turns, max, p) == AttemptLoop(plan[1..], turns[1..], max, p')
  {
    if turns[0].Replied? {
      var r := turns[0].reply;
      GrowsExactly(p.cost, r.cost);
      var v := TakeReply(p, plan[0], r, max);
      p' := if v.GoOn? then v.progress else v.end.progress;
    } else {
      p' := NotReached(p, plan[0], if turns[0].NoCredential? then Credential else Provider);
    }
  }

  datatype CallStatus = CallPending | CallSucceeded | CallFailed

  /** What the settlement transaction writes. */
  datatype Report = Report(status: CallStatus, errClass: Failure, settled: int64, release: bool, unknownBill: bool, outcomes: seq<Outcome>)

  function Conclude(end: LoopEnd, max: int64): Report
    requires end.Finished?
  {
    var p := end.progress;
    var release := !p.billedAny && !end.unknownBill;
    Report(
      if p.errClass != NoFailure || end.unknownBill then CallFailed else CallSucceeded,
      if end.unknownBill && p.errClass == NoFailure then Ambiguous else p.errClass,
      if end.unknownBill then max else p.cost, release, end.unknownBill, p.outcomes)
  }

  /** What the ledger is charged in the end. */
  function Amount(rep: Report): int64 { if rep.release then 0 else rep.settled }

  predicate ChatUsage(t: Turn, a: P.Attempt, maxInput: int64, out: int64) {
    t.Replied? && t.reply.cost != 0 ==>
      exists i: int64, o: int64 :: 0 <= i <= maxInput && 0 <= o <= out && P.Charge(a, i, o) == Ok(t.reply.cost)
  }

  function ChatShares(plan: seq<P.Attempt>, maxInput: nat, out: nat): (s: seq<nat>)
    requires P.Priced(plan)
    ensures |s| == |plan| && Sum(s) == P.TrueMaximum(plan, maxInput, out)
    ensures forall i :: 0 <= i < |plan| ==> s[i] == P.TrueShare(plan[i], maxInput, out)
  {
    if plan == [] then [] else
      var rest := ChatShares(plan[1..], maxInput, out);
      [P.TrueShare(plan[0], maxInput, out)] + rest
  }

  /**
   * The promise of the reservation, from route to settlement. When the estimate of an accepted chat plan is
   * what was reserved, no input product wraps, and every attempt reports usage within the
   * route's token limits, the settled amount never exceeds the reserved maximum.
   */
  lemma ChatNeverOverspends(plan: seq<P.Attempt>, turns: seq<Turn>, maxInput: int64, out: int64, max: int64)
    requires |plan| == |turns| && P.Priced(plan) && maxInput > 0 && out > 0
    requires P.ChatTotal(plan, maxInput, out, 0) == Ok(max) && P.InputsRoundable(plan, maxInput)
    requires forall i :: 0 <= i < |plan| ==> ChatUsage(turns[i], plan[i], maxInput, out)
    ensures var end := AttemptLoop(plan, turns, max, START);
      && (end.Finished? ==> end.progress.cost <= max && Conclude(end, max).settled <= max)
      && (end.Returned? ==> exists i :: 0 <= i < |turns| && turns[i].MarkFails?)
  {
    P.EstimateIsTrueMaximum(plan, maxInput, out, 0);
    var shares := ChatShares(plan, maxInput, out);
    forall i | 0 <= i < |turns| && turns[i].Replied? ensures 0 <= turns[i].reply.cost <= shares[i] {
      if turns[i].reply.cost != 0 {
        var a := plan[i];
        var x: int64, y: int64 :| 0 <= x <= maxInput && 0 <= y <= out && P.Charge(a, x, y) == Ok(turns[i].reply.cost);
        AcceptedShare(plan, i, maxInput, out, 0);
        P.ChargeWithinShare(a, maxInput, out, x, y);
      }
    }
    CostStaysReserved(plan, turns, max, START, shares);
  }

  lemma {:induction false} AcceptedShare(plan: seq<P.Attempt>, i: nat, maxInput: int64, out: int64, total: int64)
    requires i < |plan| && P.Priced(plan) && maxInput >= 0 && out >= 0 && total >= 0
    requires P.ChatTotal(plan, maxInput, out, total).Ok? && P.InputsRoundable(plan, maxInput)
    ensures plan[i].metered ==>
      maxInput * plan[i].inPerM <= P.MAX_PRODUCT && out * plan[i].outPerM <= P.MAX_PRODUCT
    decreases |plan|
  {
    var a := plan[0];
    assert a in plan && plan == [a] + plan[1..];
    var next := total;
    if a.metered {
      P.ShareExact(a, maxInput, out);
      P.AddShareExact(total, P.ChatShare(a, maxInput, out).value);
      assert P.Roundable(maxInput, a.inPerM);
      next := total + P.ChatShare(a, maxInput, out).value;
    }
    if i > 0 { AcceptedShare(plan[1..], i - 1, maxInput, out, next); }
  }

  // ---- The condition on prices is exact --------------------------------------------------------------

  /** What the reservation promises about one way the attempts can turn out. */
  predicate KeepsPromise(plan: seq<P.Attempt>, turns: seq<Turn>, max: int64)
    requires |plan| == |turns|
  {
    var end := AttemptLoop(plan, turns, max, START);
    && (end.Finished? ==> end.progress.cost <= max && Conclude(end, max).settled <= max)
    && (end.Returned? ==> exists i :: 0 <= i < |turns| && turns[i].MarkFails?)
  }

  /** Usage within the limits that costs the most: everything, or output alone where the input price wraps. */
  function WorstCost(a: P.Attempt, maxInput: int64, out: int64): int64 {
    if !a.metered then 0
    else
      var c := P.Charge(a, if P.Roundable(maxInput, a.inPerM) then maxInput else 0, out);
      if c.Ok? then c.value else 0
  }

  lemma WorstExact(a: P.Attempt, maxInput: int64, out: int64)
    requires a.metered && a.inPerM > 0 && a.outPerM > 0 && maxInput > 0 && out > 0
    requires P.ChatShare(a, maxInput, out).Ok? && P.ChatShare(a, maxInput, out).value >= 0
    ensures ChatUsage(Rejected(WorstCost(a, maxInput, out)), a, maxInput, out)
    ensures WorstCost(a, maxInput, out) >= P.ChatShare(a, maxInput, out).value
    ensures !P.Roundable(maxInput, a.inPerM) ==> WorstCost(a, maxInput, out) > P.ChatShare(a, maxInput, out).value
  {
    P.ShareExact(a, maxInput, out);
    P.MulNonNegative(maxInput, a.inPerM);
    P.MulNonNegative(out, a.outPerM);
    P.TokensCostExact(maxInput, a.inPerM);
    P.TokensCostExact(0, a.inPerM);
    P.TokensCostExact(out, a.outPerM);
    var used: int64 := if P.Roundable(maxInput, a.inPerM) then maxInput else 0;
    assert P.Charge(a, used, out) == Ok(WorstCost(a, maxInput, out));
  }

  /** A billed attempt turned away with a class that spills over. */
  function Rejected(cost: int64): Turn { Replied(Reply(cost, true, RateLimit, true)) }

  function WorstCosts(plan: seq<P.Attempt>, maxInput: int64, out: int64): (c: seq<int64>)
    ensures |c| == |plan| && forall i :: 0 <= i < |plan| ==> c[i] == WorstCost(plan[i], maxInput, out)
  {
    seq(|plan|, i requires 0 <= i < |plan| => WorstCost(plan[i], maxInput, out))
  }

  function AllRejected(costs: seq<int64>): (t: seq<Turn>)
    ensures |t| == |costs| && forall i :: 0 <= i < |costs| ==> t[i] == Rejected(costs[i])
  {
    seq(|costs|, i requires 0 <= i < |costs| => Rejected(costs[i]))
  }

  function SumOf(costs: seq<int64>): int {
    if costs == [] then 0 else costs[0] + SumOf(costs[1..])
  }

  /** Nothing in the loop stops attempts that together cost more than was reserved. */
  lemma {:induction false} RejectedOverspend(plan: seq<P.Attempt>, costs: seq<int64>, max: int64, p: Progress)
    requires |costs| == |plan| && p.cost >= 0 && p.cost + SumOf(costs) > max
    requires forall i :: 0 <= i < |costs| ==> costs[i] >= 0
    ensures var end := AttemptLoop(plan, AllRejected(costs), max, p);
      end.Finished? ==> end.progress.cost > max && !end.unknownBill
    decreases |plan|
  {
    if plan == [] { return; }
    var turns := AllRejected(costs);
    assert turns[1..] == AllRejected(costs[1..]);
    GrowsExactly(p.cost, costs[0]);
    var v := TakeReply(p, plan[0], turns[0].reply, max);
    if v.GoOn? {
      assert v.progress.cost == p.cost + costs[0];
      RejectedOverspend(plan[1..], costs[1..], max, v.progress);
    }
  }

  /** Costs no smaller than the shares add up to at least what the shares did, and to more if one is larger. */
  lemma {:induction false} CostsAbove(shares: seq<Result<int64, P.PriceError>>, costs: seq<int64>, total: int64, max: int64)
    requires |costs| == |shares| && total >= 0 && P.SumUp(shares, total) == Ok(max) && P.NonNegative(shares)
    requires forall i :: 0 <= i < |costs| ==> costs[i] >= shares[i].value
    ensures total + SumOf(costs) >= max
    ensures (exists i :: 0 <= i < |costs| && costs[i] > shares[i].value) ==> total + SumOf(costs) > max
    decreases |shares|
  {
    if shares != [] {
      P.AddShareExact(total, shares[0].value);
      CostsAbove(shares[1..], costs[1..], total + shares[0].value, max);
      if i :| 1 <= i < |costs| && costs[i] > shares[i].value { assert costs[1..][i - 1] > shares[1..][i - 1].value; }
    }
  }

  lemma WorstSum(plan: seq<P.Attempt>, maxInput: int64, out: int64, max: int64)
    requires P.Priced(plan) && maxInput > 0 && out > 0 && !P.InputsRoundable(plan, maxInput)
    requires P.ChatTotal(plan, maxInput, out, 0) == Ok(max)
    ensures SumOf(WorstCosts(plan, maxInput, out)) > max
    ensures forall i :: 0 <= i < |plan| ==> WorstCost(plan[i], maxInput, out) >= 0
    ensures forall i :: 0 <= i < |plan| ==> ChatUsage(Rejected(WorstCost(plan[i], maxInput, out)), plan[i], maxInput, out)
  {
    var shares, costs := P.ChatShares(plan, maxInput, out), WorstCosts(plan, maxInput, out);
    P.ChatTotalIsSum(plan, maxInput, out, 0);
    P.SumNeedsShares(shares, 0);
    P.RoundableByIndex(plan, maxInput);
    forall i | 0 <= i < |plan|
      ensures costs[i] >= shares[i].value
      ensures ChatUsage(Rejected(costs[i]), plan[i], maxInput, out)
      ensures plan[i].metered && !P.Roundable(maxInput, plan[i].inPerM) ==> costs[i] > shares[i].value
    {
      assert plan[i] in plan && shares[i].Ok? && shares[i].value >= 0;
      if plan[i].metered { WorstExact(plan[i], maxInput, out); }
    }
    CostsAbove(shares, costs, 0, max);
  }

  /**
   * An accepted chat plan's reservation bounds every call that stays within the token limits exactly when no
   * input product of the plan wraps as it is rounded up, which a caller can see from the prices.
   */
  lemma ReservationBoundsIff(plan: seq<P.Attempt>, maxInput: int64, out: int64, max: int64)
    requires P.Priced(plan) && maxInput > 0 && out > 0 && P.ChatTotal(plan, maxInput, out, 0) == Ok(max)
    ensures P.InputsRoundable(plan, maxInput) <==>
      forall turns | |turns| == |plan| && AllChatUsage(turns, plan, maxInput, out) :: KeepsPromise(plan, turns, max)
  {
    if P.InputsRoundable(plan, maxInput) {
      forall turns | |turns| == |plan| && AllChatUsage(turns, plan, maxInput, out) ensures KeepsPromise(plan, turns, max) {
        ChatNeverOverspends(plan, turns, maxInput, out, max);
      }
    } else {
      var costs := WorstCosts(plan, maxInput, out);
      WorstSum(plan, maxInput, out, max);
      RejectedOverspend(plan, costs, max, START);
      assert AllChatUsage(AllRejected(costs), plan, maxInput, out);
      assert !KeepsPromise(plan, AllRejected(costs), max);
    }
  }

  predicate AllChatUsage(turns: seq<Turn>, plan: seq<P.Attempt>, maxInput: int64, out: int64)
    requires |turns| == |plan|
  {
    forall i :: 0 <= i < |plan| ==> ChatUsage(turns[i], plan[i], maxInput, out)
  }

  predicate EmbedUsage(t: Turn, a: P.Attempt, maxInput: int64) {
    t.Replied? && t.reply.cost != 0 ==> exists i: int64 :: 0 <= i <= maxInput && P.Charge(a, i, 0) == Ok(t.reply.cost)
  }

  function EmbedShares(plan: seq<P.Attempt>, maxInput: nat): (s: seq<nat>)
    ensures |s| == |plan| && Sum(s) == P.EmbedMaximum(plan, maxInput)
    ensures forall i :: 0 <= i < |plan| ==> s[i] == P.EmbedTrueShare(plan[i], maxInput)
  {
    if plan == [] then [] else
      var rest := EmbedShares(plan[1..], maxInput);
      [P.EmbedTrueShare(plan[0], maxInput)] + rest
  }

  /** The same promise for embeddings; there it needs no condition on the prices. */
  lemma EmbedNeverOverspends(plan: seq<P.Attempt>, turns: seq<Turn>, maxInput: int64, max: int64)
    requires |plan| == |turns| && maxInput > 0 && P.EmbedTotal(plan, maxInput, 0) == Ok(max)
    requires forall i :: 0 <= i < |plan| ==> EmbedUsage(turns[i], plan[i], maxInput)
    ensures var end := AttemptLoop(plan, turns, max, START);
      && (end.Finished? ==> end.progress.cost <= max && Conclude(end, max).settled <= max)
      && (end.Returned? ==> exists i :: 0 <= i < |turns| && turns[i].MarkFails?)
  {
    P.EmbedIsTrueMaximum(plan, maxInput, 0);
    var shares := EmbedShares(plan, maxInput);
    forall i | 0 <= i < |turns| && turns[i].Replied? ensures 0 <= turns[i].reply.cost <= shares[i] {
      if turns[i].reply.cost != 0 {
        var x: int64 :| 0 <= x <= maxInput && P.Charge(plan[i], x, 0) == Ok(turns[i].reply.cost);
        P.EmbedChargeWithinShare(plan[i], maxInput, x);
      }
    }
    CostStaysReserved(plan, turns, max, START, shares);
  }
}
