/**
 * What a finished call settles, in terms of what happened to it and of nothing else: the end of execute in
 * internal/core/ai/dispatch.go, against the plan, the turns its attempts took and the reserved maximum.
 */
module Settlement {
  import opened Common
  import opened PaidCalls
  import P = Pricing

  /** The outcome recorded for an attempt, field by field from its plan entry and its turn. */
  predicate OutcomeIs(o: Outcome, a: P.Attempt, t: Turn, max: int64) {
    && o.metered == a.metered
    && match t
       case Cancelled => false
       case MarkFails => false
       case NoCredential => o.errClass == Credential && !o.reached && !o.billed && o.cost == 0
       case NoAdapter => o.errClass == Provider && !o.reached && !o.billed && o.cost == 0
       case Replied(r) => ReplyIs(o, r, max)
  }

  /** A cost above the maximum is an accounting failure; a failure without a class is the provider's. */
  predicate ReplyIs(o: Outcome, r: Reply, max: int64) {
    && o.reached && o.billed == r.billed && o.cost == r.cost
    && (r.cost > max ==> o.errClass == AccountingInvariant)
    && (r.cost <= max && r.failed && r.errClass == NoFailure ==> o.errClass == Provider)
    && (r.cost <= max && (!r.failed || r.errClass != NoFailure) ==> o.errClass == r.errClass)
  }

  predicate AnyBilled(outs: seq<Outcome>) { exists k :: 0 <= k < |outs| && outs[k].billed }

  /** The outcomes beyond the first `from` are those of the plan's attempts, in order. */
  predicate Described(plan: seq<P.Attempt>, turns: seq<Turn>, max: int64, from: nat, outs: seq<Outcome>)
    requires |plan| == |turns|
  {
    from <= |outs| <= from + |plan| && forall k :: from <= k < |outs| ==> OutcomeIs(outs[k], plan[k - from], turns[k - from], max)
  }

  /**
   * What is reported, charged and stored. Nothing billed is charged nothing. A bill that cannot be known, because
   * the call was cut short after something was billed, is charged the whole maximum. Any other call is
   * charged exactly what its attempts cost. It succeeded exactly when its last attempt was clean.
   */
  predicate Settles(plan: seq<P.Attempt>, turns: seq<Turn>, max: int64, rep: Report)
    requires |plan| == |turns|
  {
    var outs := rep.outcomes;
    && Described(plan, turns, max, 0, outs)
    && (rep.release <==> !AnyBilled(outs))
    && (rep.unknownBill <==> CutShort(turns, 0, outs) && AnyBilled(outs))
    && (!AnyBilled(outs) ==> Amount(rep) == 0)
    && (AnyBilled(outs) && CutShort(turns, 0, outs) ==> Amount(rep) == max)
    && (AnyBilled(outs) && !CutShort(turns, 0, outs) ==> Amount(rep) == CostSum(outs))
    && (rep.status == CallSucceeded <==> outs != [] && Clean(outs[|outs| - 1]) && !CutShort(turns, 0, outs))
    && (rep.status == CallFailed <==> outs == [] || !Clean(outs[|outs| - 1]))
    && (CutShort(turns, 0, outs) ==> rep.errClass == CallCancelled)
    && (!CutShort(turns, 0, outs) ==> outs != [] && rep.errClass == outs[|outs| - 1].errClass)
  }

  lemma {:induction false} OutcomesDescribed(plan: seq<P.Attempt>, turns: seq<Turn>, max: int64, p: Progress)
    requires |plan| == |turns|
    ensures p.outcomes <= EndOutcomes(AttemptLoop(plan, turns, max, p))
    ensures Described(plan, turns, max, |p.outcomes|, EndOutcomes(AttemptLoop(plan, turns, max, p)))
    decreases |plan|
  {
    if plan == [] || turns[0].Cancelled? || turns[0].MarkFails? { return; }
    var outs := EndOutcomes(AttemptLoop(plan, turns, max, p));
    var o, next := FirstOutcome(plan, turns, max, p);
    if next.Some? {
      OutcomesDescribed(plan[1..], turns[1..], max, next.value);
      DescribedLater(plan, turns, max, p.outcomes, o, outs);
    }
  }

  /** The first attempt's outcome, after which the loop ends or goes on from the progress returned. */
  lemma FirstOutcome(plan: seq<P.Attempt>, turns: seq<Turn>, max: int64, p: Progress) returns (o: Outcome, next: Option<Progress>)
    requires |plan| == |turns| > 0 && !turns[0].Cancelled? && !turns[0].MarkFails?
    ensures OutcomeIs(o, plan[0], turns[0], max)
    ensures next.None? ==> EndOutcomes(AttemptLoop(plan, turns, max, p)) == p.outcomes + [o]
    ensures next.Some? ==> next.value.outcomes == p.outcomes + [o]
    ensures next.Some? ==> AttemptLoop(plan, turns, max, p) == AttemptLoop(plan[1..], turns[1..], max, next.value)
  {
    if turns[0].Replied? {
      o := OutcomeOf(plan[0], turns[0].reply, max);
      ReplyUnfolds(plan, turns, max, p);
      var v := TakeReply(p, plan[0], turns[0].reply, max);
      next := if v.GoOn? then Some(v.progress) else None;
    } else {
      var failure := if turns[0].NoCredential? then Credential else Provider;
      o := Outcome(false, plan[0].metered, failure, false, 0);
      MissUnfolds(plan, turns, max, p);
      next := Some(NotReached(p, plan[0], failure));
    }
  }

  lemma DescribedLater(plan: seq<P.Attempt>, turns: seq<Turn>, max: int64, was: seq<Outcome>, o: Outcome, outs: seq<Outcome>)
    requires |plan| == |turns| > 0 && OutcomeIs(o, plan[0], turns[0], max) && was + [o] <= outs
    requires Described(plan[1..], turns[1..], max, |was| + 1, outs)
    ensures was <= outs && Described(plan, turns, max, |was|, outs)
  {
    assert outs[|was|] == (was + [o])[|was|];
    assert forall k :: |was| < k < |outs| ==> OutcomeIs(outs[k], plan[1..][k - (|was| + 1)], turns[1..][k - (|was| + 1)], max);
  }

  /** The settlement of every call that execute brings to its end. */
  lemma ConcludesProperly(plan: seq<P.Attempt>, turns: seq<Turn>, max: int64)
    requires |plan| == |turns| > 0 && AttemptLoop(plan, turns, max, START).Finished?
    ensures Settles(plan, turns, max, Conclude(AttemptLoop(plan, turns, max, START), max))
  {
    DispatchDiscipline(plan, turns, max, START);
    OutcomesDescribed(plan, turns, max, START);
  }

  /** The classes after which the next attempt is tried. */
  lemma SpilloverClasses(f: Failure)
    ensures Spillover(f) <==> f in {RateLimit, Quota, Provider5xx, Unsupported}
  {
  }
}
