/**
 * From routes to budgets: the administrator's configuration, the price of a plan, the attempt loop and the ledger put
 * together over whole runs.
 */
module Spending {
  import opened Common
  import opened PaidCalls
  import opened CallRecovery
  import C = Configuration
  import L = Ledger
  import P = Pricing

  /** How a call went: its compiled route, the tokens it asked for at most, and what its attempts reported. */
  datatype Story = Story(route: C.Compiled, chat: bool, maxTokens: int64, turns: seq<Turn>)

  /** The route is what the compiler made, without complaint, of some stored route. */
  ghost predicate FromCompiler(route: C.Compiled) {
    route.error.None? && exists input, providers :: route == C.Compile(input, providers)
  }

  /** What the call reserves: Chat and Embed estimate on the route. */
  function Estimate(st: Story): Result<int64, P.PriceError> {
    var row := st.route.row;
    if st.chat then P.ChatTotal(st.route.attempts, row.maxInput, P.OutputLimit(row.maxOutput, st.maxTokens), 0)
    else P.EmbedTotal(st.route.attempts, row.maxInput, 0)
  }

  /** Every attempt reports usage within the route's token limits. */
  ghost predicate WithinLimits(st: Story)
    requires |st.turns| == |st.route.attempts|
  {
    var row := st.route.row;
    if st.chat then AllChatUsage(st.turns, st.route.attempts, row.maxInput, P.OutputLimit(row.maxOutput, st.maxTokens))
    else forall i :: 0 <= i < |st.turns| ==> EmbedUsage(st.turns[i], st.route.attempts[i], row.maxInput)
  }

  /** The report settles this story on a route that reserved `max`. For a chat, no input price of it wraps. */
  ghost predicate Explains(st: Story, rep: Report, max: int64) {
    && FromCompiler(st.route) && C.Has(st.route.row, if st.chat then C.Chat else C.Embed)
    && Estimate(st) == Ok(max)
    && |st.turns| == |st.route.attempts| && WithinLimits(st)
    && (st.chat ==> st.route.row.maxInput > 0 ==> P.InputsRoundable(st.route.attempts, st.route.row.maxInput))
    && AttemptLoop(st.route.attempts, st.turns, max, START).Finished?
    && rep == Conclude(AttemptLoop(st.route.attempts, st.turns, max, START), max)
  }

  lemma CompilerBounds(route: C.Compiled)
    requires FromCompiler(route)
    ensures route.row.maxInput > 0 && route.row.maxOutput > 0
    ensures C.Has(route.row, C.Chat) ==> P.Priced(route.attempts)
  {
    var input, providers :| route == C.Compile(input, providers);
    C.CompiledIsBounded(input, providers);
  }

  lemma StoriesRespectMaximum(st: Story, rep: Report, max: int64)
    requires Explains(st, rep, max)
    ensures Amount(rep) <= max
  {
    CompilerBounds(st.route);
    var plan, row := st.route.attempts, st.route.row;
    if st.chat {
      var out := P.OutputLimit(row.maxOutput, st.maxTokens);
      P.EstimateIsTrueMaximum(plan, row.maxInput, out, 0);
      ChatNeverOverspends(plan, st.turns, row.maxInput, out, max);
    } else {
      P.EmbedIsTrueMaximum(plan, row.maxInput, 0);
      EmbedNeverOverspends(plan, st.turns, row.maxInput, max);
    }
  }

  /** No admission test of the step wraps under budgets no looser than `b`, and what settles has such a story. */
  ghost predicate Honest(s: System, step: Step, b: L.Budgets) {
    && (step.Admit? ==> L.Tighter(step.budgets, b) && L.NoWrap(s.db.ledger, b, step.plugin, step.max, step.now))
    && (step.Finish? && step.callId in s.live ==> exists st :: Explains(st, step.report, s.live[step.callId].max))
  }

  lemma HonestIsThrifty(s: System, step: Step, b: L.Budgets)
    requires Honest(s, step, b)
    ensures Thrifty(s, step, b)
  {
    if step.Finish? && step.callId in s.live {
      var st :| Explains(st, step.report, s.live[step.callId].max);
      StoriesRespectMaximum(st, step.report, s.live[step.callId].max);
    }
  }

  /**
   * The whole way from prices to budgets. If every call is made on a route the compiler accepted, none of whose input
   * prices wraps, every provider reports usage within the route's token limits, and no admission sum
   * leaves 64 bits, then no run, whatever its spillovers, crashes and recoveries, ever
   * takes a plugin past its budget.
   */
  lemma RoutesKeepBudgets(steps: seq<Step>, b: L.Budgets)
    requires Run(FIRST_BOOT, steps).Some?
    requires forall n :: 0 <= n < |steps| && Run(FIRST_BOOT, steps[..n]).Some? ==>
      Honest(Run(FIRST_BOOT, steps[..n]).value, steps[n], b)
    ensures L.WithinBudget(Run(FIRST_BOOT, steps).value.db.ledger, b)
  {
    forall n | 0 <= n < |steps| && Run(FIRST_BOOT, steps[..n]).Some?
      ensures Thrifty(Run(FIRST_BOOT, steps[..n]).value, steps[n], b)
    {
      HonestIsThrifty(Run(FIRST_BOOT, steps[..n]).value, steps[n], b);
    }
    BudgetsHold(steps, b);
  }
}
