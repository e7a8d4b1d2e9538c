/**
 * The price of an attempt plan: internal/core/ai/compile.go.
 *
 * Every amount is an int64 number of micro-USD, so the model wraps exactly where Go wraps.
 */
module Pricing {
  import opened Common

  datatype PriceError = Unbounded

  datatype ProviderKind = OpenAICompatible | Codex | Fake | OtherKind

  datatype Attempt = Attempt(
    providerId: Text, kind: ProviderKind, baseUrl: Text, credential: Text,
    metered: bool, model: Text, inPerM: int64, outPerM: int64)

  const MILLION: int := 1_000_000

  /** The largest token-price product whose round-up does not wrap. */
  const MAX_PRODUCT: int := TWO63 - MILLION

  // ---- One token price -------------------------------------------------------------

  function TokensCost(tokens: int64, perMillion: int64): Result<int64, PriceError> {
    if tokens < 0 || perMillion <= 0 then Err(Unbounded)
    else
      var n := Wrap(tokens * perMillion);
      if tokens != 0 && TruncDiv(n, tokens) != perMillion then Err(Unbounded)
      else Ok(RoundUp(n))
  }

  /** The unguarded `(n + 999_999) / 1_000_000`. */
  function RoundUp(n: int64): int64 {
    TruncDiv(Wrap(n + 999_999), MILLION)
  }

  /** The exact cost the code means to compute. */
  function Ceiling(product: nat): (c: nat)
    ensures c * MILLION >= product && (c - 1) * MILLION < product
  {
    (product + 999_999) / MILLION
  }

  lemma CeilingMonotone(p: nat, q: nat)
    requires p <= q
    ensures Ceiling(p) <= Ceiling(q)
  {
  }

  /** Dividing a wrapped product by one factor recovers the other only when nothing wrapped. */
  lemma WrapThenDivideDetects(tokens: int64, perMillion: int64)
    requires tokens > 0 && perMillion > 0
    ensures TruncDiv(Wrap(tokens * perMillion), tokens) == perMillion
       <==> tokens * perMillion < TWO63
  {
    var p := tokens * perMillion;
    MulPositive(tokens, perMillion);
    var n := Wrap(p);
    var q := TruncDiv(n, tokens);
    if p < TWO63 {
      QuotientUnique(n, tokens, q, perMillion);
    } else if n >= 0 {
      assert q * tokens <= n < perMillion * tokens;
      MulOrder(q, perMillion, tokens);
    }
  }

  lemma MulPositive(a: int, b: int)
    requires a > 0 && b > 0
    ensures a * b > 0
  {
  }

  lemma MulOrder(a: int, b: int, d: int)
    requires d > 0 && a * d < b * d
    ensures a < b
  {
  }

  lemma QuotientUnique(n: int, d: int, q: int, m: int)
    requires d > 0 && n == d * m && q * d <= n < q * d + d
    ensures q == m
  {
    assert q * d < (m + 1) * d && m * d < (q + 1) * d;
    MulOrder(q, m + 1, d);
    MulOrder(m, q + 1, d);
  }

  /**
   * What tokensCost computes on every pair of int64 inputs. It accepts exactly the products that fit
   * in an int64, its answer is the exact ceiling exactly up to MAX_PRODUCT, and in the last
   * 999_999 products before overflow the round-up wraps and the "cost" is negative.
   */
  lemma TokensCostExact(tokens: int64, perMillion: int64)
    ensures var r := TokensCost(tokens, perMillion);
      && (r.Ok? <==> tokens >= 0 && perMillion > 0 && tokens * perMillion < TWO63)
      && (r.Ok? ==> tokens * perMillion >= 0)
      && (r.Ok? ==> (r.value == Ceiling(tokens * perMillion) <==> tokens * perMillion <= MAX_PRODUCT))
      && (r.Ok? && tokens * perMillion > MAX_PRODUCT ==> r.value <= -(MAX_PRODUCT / MILLION) + 1)
  {
    if tokens >= 0 && perMillion > 0 {
      if tokens == 0 {
        assert tokens * perMillion == 0;
      } else {
        WrapThenDivideDetects(tokens, perMillion);
        MulPositive(tokens, perMillion);
      }
      var p := tokens * perMillion;
      if p < TWO63 { RoundUpExact(p); }
    }
  }

  lemma RoundUpExact(p: int64)
    requires p >= 0
    ensures RoundUp(p) == Ceiling(p) <==> p <= MAX_PRODUCT
    ensures p > MAX_PRODUCT ==> RoundUp(p) <= -(MAX_PRODUCT / MILLION) + 1
  {
    if p > MAX_PRODUCT {
      var s := p + 999_999;
      assert TWO63 <= s < TWO63 + 999_999;
      assert Wrap(s) == s - TWO64;
    }
  }

  // ---- The maximum of a whole plan ---------------------------------------------------

  /** Output tokens a chat request may use: the route's limit, or a smaller positive request. */
  function OutputLimit(maxOutput: int64, maxTokens: int64): int64 {
    if 0 < maxTokens < maxOutput then maxTokens else maxOutput
  }

  /** One metered attempt's worst case, as estimateChat adds it up. */
  function ChatShare(a: Attempt, maxInput: int64, out: int64): Result<int64, PriceError> {
    var i := TokensCost(maxInput, a.inPerM);
    if i.Err? then i
    else
      var o := TokensCost(out, a.outPerM);
      if o.Err? then o
      else
        var sum := Wrap(i.value + o.value);
        if sum < i.value then Err(Unbounded) else Ok(sum)
  }

  function EmbedShare(a: Attempt, maxInput: int64): Result<int64, PriceError> {
    TokensCost(maxInput, a.inPerM)
  }

  function AddShare(total: int64, share: Result<int64, PriceError>): Result<int64, PriceError> {
    if share.Err? then share
    else
      var next := Wrap(total + share.value);
      if next < total then Err(Unbounded) else Ok(next)
  }

  lemma AddShareExact(total: int64, share: int64)
    requires total >= 0
    ensures AddShare(total, Ok(share)).Ok? <==> share >= 0 && total + share < TWO63
    ensures AddShare(total, Ok(share)).Ok? ==> AddShare(total, Ok(share)).value == total + share
  {
  }

  /** Left fold of the shares; `total` is the loop's running value. */
  function ChatTotal(plan: seq<Attempt>, maxInput: int64, out: int64, total: int64): Result<int64, PriceError>
    decreases |plan|
  {
    if plan == [] then Ok(total)
    else if !plan[0].metered then ChatTotal(plan[1..], maxInput, out, total)
    else
      var next := AddShare(total, ChatShare(plan[0], maxInput, out));
      if next.Err? then next else ChatTotal(plan[1..], maxInput, out, next.value)
  }

  function EmbedTotal(plan: seq<Attempt>, maxInput: int64, total: int64): Result<int64, PriceError>
    decreases |plan|
  {
    if plan == [] then Ok(total)
    else if !plan[0].metered then EmbedTotal(plan[1..], maxInput, total)
    else
      var next := AddShare(total, EmbedShare(plan[0], maxInput));
      if next.Err? then next else EmbedTotal(plan[1..], maxInput, next.value)
  }

  method EstimateChat(plan: seq<Attempt>, maxInput: int64, maxOutput: int64, maxTokens: int64)
    returns (r: Result<int64, PriceError>)
    ensures r == ChatTotal(plan, maxInput, OutputLimit(maxOutput, maxTokens), 0)
    ensures 0 < maxTokens <= maxOutput ==> r == ChatTotal(plan, maxInput, maxTokens, 0)
    ensures maxTokens <= 0 || maxTokens > maxOutput ==> r == ChatTotal(plan, maxInput, maxOutput, 0)
  {
    var out := maxOutput;
    if maxTokens > 0 && maxTokens < out { out := maxTokens; }
    var total: int64 := 0;
    for i := 0 to |plan|
      invariant ChatTotal(plan[i..], maxInput, out, total) == ChatTotal(plan, maxInput, out, 0)
    {
      assert plan[i..][1..] == plan[i + 1..];
      var a := plan[i];
      if !a.metered { continue; }
      var sum := AttemptMaximum(a, maxInput, out);
      if sum.Err? { return sum; }
      var next := Wrap(total + sum.value);
      if next < total { return Err(Unbounded); }
      total := next;
    }
    return Ok(total);
  }

  /** The body of that loop up to the attempt's own sum. */
  method AttemptMaximum(a: Attempt, maxInput: int64, out: int64) returns (r: Result<int64, PriceError>)
    ensures r == ChatShare(a, maxInput, out)
  {
    var inCost := TokensCost(maxInput, a.inPerM);
    if inCost.Err? { return inCost; }
    var outCost := TokensCost(out, a.outPerM);
    if outCost.Err? { return outCost; }
    var sum := Wrap(inCost.value + outCost.value);
    return if sum < inCost.value then Err(Unbounded) else Ok(sum);
  }

  method EstimateEmbed(plan: seq<Attempt>, maxInput: int64) returns (r: Result<int64, PriceError>)
    ensures r == EmbedTotal(plan, maxInput, 0)
  {
    var total: int64 := 0;
    for i := 0 to |plan|
      invariant EmbedTotal(plan[i..], maxInput, total) == EmbedTotal(plan, maxInput, 0)
    {
      assert plan[i..][1..] == plan[i + 1..];
      var a := plan[i];
      if !a.metered { continue; }
      var inCost := TokensCost(maxInput, a.inPerM);
      if inCost.Err? { return inCost; }
      var next := Wrap(total + inCost.value);
      if next < total { return Err(Unbounded); }
      total := next;
    }
    return Ok(total);
  }

  // ---- What the estimate is worth ------------------------------------------------------

  /** The true worst case of one attempt, in unbounded arithmetic. A subscription costs nothing. */
  function TrueShare(a: Attempt, maxInput: nat, out: nat): (c: nat)
    requires a.metered ==> a.inPerM > 0 && a.outPerM > 0
  {
    if !a.metered then 0
    else
      MulNonNegative(maxInput, a.inPerM); MulNonNegative(out, a.outPerM);
      Ceiling(maxInput * a.inPerM) + Ceiling(out * a.outPerM)
  }

  lemma MulNonNegative(a: int, b: int)
    requires a >= 0 && b >= 0
    ensures a * b >= 0
  {
  }

  predicate Priced(plan: seq<Attempt>) {
    forall a <- plan :: a.metered ==> a.inPerM > 0 && a.outPerM > 0
  }

  function TrueMaximum(plan: seq<Attempt>, maxInput: nat, out: nat): nat
    requires Priced(plan)
    decreases |plan|
  {
    if plan == [] then 0 else TrueShare(plan[0], maxInput, out) + TrueMaximum(plan[1..], maxInput, out)
  }

  /** The product is not one of the 999_999 whose round-up wraps. */
  predicate Roundable(tokens: int, perMillion: int) {
    tokens * perMillion <= MAX_PRODUCT || tokens * perMillion >= TWO63
  }

  predicate InputsRoundable(plan: seq<Attempt>, maxInput: nat) {
    forall a <- plan :: a.metered ==> Roundable(maxInput, a.inPerM)
  }

  lemma ShareExact(a: Attempt, maxInput: int64, out: int64)
    requires a.metered && a.inPerM > 0 && a.outPerM > 0 && maxInput >= 0 && out >= 0
    ensures var r := ChatShare(a, maxInput, out); var t := TrueShare(a, maxInput, out);
      && (r.Ok? ==> maxInput * a.inPerM < TWO63 && out * a.outPerM <= MAX_PRODUCT && r.value <= t)
      && (r.Ok? ==> (r.value == t <==> Roundable(maxInput, a.inPerM)))
      && (maxInput * a.inPerM <= MAX_PRODUCT && out * a.outPerM <= MAX_PRODUCT ==> r == Ok(t))
  {
    MulNonNegative(maxInput, a.inPerM);
    MulNonNegative(out, a.outPerM);
    TokensCostExact(maxInput, a.inPerM);
    TokensCostExact(out, a.outPerM);
  }

  /**
   * An accepted estimate never overstates the plan, and it is the true maximum exactly when every
   * metered input product can be rounded up without wrapping.
   */
  lemma {:induction false} EstimateIsTrueMaximum(plan: seq<Attempt>, maxInput: int64, out: int64, total: int64)
    requires Priced(plan) && maxInput >= 0 && out >= 0 && total >= 0
    ensures var r := ChatTotal(plan, maxInput, out, total);
      r.Ok? ==>
        && total <= r.value <= total + TrueMaximum(plan, maxInput, out)
        && (r.value == total + TrueMaximum(plan, maxInput, out) <==> InputsRoundable(plan, maxInput))
    decreases |plan|
  {
    if plan != [] && ChatTotal(plan, maxInput, out, total).Ok? {
      var a := plan[0];
      assert a in plan;
      if a.metered {
        ShareExact(a, maxInput, out);
        var share := ChatShare(a, maxInput, out).value;
        var next := AddShare(total, Ok(share)).value;
        assert next == total + share;
        EstimateIsTrueMaximum(plan[1..], maxInput, out, next);
      } else {
        EstimateIsTrueMaximum(plan[1..], maxInput, out, total);
      }
      assert plan == [a] + plan[1..];
    }
  }

  /** Conversely, a plan whose products all round and whose true maximum fits is always accepted. */
  lemma {:induction false} BoundedPlanAccepted(plan: seq<Attempt>, maxInput: int64, out: int64, total: int64)
    requires Priced(plan) && maxInput >= 0 && out >= 0 && total >= 0
    requires forall a <- plan :: a.metered ==>
      maxInput * a.inPerM <= MAX_PRODUCT && out * a.outPerM <= MAX_PRODUCT
    requires total + TrueMaximum(plan, maxInput, out) < TWO63
    ensures ChatTotal(plan, maxInput, out, total) == Ok(total + TrueMaximum(plan, maxInput, out))
    decreases |plan|
  {
    if plan != [] {
      var a := plan[0];
      assert a in plan;
      var t := TrueShare(a, maxInput, out);
      assert forall b <- plan[1..] :: b in plan;
      if a.metered { ShareExact(a, maxInput, out); }
      BoundedPlanAccepted(plan[1..], maxInput, out, total + t);
    }
  }

  // ---- Comparing two estimates ------------------------------------------------------------

  /** The shares the loop adds, an unmetered attempt's being zero, and the loop on shares alone. */
  function ChatShares(plan: seq<Attempt>, maxInput: int64, out: int64): (r: seq<Result<int64, PriceError>>)
    ensures |r| == |plan|
    ensures forall i :: 0 <= i < |plan| ==> r[i] == if plan[i].metered then ChatShare(plan[i], maxInput, out) else Ok(0)
  {
    seq(|plan|, i requires 0 <= i < |plan| => if plan[i].metered then ChatShare(plan[i], maxInput, out) else Ok(0))
  }

  function EmbedShares(plan: seq<Attempt>, maxInput: int64): (r: seq<Result<int64, PriceError>>)
    ensures |r| == |plan|
    ensures forall i :: 0 <= i < |plan| ==> r[i] == if plan[i].metered then EmbedShare(plan[i], maxInput) else Ok(0)
  {
    seq(|plan|, i requires 0 <= i < |plan| => if plan[i].metered then EmbedShare(plan[i], maxInput) else Ok(0))
  }

  function SumUp(shares: seq<Result<int64, PriceError>>, total: int64): Result<int64, PriceError>
    decreases |shares|
  {
    if shares == [] then Ok(total)
    else
      var next := AddShare(total, shares[0]);
      if next.Err? then next else SumUp(shares[1..], next.value)
  }

  lemma {:induction false} ChatTotalIsSum(plan: seq<Attempt>, maxInput: int64, out: int64, total: int64)
    requires total >= 0
    ensures ChatTotal(plan, maxInput, out, total) == SumUp(ChatShares(plan, maxInput, out), total)
    decreases |plan|
  {
    if plan != [] {
      var shares := ChatShares(plan, maxInput, out);
      assert shares[1..] == ChatShares(plan[1..], maxInput, out);
      AddShareExact(total, 0);
      var next := AddShare(total, shares[0]);
      if next.Ok? {
        AddShareExact(total, shares[0].value);
        ChatTotalIsSum(plan[1..], maxInput, out, next.value);
      }
    }
  }

  lemma {:induction false} EmbedTotalIsSum(plan: seq<Attempt>, maxInput: int64, total: int64)
    requires total >= 0
    ensures EmbedTotal(plan, maxInput, total) == SumUp(EmbedShares(plan, maxInput), total)
    decreases |plan|
  {
    if plan != [] {
      var shares := EmbedShares(plan, maxInput);
      assert shares[1..] == EmbedShares(plan[1..], maxInput);
      AddShareExact(total, 0);
      var next := AddShare(total, shares[0]);
      if next.Ok? {
        AddShareExact(total, shares[0].value);
        EmbedTotalIsSum(plan[1..], maxInput, next.value);
      }
    }
  }

  predicate Below(lo: seq<Result<int64, PriceError>>, hi: seq<Result<int64, PriceError>>) {
    |lo| == |hi| && forall i :: 0 <= i < |hi| && hi[i].Ok? ==> lo[i].Ok? && lo[i].value <= hi[i].value
  }

  predicate NonNegative(shares: seq<Result<int64, PriceError>>) {
    forall i :: 0 <= i < |shares| ==> shares[i].Ok? && shares[i].value >= 0
  }

  /** Share by share below an accepted sum, a sum is accepted exactly when no share is negative, and is no larger. */
  lemma {:induction false} SumBelow(lo: seq<Result<int64, PriceError>>, hi: seq<Result<int64, PriceError>>, tl: int64, th: int64)
    requires Below(lo, hi) && 0 <= tl <= th && SumUp(hi, th).Ok?
    ensures SumUp(lo, tl).Ok? <==> NonNegative(lo)
    ensures SumUp(lo, tl).Ok? ==> SumUp(lo, tl).value <= SumUp(hi, th).value
    decreases |hi|
  {
    if hi != [] {
      AddShareExact(th, hi[0].value);
      AddShareExact(tl, lo[0].value);
      assert NonNegative(lo) <==> lo[0].value >= 0 && NonNegative(lo[1..]) by { assert lo == [lo[0]] + lo[1..]; }
      if lo[0].value >= 0 { SumBelow(lo[1..], hi[1..], tl + lo[0].value, th + hi[0].value); }
    }
  }

  lemma ChatSharesBelow(plan: seq<Attempt>, maxInput: int64, lo: int64, hi: int64)
    requires Priced(plan) && maxInput >= 0 && 0 <= lo <= hi
    ensures Below(ChatShares(plan, maxInput, lo), ChatShares(plan, maxInput, hi))
  {
    forall i | 0 <= i < |plan| && plan[i].metered && ChatShare(plan[i], maxInput, hi).Ok?
      ensures ChatShare(plan[i], maxInput, lo).Ok?
      ensures ChatShare(plan[i], maxInput, lo).value <= ChatShare(plan[i], maxInput, hi).value
    {
      ShareMonotone(plan[i], maxInput, lo, hi);
    }
  }

  lemma ChatSharesRoundable(plan: seq<Attempt>, maxInput: int64, lo: int64, hi: int64)
    requires Priced(plan) && maxInput >= 0 && 0 <= lo <= hi && InputsRoundable(plan, maxInput)
    requires forall i :: 0 <= i < |plan| && plan[i].metered ==> ChatShare(plan[i], maxInput, hi).Ok?
    ensures NonNegative(ChatShares(plan, maxInput, lo))
  {
    forall i | 0 <= i < |plan| && plan[i].metered
      ensures ChatShare(plan[i], maxInput, lo).Ok? && ChatShare(plan[i], maxInput, lo).value >= 0
    {
      ShareMonotone(plan[i], maxInput, lo, hi);
      assert plan[i] in plan;
    }
  }

  lemma {:induction false} SumNeedsShares(shares: seq<Result<int64, PriceError>>, total: int64)
    requires total >= 0 && SumUp(shares, total).Ok?
    ensures NonNegative(shares)
    decreases |shares|
  {
    if shares != [] {
      AddShareExact(total, shares[0].value);
      SumNeedsShares(shares[1..], total + shares[0].value);
      assert shares == [shares[0]] + shares[1..];
    }
  }

  /** Two runs of the estimator on one plan, with fewer and with more output tokens. */
  lemma EstimateMonotone(plan: seq<Attempt>, maxInput: int64, lo: int64, hi: int64)
    requires Priced(plan) && maxInput >= 0 && 0 <= lo <= hi
    requires ChatTotal(plan, maxInput, hi, 0).Ok?
    ensures ChatTotal(plan, maxInput, lo, 0).Ok? ==>
      ChatTotal(plan, maxInput, lo, 0).value <= ChatTotal(plan, maxInput, hi, 0).value
    ensures InputsRoundable(plan, maxInput) ==> ChatTotal(plan, maxInput, lo, 0).Ok?
  {
    var sl, sh := ChatShares(plan, maxInput, lo), ChatShares(plan, maxInput, hi);
    ChatTotalIsSum(plan, maxInput, lo, 0);
    ChatTotalIsSum(plan, maxInput, hi, 0);
    ChatSharesBelow(plan, maxInput, lo, hi);
    SumBelow(sl, sh, 0, 0);
    if InputsRoundable(plan, maxInput) {
      SumNeedsShares(sh, 0);
      ChatSharesRoundable(plan, maxInput, lo, hi);
    }
  }

  lemma ShareMonotone(a: Attempt, maxInput: int64, lo: int64, hi: int64)
    requires a.metered && a.inPerM > 0 && a.outPerM > 0 && maxInput >= 0 && 0 <= lo <= hi
    requires ChatShare(a, maxInput, hi).Ok?
    ensures ChatShare(a, maxInput, lo).Ok?
    ensures ChatShare(a, maxInput, lo).value <= ChatShare(a, maxInput, hi).value
    ensures Roundable(maxInput, a.inPerM) ==> ChatShare(a, maxInput, lo).value >= 0
  {
    ShareExact(a, maxInput, hi);
    MulNonNegative(maxInput, a.inPerM);
    MulNonNegative(lo, a.outPerM);
    assert lo * a.outPerM <= hi * a.outPerM by { MulMonotone(lo, hi, a.outPerM); }
    TokensCostExact(maxInput, a.inPerM);
    TokensCostExact(lo, a.outPerM);
    TokensCostExact(hi, a.outPerM);
    CeilingMonotone(lo * a.outPerM, hi * a.outPerM);
  }

  lemma MulMonotone(a: int, b: int, c: int)
    requires a <= b && c >= 0
    ensures a * c <= b * c
  {
  }

  /**
   * Admission for every MaxTokens. A route accepted at its full output limit is admitted for every
   * request exactly when it is admitted for a one-token request; when no input product
   * wraps its round-up that is automatic. Among admitted requests the estimate is monotone.
   */
  lemma AdmittedForEveryMaxTokens(plan: seq<Attempt>, maxInput: int64, maxOutput: int64)
    requires Priced(plan) && maxInput > 0 && maxOutput > 0
    requires ChatTotal(plan, maxInput, OutputLimit(maxOutput, 0), 0).Ok?
    ensures (forall m: int64 :: ChatTotal(plan, maxInput, OutputLimit(maxOutput, m), 0).Ok?)
       <==> ChatTotal(plan, maxInput, OutputLimit(maxOutput, 1), 0).Ok?
    ensures InputsRoundable(plan, maxInput) ==> ChatTotal(plan, maxInput, OutputLimit(maxOutput, 1), 0).Ok?
  {
    if ChatTotal(plan, maxInput, 1, 0).Ok? {
      forall m: int64 ensures ChatTotal(plan, maxInput, OutputLimit(maxOutput, m), 0).Ok? {
        AdmittedBetween(plan, maxInput, 1, OutputLimit(maxOutput, m), maxOutput);
      }
    }
    if InputsRoundable(plan, maxInput) { EstimateMonotone(plan, maxInput, 1, maxOutput); }
    assert OutputLimit(maxOutput, 1) == 1;
  }

  /** A limit between two that are admitted is admitted. */
  lemma AdmittedBetween(plan: seq<Attempt>, maxInput: int64, lo: int64, mid: int64, hi: int64)
    requires Priced(plan) && maxInput >= 0 && 0 <= lo <= mid <= hi
    requires ChatTotal(plan, maxInput, lo, 0).Ok? && ChatTotal(plan, maxInput, hi, 0).Ok?
    ensures ChatTotal(plan, maxInput, mid, 0).Ok?
  {
    var sl, sm, sh := ChatShares(plan, maxInput, lo), ChatShares(plan, maxInput, mid), ChatShares(plan, maxInput, hi);
    ChatTotalIsSum(plan, maxInput, lo, 0);
    ChatTotalIsSum(plan, maxInput, mid, 0);
    ChatTotalIsSum(plan, maxInput, hi, 0);
    ChatSharesBelow(plan, maxInput, lo, mid);
    ChatSharesBelow(plan, maxInput, mid, hi);
    SumNeedsShares(sl, 0);
    SumNeedsShares(sh, 0);
    Squeezed(sl, sm, sh);
    SumBelow(sm, sh, 0, 0);
  }

  lemma Squeezed(
      sl: seq<Result<int64, PriceError>>, sm: seq<Result<int64, PriceError>>, sh: seq<Result<int64, PriceError>>)
    requires Below(sl, sm) && Below(sm, sh) && NonNegative(sl) && NonNegative(sh)
    ensures NonNegative(sm)
  {
  }

  /** On an accepted chat plan the embed estimate exists exactly when no input wraps, and is no larger. */
  lemma EmbedBelowChat(plan: seq<Attempt>, maxInput: int64, out: int64)
    requires Priced(plan) && maxInput >= 0 && out >= 0 && ChatTotal(plan, maxInput, out, 0).Ok?
    ensures EmbedTotal(plan, maxInput, 0).Ok? <==> InputsRoundable(plan, maxInput)
    ensures EmbedTotal(plan, maxInput, 0).Ok? ==>
      EmbedTotal(plan, maxInput, 0).value <= ChatTotal(plan, maxInput, out, 0).value
  {
    var se, sc := EmbedShares(plan, maxInput), ChatShares(plan, maxInput, out);
    EmbedTotalIsSum(plan, maxInput, 0);
    ChatTotalIsSum(plan, maxInput, out, 0);
    SumNeedsShares(sc, 0);
    EmbedSharesBelow(plan, maxInput, out);
    SumBelow(se, sc, 0, 0);
  }

  lemma EmbedSharesBelow(plan: seq<Attempt>, maxInput: int64, out: int64)
    requires Priced(plan) && maxInput >= 0 && out >= 0 && NonNegative(ChatShares(plan, maxInput, out))
    ensures Below(EmbedShares(plan, maxInput), ChatShares(plan, maxInput, out))
    ensures NonNegative(EmbedShares(plan, maxInput)) <==> InputsRoundable(plan, maxInput)
  {
    var se, sc := EmbedShares(plan, maxInput), ChatShares(plan, maxInput, out);
    forall i | 0 <= i < |plan|
      ensures se[i].Ok? && se[i].value <= sc[i].value
      ensures se[i].value >= 0 <==> (plan[i].metered ==> Roundable(maxInput, plan[i].inPerM))
    {
      assert sc[i].Ok?;
      if plan[i].metered { EmbedShareBelow(plan[i], maxInput, out); }
    }
    RoundableByIndex(plan, maxInput);
  }

  lemma RoundableByIndex(plan: seq<Attempt>, maxInput: nat)
    ensures InputsRoundable(plan, maxInput) <==>
      forall i :: 0 <= i < |plan| ==> (plan[i].metered ==> Roundable(maxInput, plan[i].inPerM))
  {
    assert forall i :: 0 <= i < |plan| ==> plan[i] in plan;
    assert forall a <- plan :: exists i :: 0 <= i < |plan| && plan[i] == a;
  }

  lemma EmbedShareBelow(a: Attempt, maxInput: int64, out: int64)
    requires a.metered && a.inPerM > 0 && a.outPerM > 0 && maxInput >= 0 && out >= 0
    requires ChatShare(a, maxInput, out).Ok?
    ensures EmbedShare(a, maxInput).Ok?
    ensures EmbedShare(a, maxInput).value <= ChatShare(a, maxInput, out).value
    ensures EmbedShare(a, maxInput).value >= 0 <==> Roundable(maxInput, a.inPerM)
  {
    MulNonNegative(maxInput, a.inPerM);
    MulNonNegative(out, a.outPerM);
    TokensCostExact(maxInput, a.inPerM);
    TokensCostExact(out, a.outPerM);
  }

  function EmbedTrueShare(a: Attempt, maxInput: nat): nat {
    if a.metered && a.inPerM > 0 then MulNonNegative(maxInput, a.inPerM); Ceiling(maxInput * a.inPerM) else 0
  }

  function EmbedMaximum(plan: seq<Attempt>, maxInput: nat): nat {
    if plan == [] then 0 else EmbedTrueShare(plan[0], maxInput) + EmbedMaximum(plan[1..], maxInput)
  }

  /** Unlike a chat estimate, an embed estimate that is accepted at all is always the true maximum. */
  lemma {:induction false} EmbedIsTrueMaximum(plan: seq<Attempt>, maxInput: int64, total: int64)
    requires maxInput >= 0 && total >= 0 && EmbedTotal(plan, maxInput, total).Ok?
    ensures EmbedTotal(plan, maxInput, total).value == total + EmbedMaximum(plan, maxInput)
    ensures forall i :: 0 <= i < |plan| && plan[i].metered ==> plan[i].inPerM > 0 && maxInput * plan[i].inPerM <= MAX_PRODUCT
    decreases |plan|
  {
    if plan == [] { return; }
    var a, rest := plan[0], plan[1..];
    var next := total;
    if a.metered {
      TokensCostExact(maxInput, a.inPerM);
      AddShareExact(total, EmbedShare(a, maxInput).value);
      next := total + EmbedShare(a, maxInput).value;
    }
    EmbedIsTrueMaximum(rest, maxInput, next);
    assert forall i :: 1 <= i < |plan| ==> plan[i] == rest[i - 1];
  }

  /** And a plan whose input products round and whose maximum fits is accepted for embeddings. */
  lemma {:induction false} BoundedEmbedAccepted(plan: seq<Attempt>, maxInput: int64, total: int64)
    requires maxInput >= 0 && total >= 0
    requires forall a <- plan | a.metered :: a.inPerM > 0 && maxInput * a.inPerM <= MAX_PRODUCT
    requires total + EmbedMaximum(plan, maxInput) < TWO63
    ensures EmbedTotal(plan, maxInput, total).Ok?
    decreases |plan|
  {
    if plan != [] {
      var a, rest := plan[0], plan[1..];
      assert a in plan && forall b <- rest :: b in plan;
      var next := total;
      if a.metered {
        TokensCostExact(maxInput, a.inPerM);
        AddShareExact(total, EmbedShare(a, maxInput).value);
        next := total + EmbedShare(a, maxInput).value;
      }
      BoundedEmbedAccepted(rest, maxInput, next);
    }
  }

  lemma EmbedChargeWithinShare(a: Attempt, maxInput: int64, inTok: int64)
    requires a.metered ==> a.inPerM > 0 && maxInput * a.inPerM <= MAX_PRODUCT
    requires 0 <= inTok <= maxInput
    ensures Charge(a, inTok, 0).Ok? && 0 <= Charge(a, inTok, 0).value <= EmbedTrueShare(a, maxInput)
  {
    if a.metered {
      MulMonotone(inTok, maxInput, a.inPerM);
      MulNonNegative(inTok, a.inPerM);
      TokensCostExact(inTok, a.inPerM);
      CeilingMonotone(inTok * a.inPerM, maxInput * a.inPerM);
    }
  }

  // ---- What an attempt actually costs ----------------------------------------------------

  function Charge(a: Attempt, inTok: int64, outTok: int64): Result<int64, PriceError> {
    if !a.metered then Ok(0)
    else
      var i := TokensCost(inTok, a.inPerM);
      if i.Err? || outTok == 0 || a.outPerM == 0 then i
      else
        var o := TokensCost(outTok, a.outPerM);
        if o.Err? then o
        else
          var sum := Wrap(i.value + o.value);
          if sum < i.value then Err(Unbounded) else Ok(sum)
  }

  /** What a metered attempt is charged: each kind of token at its price, rounded up; nothing for output without a price. */
  lemma ChargeExact(a: Attempt, inTok: int64, outTok: int64)
    requires inTok >= 0 && outTok >= 0 && a.inPerM > 0 && a.outPerM >= 0
    requires inTok * a.inPerM <= MAX_PRODUCT && outTok * a.outPerM <= MAX_PRODUCT
    ensures !a.metered ==> Charge(a, inTok, outTok) == Ok(0)
    ensures inTok * a.inPerM >= 0 && outTok * a.outPerM >= 0
    ensures a.metered && Ceiling(inTok * a.inPerM) + Ceiling(outTok * a.outPerM) < TWO63 ==>
      Charge(a, inTok, outTok) == Ok(Ceiling(inTok * a.inPerM) + Ceiling(outTok * a.outPerM))
  {
    CostExact(inTok, a.inPerM);
    if outTok == 0 || a.outPerM == 0 { ZeroProduct(outTok, a.outPerM); } else { CostExact(outTok, a.outPerM); }
    var i, o := Ceiling(inTok * a.inPerM), Ceiling(outTok * a.outPerM);
    if a.metered && i + o < TWO63 { ChargeSums(a, inTok, outTok, i, o); }
  }

  lemma ZeroProduct(x: int, y: int)
    requires x == 0 || y == 0
    ensures x * y == 0
  {
  }

  lemma ChargeSums(a: Attempt, inTok: int64, outTok: int64, i: int, o: int)
    requires a.metered && i >= 0 && o >= 0 && i + o < TWO63 && TokensCost(inTok, a.inPerM) == Ok(i)
    requires if outTok == 0 || a.outPerM == 0 then o == 0 else TokensCost(outTok, a.outPerM) == Ok(o)
    ensures Charge(a, inTok, outTok) == Ok(i + o)
  {
  }

  lemma CostExact(tokens: int64, perMillion: int64)
    requires tokens >= 0 && perMillion > 0 && tokens * perMillion <= MAX_PRODUCT
    ensures tokens * perMillion >= 0 && TokensCost(tokens, perMillion) == Ok(Ceiling(tokens * perMillion))
  {
    MulNonNegative(tokens, perMillion);
    TokensCostExact(tokens, perMillion);
  }

  /** Usage inside the limits is charged no more than the attempt's true share, and never fails. */
  lemma ChargeWithinShare(a: Attempt, maxInput: int64, out: int64, inTok: int64, outTok: int64)
    requires a.metered ==> a.inPerM > 0 && a.outPerM > 0
    requires 0 <= inTok <= maxInput && 0 <= outTok <= out
    requires a.metered ==> maxInput * a.inPerM <= MAX_PRODUCT && out * a.outPerM <= MAX_PRODUCT
    ensures Charge(a, inTok, outTok).Ok?
    ensures 0 <= Charge(a, inTok, outTok).value <= TrueShare(a, maxInput, out)
  {
    if a.metered {
      MulMonotone(inTok, maxInput, a.inPerM);
      MulMonotone(outTok, out, a.outPerM);
      MulNonNegative(inTok, a.inPerM);
      MulNonNegative(outTok, a.outPerM);
      TokensCostExact(inTok, a.inPerM);
      TokensCostExact(outTok, a.outPerM);
      CeilingMonotone(inTok * a.inPerM, maxInput * a.inPerM);
      CeilingMonotone(outTok * a.outPerM, out * a.outPerM);
    }
  }

  /**
   * The roundability condition is not decoration. This one-attempt plan is accepted with an estimate
   * of one micro-USD, while output alone is charged more than nine million dollars.
   */
  lemma UnderestimatedPlan(a: Attempt)
    requires a.metered && a.inPerM == TWO63 - 1 && a.outPerM == MAX_PRODUCT
    ensures ChatTotal([a], 1, 1, 0) == Ok(1)
    ensures Charge(a, 0, 1) == Ok(9_223_372_036_854)
    ensures EmbedTotal([a], 1, 0).Err?
  {
    var i := TokensCost(1, a.inPerM);
    assert i == Ok(-9_223_372_036_853) by { TokensCostExact(1, a.inPerM); assert Wrap(TWO63 - 1 + 999_999) == -TWO63 + 999_998; }
    var o := TokensCost(1, a.outPerM);
    assert o == Ok(9_223_372_036_854) by { TokensCostExact(1, a.outPerM); }
    assert ChatShare(a, 1, 1) == Ok(1);
    assert TokensCost(0, a.inPerM) == Ok(0);
    assert [a][1..] == [];
  }
}
