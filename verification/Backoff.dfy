/** The wait before a retry: backoffDelay in host/hosttest/jobs.go, over Go's 64-bit nanosecond durations. */
module Backoff {
  import opened Common

  datatype Policy = Policy(initial: int64, maximum: int64)

  function Pow2(k: nat): (r: int)
    ensures r >= 1
  {
    if k == 0 then 1 else 2 * Pow2(k - 1)
  }

  function Min(a: int, b: int): int { if a <= b then a else b }

  // ---- The loop ----------------------------------------------------------------------------------------

  /** The duration after up to `k` doublings, stopping at a positive maximum. */
  function Doubled(d: int64, maximum: int64, k: nat): int64
    decreases k
  {
    if k == 0 then d
    else
      var e := Wrap(2 * d);
      if maximum > 0 && e >= maximum then maximum else Doubled(e, maximum, k - 1)
  }

  /** The handler's own delay if it asked for one, otherwise the policy's. */
  function DelayOf(p: Policy, attempt: int, retryAfter: Option<int64>): int64 {
    if retryAfter.Some? then retryAfter.value
    else if p.initial <= 0 then 0
    else Doubled(p.initial, p.maximum, if attempt < 1 then 0 else attempt - 1)
  }

  method BackoffDelay(p: Policy, attempt: int, retryAfter: Option<int64>) returns (delay: int64)
    ensures delay == DelayOf(p, attempt, retryAfter)
    ensures retryAfter.Some? ==> delay == retryAfter.value
    ensures retryAfter.None? && p.initial <= 0 ==> delay == 0
    ensures retryAfter.None? && p.initial > 0 && attempt <= 1 ==> delay == p.initial
  {
    if retryAfter.Some? { return retryAfter.value; }
    var d: int64 := p.initial;
    if d <= 0 { return 0; }
    var i := 1;
    while i < attempt
      invariant 1 <= i && (attempt < 1 || i <= attempt)
      invariant Doubled(d, p.maximum, if attempt < 1 then 0 else attempt - i) == DelayOf(p, attempt, None)
    {
      d := Wrap(2 * d);
      if p.maximum > 0 && d >= p.maximum { return p.maximum; }
      i := i + 1;
    }
    return d;
  }

  // ---- When it is the capped exponential -----------------------------------------------------------------

  /** The first power-of-two multiple of `d`, beyond `d` itself, that is at least `m`. */
  function Reach(d: int, m: int): (r: int)
    requires d > 0
    ensures r >= 2 * d && r >= m
    decreases m - d
  {
    if 2 * d >= m then 2 * d else Reach(2 * d, m)
  }

  lemma {:induction false} DoublingExact(d: int64, m: int64, k: nat)
    requires d > 0 && m > 0 && k >= 1 && Reach(d, m) < TWO63
    ensures Doubled(d, m, k) == Min(d * Pow2(k), m)
    decreases k
  {
    var e := 2 * d;
    assert Wrap(e) == e;
    Shift(d, k);
    if e >= m {
      AtLeast(e, k - 1);
    } else if k > 1 {
      DoublingExact(e, m, k - 1);
    }
  }

  lemma Shift(d: int, k: nat)
    requires k >= 1
    ensures d * Pow2(k) == (2 * d) * Pow2(k - 1)
  {
    assert d * (2 * Pow2(k - 1)) == (2 * d) * Pow2(k - 1);
  }

  lemma AtLeast(e: int, k: nat)
    requires e > 0
    ensures e * Pow2(k) >= e
  {
    assert e * Pow2(k) - e == e * (Pow2(k) - 1);
  }

  /** If the doubling that should hit the cap does not fit 64 bits, it comes out negative and is not capped. */
  lemma {:induction false} DoublingWraps(d: int64, m: int64) returns (k: nat)
    requires d > 0 && m > 0 && Reach(d, m) >= TWO63
    ensures k >= 1 && Doubled(d, m, k) < 0 && Min(d * Pow2(k), m) > 0
    decreases m - d
  {
    if 2 * d >= m {
      k := 1;
      assert Wrap(2 * d) == 2 * d - TWO64;
      assert Doubled(Wrap(2 * d), m, 0) == Wrap(2 * d);
      assert Pow2(1) == 2 * Pow2(0);
    } else {
      var j := DoublingWraps(2 * d, m);
      k := j + 1;
      Shift(d, k);
    }
  }

  /** Every wait is min(initial * 2^(n-1), maximum): the promise in the comment above backoffDelay. */
  ghost predicate CappedExponential(p: Policy) {
    forall n: nat | n >= 1 :: DelayOf(p, n, None) == Min(p.initial * Pow2(n - 1), p.maximum)
  }

  /** The promise holds exactly when the initial wait is within the cap and the doubling that meets the cap fits. */
  lemma CappedIff(p: Policy)
    requires p.initial > 0 && p.maximum > 0
    ensures CappedExponential(p) <==> p.initial <= p.maximum && Reach(p.initial, p.maximum) < TWO63
  {
    if p.initial <= p.maximum && Reach(p.initial, p.maximum) < TWO63 {
      forall n: nat | n >= 1 ensures DelayOf(p, n, None) == Min(p.initial * Pow2(n - 1), p.maximum) {
        if n > 1 { DoublingExact(p.initial, p.maximum, n - 1); }
      }
    } else if p.initial > p.maximum {
      assert DelayOf(p, 1, None) == p.initial && p.initial * Pow2(0) == p.initial;
    } else {
      var k := DoublingWraps(p.initial, p.maximum);
      assert DelayOf(p, k + 1, None) != Min(p.initial * Pow2(k + 1 - 1), p.maximum);
    }
  }

  const TWO62: int := 0x4000_0000_0000_0000

  lemma {:induction false} ReachBelow(d: int, m: int)
    requires 0 < d < m || (d == m && d > 0)
    ensures Reach(d, m) < 2 * m || (d == m && Reach(d, m) == 2 * m)
    decreases m - d
  {
    if 2 * d < m { ReachBelow(2 * d, m); }
  }

  /** Any sensible policy qualifies; of the caps up to 2^62 ns only one pair fails, an initial wait equal to a cap of 2^62. */
  lemma SensiblePolicies(p: Policy)
    requires 0 < p.initial <= p.maximum <= TWO62
    ensures CappedExponential(p) <==> p.initial < TWO62
  {
    CappedIff(p);
    ReachBelow(p.initial, p.maximum);
  }

  /** An initial wait above the cap is used once as it is, although the policy is described as capped. */
  lemma FirstWaitIsNotCapped(p: Policy)
    requires 0 < p.maximum < p.initial && 2 * p.initial < TWO63
    ensures DelayOf(p, 1, None) == p.initial
    ensures forall n: nat | n >= 2 :: DelayOf(p, n, None) == p.maximum
  {
    forall n: nat | n >= 2 ensures DelayOf(p, n, None) == p.maximum {
      DoublingExact(p.initial, p.maximum, n - 1);
      AtLeast(p.initial, n - 1);
    }
  }

  // ---- No cap --------------------------------------------------------------------------------------------

  lemma WrapTwice(x: int)
    ensures Wrap(2 * Wrap(x)) == Wrap(2 * x)
  {
    var y := Wrap(x);
    var q := (x - y) / TWO64;
    assert x == y + q * TWO64;
    SameClass(2 * x, 2 * y, 2 * q);
  }

  lemma SameClass(a: int, b: int, q: int)
    requires a == b + q * TWO64
    ensures Wrap(a) == Wrap(b)
  {
    assert a % TWO64 == b % TWO64;
  }

  lemma {:induction false} UncappedWraps(d: int64, x: int, m: int64, k: nat)
    requires m <= 0 && d == Wrap(x)
    ensures Doubled(d, m, k) == Wrap(x * Pow2(k))
    decreases k
  {
    if k > 0 {
      WrapTwice(x);
      UncappedWraps(Wrap(2 * d), 2 * x, m, k - 1);
      Shift(x, k);
    }
  }

  /** Without a maximum the wait is the plain exponential until that leaves 64 bits, and never again after. */
  lemma UncappedIff(p: Policy, n: nat)
    requires p.initial > 0 && p.maximum <= 0 && n >= 1
    ensures DelayOf(p, n, None) == p.initial * Pow2(n - 1) <==> p.initial * Pow2(n - 1) < TWO63
  {
    UncappedWraps(p.initial, p.initial, p.maximum, n - 1);
    AtLeast(p.initial, n - 1);
  }
}
