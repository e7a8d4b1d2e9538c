/**
 * Merging daily readings: mergeDays in plugins/tid/parse.go, in exact arithmetic, and the way
 * plugins/tid/collect.go merges chunks that were merged already.
 */
module DayMerge {
  import opened Common

  datatype Reading = Reading(
    day: string, kwh: real, cents: Option<int>, onPeak: Option<real>, offPeak: Option<real>,
    high: Option<real>, low: Option<real>, avg: Option<real>)

  /** What is accumulated for one day; the day name itself is left empty. */
  const NOTHING := Reading([], 0.0, None, None, None, None, None, None)

  predicate Named(day: string) { |day| > 0 }

  /** addFloat: absent plus absent is absent. */
  function AddReal(a: Option<real>, b: Option<real>): Option<real> {
    if b.None? then a else if a.None? then b else Some(a.value + b.value)
  }

  function AddInt(a: Option<int>, b: Option<int>): Option<int> {
    if b.None? then a else if a.None? then b else Some(a.value + b.value)
  }

  /** keepFloat: the first one present wins. */
  function Keep(a: Option<real>, b: Option<real>): Option<real> {
    if b.None? || a.Some? then a else b
  }

  /** One reading folded into a day's accumulator. */
  function Plus(a: Reading, r: Reading): Reading {
    Reading(
      a.day, a.kwh + r.kwh, AddInt(a.cents, r.cents), AddReal(a.onPeak, r.onPeak), AddReal(a.offPeak, r.offPeak),
      Keep(a.high, r.high), Keep(a.low, r.low), Keep(a.avg, r.avg))
  }

  lemma PlusAssociates(a: Reading, b: Reading, c: Reading)
    ensures Plus(Plus(a, b), c) == Plus(a, Plus(b, c))
  {
  }

  // ---- The specification -------------------------------------------------------------------------

  /** Append the days of `g` that are not there yet, in order. */
  function Extend(f: seq<string>, g: seq<string>): seq<string> {
    if g == [] then f
    else
      var n := |g| - 1;
      var e := Extend(f, g[..n]);
      if g[n] in e then e else e + [g[n]]
  }

  /** The day names that are not empty. */
  function NamedDays(rs: seq<Reading>): seq<string> {
    if rs == [] then []
    else
      var n := |rs| - 1;
      if Named(rs[n].day) then NamedDays(rs[..n]) + [rs[n].day] else NamedDays(rs[..n])
  }

  function FirstSeen(rs: seq<Reading>): seq<string> { Extend([], NamedDays(rs)) }

  /** Everything recorded for one day, in order. */
  function DayTotal(rs: seq<Reading>, day: string): Reading {
    if rs == [] then NOTHING
    else
      var n := |rs| - 1;
      if rs[n].day == day then Plus(DayTotal(rs[..n], day), rs[n]) else DayTotal(rs[..n], day)
  }

  function Emit(rs: seq<Reading>, days: seq<string>): (out: seq<Reading>)
    ensures |out| == |days| && forall i :: 0 <= i < |days| ==> out[i] == DayTotal(rs, days[i]).(day := days[i])
  {
    seq(|days|, i requires 0 <= i < |days| => DayTotal(rs, days[i]).(day := days[i]))
  }

  /** One reading per day, in first-seen order. */
  function Merged(rs: seq<Reading>): seq<Reading> { Emit(rs, FirstSeen(rs)) }

  /** The accumulators after the readings so far. */
  ghost predicate Accumulated(rs: seq<Reading>, order: seq<string>, seen: map<string, Reading>) {
    && order == FirstSeen(rs)
    && (forall d :: d in order <==> d in seen)
    && (forall d <- seen :: seen[d] == DayTotal(rs, d))
  }

  /** mergeDays as it is written: one pass over a map of accumulators, then one over the order. */
  method MergeDays(rs: seq<Reading>) returns (out: seq<Reading>)
    ensures out == Merged(rs)
  {
    var order: seq<string> := [];
    var seen: map<string, Reading> := map[];
    for n := 0 to |rs|
      invariant Accumulated(rs[..n], order, seen)
    {
      var r := rs[n];
      assert rs[..n + 1] == rs[..n] + [r];
      if !Named(r.day) {
        SkipNameless(rs[..n], r, order, seen);
        continue;
      }
      AddNamed(rs[..n], r, order, seen);
      var a := if r.day in seen then seen[r.day] else NOTHING;
      if r.day !in seen { order := order + [r.day]; }
      seen := seen[r.day := Plus(a, r)];
    }
    assert rs[..|rs|] == rs;
    out := [];
    for n := 0 to |order|
      invariant |out| == n && forall i :: 0 <= i < n ==> out[i] == seen[order[i]].(day := order[i])
    {
      assert order[n] in order;
      out := out + [seen[order[n]].(day := order[n])];
    }
    assert forall i :: 0 <= i < |order| ==> order[i] in order;
  }

  lemma SkipNameless(rs: seq<Reading>, r: Reading, order: seq<string>, seen: map<string, Reading>)
    requires Accumulated(rs, order, seen) && !Named(r.day)
    ensures Accumulated(rs + [r], order, seen)
  {
    OrderOneMore(rs, r);
    NamedAreNamed(rs);
    forall d <- seen ensures seen[d] == DayTotal(rs + [r], d) { TotalOneMore(rs, r, d); }
  }

  lemma AddNamed(rs: seq<Reading>, r: Reading, order: seq<string>, seen: map<string, Reading>)
    requires Accumulated(rs, order, seen) && Named(r.day)
    ensures r.day in seen ==> Accumulated(rs + [r], order, seen[r.day := Plus(seen[r.day], r)])
    ensures r.day !in seen ==> Accumulated(rs + [r], order + [r.day], seen[r.day := Plus(NOTHING, r)])
  {
    OrderOneMore(rs, r);
    if r.day !in seen {
      ExtendMembers([], NamedDays(rs));
      TotalUnseen(rs, r.day);
    }
    var a := if r.day in seen then seen[r.day] else NOTHING;
    assert a == DayTotal(rs, r.day);
    TotalsOneMore(rs, r, seen, a);
  }

  lemma TotalsOneMore(rs: seq<Reading>, r: Reading, seen: map<string, Reading>, a: Reading)
    requires a == DayTotal(rs, r.day) && forall d <- seen :: seen[d] == DayTotal(rs, d)
    ensures var seen' := seen[r.day := Plus(a, r)]; forall d <- seen' :: seen'[d] == DayTotal(rs + [r], d)
  {
    forall d <- seen[r.day := Plus(a, r)] ensures seen[r.day := Plus(a, r)][d] == DayTotal(rs + [r], d) { TotalOneMore(rs, r, d); }
  }

  lemma OrderOneMore(rs: seq<Reading>, r: Reading)
    ensures !Named(r.day) || r.day in FirstSeen(rs) ==> FirstSeen(rs + [r]) == FirstSeen(rs)
    ensures Named(r.day) && r.day !in FirstSeen(rs) ==> FirstSeen(rs + [r]) == FirstSeen(rs) + [r.day]
  {
    assert (rs + [r])[..|rs|] == rs;
    var g := NamedDays(rs);
    assert (g + [r.day])[..|g|] == g;
  }

  lemma TotalOneMore(rs: seq<Reading>, r: Reading, d: string)
    ensures DayTotal(rs + [r], d) == if r.day == d then Plus(DayTotal(rs, d), r) else DayTotal(rs, d)
  {
    assert (rs + [r])[..|rs|] == rs;
  }

  lemma {:induction false} NamedAreNamed(rs: seq<Reading>)
    ensures forall d <- FirstSeen(rs) :: Named(d)
    decreases |rs|
  {
    if rs != [] {
      var n := |rs| - 1;
      NamedAreNamed(rs[..n]);
      OrderOneMore(rs[..n], rs[n]);
      assert rs == rs[..n] + [rs[n]];
    }
  }

  // ---- Order: merging twice keeps first-seen order ---------------------------------------------------

  lemma {:induction false} ExtendMembers(f: seq<string>, g: seq<string>)
    ensures forall d :: d in Extend(f, g) <==> d in f || d in g
    decreases |g|
  {
    if g != [] {
      ExtendMembers(f, g[..|g| - 1]);
      assert g == g[..|g| - 1] + [g[|g| - 1]];
    }
  }

  lemma {:induction false} ExtendDistinct(f: seq<string>, g: seq<string>)
    requires forall i, j :: 0 <= i < j < |f| ==> f[i] != f[j]
    ensures forall i, j :: 0 <= i < j < |Extend(f, g)| ==> Extend(f, g)[i] != Extend(f, g)[j]
    decreases |g|
  {
    if g != [] { ExtendDistinct(f, g[..|g| - 1]); }
  }

  /** Days come out in the order they were first seen: some prefix has the earlier one and not the later. */
  lemma {:induction false} OrderIsFirstSeen(g: seq<string>, i: nat, j: nat) returns (k: nat)
    requires i < j < |Extend([], g)|
    ensures k <= |g| && Extend([], g)[i] in g[..k] && Extend([], g)[j] !in g[..k]
    decreases |g|
  {
    var n := |g| - 1;
    var e := Extend([], g[..n]);
    if j < |e| {
      k := OrderIsFirstSeen(g[..n], i, j);
      assert g[..n][..k] == g[..k];
    } else {
      k := n;
      ExtendMembers([], g[..n]);
      assert e[i] in e;
    }
  }

  lemma {:induction false} ExtendConcat(f: seq<string>, g: seq<string>, h: seq<string>)
    ensures Extend(f, g + h) == Extend(Extend(f, g), h)
    decreases |h|
  {
    if h == [] {
      assert g + h == g;
    } else {
      var n := |h| - 1;
      assert (g + h)[..|g + h| - 1] == g + h[..n];
      ExtendConcat(f, g, h[..n]);
    }
  }

  lemma {:induction false} ExtendTwice(f: seq<string>, g: seq<string>)
    ensures Extend(f, Extend([], g)) == Extend(f, g)
    decreases |g|
  {
    if g != [] {
      var n := |g| - 1;
      var e := Extend([], g[..n]);
      ExtendTwice(f, g[..n]);
      ExtendMembers([], g[..n]);
      ExtendMembers(f, g[..n]);
      if g[n] !in e { assert (e + [g[n]])[..|e|] == e; }
    }
  }

  lemma {:induction false} NamedConcat(x: seq<Reading>, y: seq<Reading>)
    ensures NamedDays(x + y) == NamedDays(x) + NamedDays(y)
    decreases |y|
  {
    if y == [] {
      assert x + y == x;
    } else {
      assert (x + y)[..|x + y| - 1] == x + y[..|y| - 1];
      NamedConcat(x, y[..|y| - 1]);
    }
  }

  lemma {:induction false} NamedOfEmit(rs: seq<Reading>, days: seq<string>)
    requires forall d <- days :: Named(d)
    ensures NamedDays(Emit(rs, days)) == days
    decreases |days|
  {
    if days != [] {
      var n := |days| - 1;
      assert Emit(rs, days)[..n] == Emit(rs, days[..n]);
      NamedOfEmit(rs, days[..n]);
      assert days[n] in days && days == days[..n] + [days[n]];
    }
  }

  // ---- Totals: a merged day stands for all its readings ---------------------------------------------------

  lemma {:induction false} TotalConcat(x: seq<Reading>, y: seq<Reading>, d: string)
    ensures DayTotal(x + y, d) == Plus(DayTotal(x, d), DayTotal(y, d))
    decreases |y|
  {
    if y == [] {
      assert x + y == x;
      TotalNameless(x, d);
    } else {
      var n := |y| - 1;
      assert (x + y)[..|x + y| - 1] == x + y[..n];
      TotalConcat(x, y[..n], d);
      if y[n].day == d { PlusAssociates(DayTotal(x, d), DayTotal(y[..n], d), y[n]); }
    }
  }

  lemma {:induction false} TotalNameless(x: seq<Reading>, d: string)
    ensures DayTotal(x, d).day == []
    decreases |x|
  {
    if x != [] { TotalNameless(x[..|x| - 1], d); }
  }

  lemma {:induction false} TotalOfEmit(rs: seq<Reading>, days: seq<string>, d: string)
    requires forall i, j :: 0 <= i < j < |days| ==> days[i] != days[j]
    ensures DayTotal(Emit(rs, days), d) == if d in days then DayTotal(rs, d) else NOTHING
    decreases |days|
  {
    if days != [] {
      var n := |days| - 1;
      assert Emit(rs, days)[..n] == Emit(rs, days[..n]);
      TotalOfEmit(rs, days[..n], d);
      assert days == days[..n] + [days[n]];
      if days[n] == d { TotalNameless(rs, d); }
    }
  }

  lemma {:induction false} TotalUnseen(rs: seq<Reading>, d: string)
    requires Named(d) && d !in NamedDays(rs)
    ensures DayTotal(rs, d) == NOTHING
    decreases |rs|
  {
    if rs != [] {
      assert d !in NamedDays(rs[..|rs| - 1]);
      assert Named(rs[|rs| - 1].day) ==> rs[|rs| - 1].day in NamedDays(rs);
      TotalUnseen(rs[..|rs| - 1], d);
    }
  }

  // ---- Merging merged chunks ------------------------------------------------------------------------------

  /** Two inputs that no merge can tell apart. */
  ghost predicate Same(x: seq<Reading>, y: seq<Reading>) {
    FirstSeen(x) == FirstSeen(y) && forall d :: Named(d) ==> DayTotal(x, d) == DayTotal(y, d)
  }

  lemma SameMerge(x: seq<Reading>, y: seq<Reading>)
    requires Same(x, y)
    ensures Merged(x) == Merged(y)
  {
    NamedAreNamed(x);
    var days := FirstSeen(x);
    assert forall i :: 0 <= i < |days| ==> days[i] in days;
  }

  lemma MergedIsSame(rs: seq<Reading>)
    ensures Same(Merged(rs), rs)
  {
    var days := FirstSeen(rs);
    NamedAreNamed(rs);
    NamedOfEmit(rs, days);
    ExtendTwice([], NamedDays(rs));
    ExtendDistinct([], NamedDays(rs));
    ExtendMembers([], NamedDays(rs));
    forall d | Named(d) ensures DayTotal(Merged(rs), d) == DayTotal(rs, d) {
      TotalOfEmit(rs, days, d);
      if d !in days { TotalUnseen(rs, d); }
    }
  }

  lemma SameConcat(x: seq<Reading>, x': seq<Reading>, y: seq<Reading>, y': seq<Reading>)
    requires Same(x, x') && Same(y, y')
    ensures Same(x + y, x' + y')
  {
    FirstSeenConcat(x, y);
    FirstSeenConcat(x', y');
    forall d | Named(d) ensures DayTotal(x + y, d) == DayTotal(x' + y', d) {
      TotalConcat(x, y, d);
      TotalConcat(x', y', d);
    }
  }

  lemma FirstSeenConcat(x: seq<Reading>, y: seq<Reading>)
    ensures FirstSeen(x + y) == Extend(FirstSeen(x), FirstSeen(y))
  {
    NamedConcat(x, y);
    ExtendConcat([], NamedDays(x), NamedDays(y));
    ExtendTwice(FirstSeen(x), NamedDays(y));
  }

  function Concat(chunks: seq<seq<Reading>>): seq<Reading> {
    if chunks == [] then [] else chunks[0] + Concat(chunks[1..])
  }

  function MergeEach(chunks: seq<seq<Reading>>): seq<seq<Reading>> {
    if chunks == [] then [] else [Merged(chunks[0])] + MergeEach(chunks[1..])
  }

  lemma {:induction false} ChunksAreSame(chunks: seq<seq<Reading>>)
    ensures Same(Concat(MergeEach(chunks)), Concat(chunks))
    decreases |chunks|
  {
    if chunks != [] {
      ChunksAreSame(chunks[1..]);
      MergedIsSame(chunks[0]);
      SameConcat(Merged(chunks[0]), chunks[0], Concat(MergeEach(chunks[1..])), Concat(chunks[1..]));
      assert MergeEach(chunks)[1..] == MergeEach(chunks[1..]);
    }
  }

  /** Merging already-merged chunks gives exactly what merging the raw readings would have given. */
  lemma MergingChunksIsMergingAll(chunks: seq<seq<Reading>>)
    ensures Merged(Concat(MergeEach(chunks))) == Merged(Concat(chunks))
  {
    ChunksAreSame(chunks);
    SameMerge(Concat(MergeEach(chunks)), Concat(chunks));
  }

  // ---- Conservation ------------------------------------------------------------------------------------------

  datatype Measure = KWh | Cents | OnPeak | OffPeak

  /** The number a measure reads off one reading; an absent amount counts as zero. */
  function Amount(m: Measure, r: Reading): real {
    match m
    case KWh => r.kwh
    case Cents => if r.cents.Some? then r.cents.value as real else 0.0
    case OnPeak => if r.onPeak.Some? then r.onPeak.value else 0.0
    case OffPeak => if r.offPeak.Some? then r.offPeak.value else 0.0
  }

  /** The total over the readings that name a day. */
  function Total(m: Measure, rs: seq<Reading>): real {
    if rs == [] then 0.0
    else
      var n := |rs| - 1;
      Total(m, rs[..n]) + if Named(rs[n].day) then Amount(m, rs[n]) else 0.0
  }

  function SumDays(m: Measure, rs: seq<Reading>, days: seq<string>): real {
    if days == [] then 0.0
    else SumDays(m, rs, days[..|days| - 1]) + Amount(m, DayTotal(rs, days[|days| - 1]))
  }

  lemma AmountAdds(m: Measure, a: Reading, r: Reading)
    ensures Amount(m, Plus(a, r)) == Amount(m, a) + Amount(m, r)
  {
  }

  /** One more reading raises the sum over distinct days by its amount if its day is among them. */
  lemma {:induction false} SumOneMore(m: Measure, rs: seq<Reading>, r: Reading, days: seq<string>)
    requires forall i, j :: 0 <= i < j < |days| ==> days[i] != days[j]
    ensures SumDays(m, rs + [r], days) == SumDays(m, rs, days) + if r.day in days then Amount(m, r) else 0.0
    decreases |days|
  {
    if days != [] {
      var n := |days| - 1;
      SumOneMore(m, rs, r, days[..n]);
      TotalOneMore(rs, r, days[n]);
      AmountAdds(m, DayTotal(rs, days[n]), r);
      assert days == days[..n] + [days[n]];
    }
  }

  /** A day seen for the first time brings in exactly its one reading. */
  lemma SumNewDay(m: Measure, rs: seq<Reading>, r: Reading, days: seq<string>)
    requires Named(r.day) && r.day !in NamedDays(rs)
    ensures SumDays(m, rs + [r], days + [r.day]) == SumDays(m, rs + [r], days) + Amount(m, r)
  {
    assert (days + [r.day])[..|days|] == days;
    TotalUnseen(rs, r.day);
    TotalOneMore(rs, r, r.day);
    AmountAdds(m, NOTHING, r);
  }

  /** One more reading raises the sum over the first-seen days by its amount, if it names a day. */
  lemma SumOfFirstSeen(m: Measure, rs: seq<Reading>, r: Reading)
    ensures SumDays(m, rs + [r], FirstSeen(rs + [r]))
         == SumDays(m, rs, FirstSeen(rs)) + if Named(r.day) then Amount(m, r) else 0.0
  {
    var days := FirstSeen(rs);
    assert forall i, j :: 0 <= i < j < |days| ==> days[i] != days[j] by { ExtendDistinct([], NamedDays(rs)); }
    SumOneMore(m, rs, r, days);
    OrderOneMore(rs, r);
    if !Named(r.day) {
      NamedAreNamed(rs);
    } else if r.day !in days {
      ExtendMembers([], NamedDays(rs));
      SumNewDay(m, rs, r, days);
    }
  }

  lemma {:induction false} SumIsTotal(m: Measure, rs: seq<Reading>)
    ensures SumDays(m, rs, FirstSeen(rs)) == Total(m, rs)
    decreases |rs|
  {
    if rs != [] {
      var before, r := rs[..|rs| - 1], rs[|rs| - 1];
      SumIsTotal(m, before);
      SumOfFirstSeen(m, before, r);
      TotalNext(m, before, r);
      assert rs == before + [r];
    }
  }

  lemma TotalNext(m: Measure, rs: seq<Reading>, r: Reading)
    ensures Total(m, rs + [r]) == Total(m, rs) + if Named(r.day) then Amount(m, r) else 0.0
  {
    assert (rs + [r])[..|rs|] == rs;
  }

  lemma {:induction false} TotalOfMerged(m: Measure, rs: seq<Reading>, days: seq<string>)
    requires forall d <- days :: Named(d)
    ensures Total(m, Emit(rs, days)) == SumDays(m, rs, days)
    decreases |days|
  {
    if days != [] {
      var n := |days| - 1;
      assert Emit(rs, days)[..n] == Emit(rs, days[..n]);
      TotalOfMerged(m, rs, days[..n]);
      assert days[n] in days;
    }
  }

  /** Merging conserves energy, money and peak usage; nothing is counted twice or dropped. */
  lemma MergeConserves(m: Measure, rs: seq<Reading>)
    ensures Total(m, Merged(rs)) == Total(m, rs)
  {
    NamedAreNamed(rs);
    TotalOfMerged(m, rs, FirstSeen(rs));
    SumIsTotal(m, rs);
  }

  // ---- Day by day --------------------------------------------------------------------------------------------

  /** What the readings of one day add up to. */
  function DaySum(m: Measure, rs: seq<Reading>, d: string): real {
    if rs == [] then 0.0 else (if rs[0].day == d then Amount(m, rs[0]) else 0.0) + DaySum(m, rs[1..], d)
  }

  predicate Present(m: Measure, r: Reading) {
    match m case KWh => true case Cents => r.cents.Some? case OnPeak => r.onPeak.Some? case OffPeak => r.offPeak.Some?
  }

  lemma {:induction false} DayTotalExact(m: Measure, rs: seq<Reading>, d: string)
    ensures Amount(m, DayTotal(rs, d)) == DaySum(m, rs, d)
    ensures m != KWh ==> (Present(m, DayTotal(rs, d)) <==> exists r <- rs :: r.day == d && Present(m, r))
    decreases |rs|
  {
    if rs != [] {
      DayTotalExact(m, rs[1..], d);
      TotalConcat([rs[0]], rs[1..], d);
      assert [rs[0]] + rs[1..] == rs && [rs[0]][..0] == [];
      AmountAdds(m, DayTotal([rs[0]], d), DayTotal(rs[1..], d));
      AmountAdds(m, NOTHING, rs[0]);
      assert forall r :: r in rs <==> r == rs[0] || r in rs[1..];
    }
  }

  /**
   * One merged reading for each day some reading names, and no other: it has an amount exactly when one of them has,
   * and the amount is their sum.
   */
  lemma MergedExact(m: Measure, rs: seq<Reading>, d: string)
    ensures (exists x <- Merged(rs) :: x.day == d) <==> Named(d) && exists r <- rs :: r.day == d
    ensures forall i, j :: 0 <= i < j < |Merged(rs)| ==> Merged(rs)[i].day != Merged(rs)[j].day
    ensures forall x <- Merged(rs) | x.day == d :: Amount(m, x) == DaySum(m, rs, d)
    ensures m != KWh ==>
      forall x <- Merged(rs) | x.day == d :: Present(m, x) <==> exists r <- rs :: r.day == d && Present(m, r)
  {
    var days := FirstSeen(rs);
    ExtendDistinct([], NamedDays(rs));
    ExtendMembers([], NamedDays(rs));
    NamedMembers(rs, d);
    DayTotalExact(m, rs, d);
    if d in days {
      var i :| 0 <= i < |days| && days[i] == d;
      assert Merged(rs)[i] in Merged(rs);
    }
  }

  lemma {:induction false} NamedMembers(rs: seq<Reading>, d: string)
    ensures d in NamedDays(rs) <==> Named(d) && exists r <- rs :: r.day == d
    decreases |rs|
  {
    if rs != [] {
      var n := |rs| - 1;
      NamedMembers(rs[..n], d);
      assert forall r :: r in rs <==> r in rs[..n] || r == rs[n];
    }
  }

  // ---- Temperatures ---------------------------------------------------------------------------------------------

  datatype Which = High | Low | Average

  function Temp(w: Which, r: Reading): Option<real> {
    match w case High => r.high case Low => r.low case Average => r.avg
  }

  /** The first temperature recorded for the day, reading forwards. */
  function FirstTemp(w: Which, rs: seq<Reading>, d: string): Option<real> {
    if rs == [] then None
    else if rs[0].day == d && Temp(w, rs[0]).Some? then Temp(w, rs[0])
    else FirstTemp(w, rs[1..], d)
  }

  /** The merged day carries exactly the first temperature present, which a sum would have spoiled. */
  lemma {:induction false} FirstTemperatureSurvives(w: Which, rs: seq<Reading>, d: string)
    ensures Temp(w, DayTotal(rs, d)) == FirstTemp(w, rs, d)
    decreases |rs|
  {
    if rs != [] {
      FirstTemperatureSurvives(w, rs[1..], d);
      TotalConcat([rs[0]], rs[1..], d);
      assert [rs[0]] + rs[1..] == rs && [rs[0]][..0] == [];
    }
  }
}
