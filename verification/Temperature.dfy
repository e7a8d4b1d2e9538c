/**
 * Temperature-matched usage: plugins/tid/insight.go, in exact arithmetic.
 */
module Temperature {
  import opened Common

  datatype DayView = DayView(
    day: string, kwh: real, onPeak: Option<real>, high: Option<real>, low: Option<real>, avg: Option<real>)

  /** The daily high if there is one, else the average, else the low. */
  function DayTemp(d: DayView): Option<real> {
    if d.high.Some? then d.high else if d.avg.Some? then d.avg else d.low
  }

  datatype Band = Band(low: int, high: int, days: nat, kwh: real)

  function Avg(b: Band): real
    requires b.days > 0
  {
    b.kwh / b.days as real
  }

  predicate Within(t: real, low: int, high: int) { low as real <= t < high as real }

  /** The days a band counts: those with usage and with a temperature in its range. */
  predicate Counted(d: DayView, low: int, high: int) {
    d.kwh > 0.0 && DayTemp(d).Some? && Within(DayTemp(d).value, low, high)
  }

  function Days(h: seq<DayView>, low: int, high: int): nat {
    if h == [] then 0 else Days(h[..|h| - 1], low, high) + if Counted(h[|h| - 1], low, high) then 1 else 0
  }

  function Usage(h: seq<DayView>, low: int, high: int): real {
    if h == [] then 0.0
    else Usage(h[..|h| - 1], low, high) + if Counted(h[|h| - 1], low, high) then h[|h| - 1].kwh else 0.0
  }

  /** The temperature a day counts as: its high, without one its average, without either its low. */
  predicate Reads(d: DayView, t: real) {
    || d.high == Some(t)
    || (d.high.None? && d.avg == Some(t))
    || (d.high.None? && d.avg.None? && d.low == Some(t))
  }

  lemma TempMeans(d: DayView, t: real)
    ensures DayTemp(d) == Some(t) <==> Reads(d, t)
  {
  }

  /** A day counts once, with its usage, in a range its temperature falls into, unless it used nothing. */
  lemma OneDayTally(d: DayView, t: real, low: int, high: int)
    requires Reads(d, t)
    ensures var inside := d.kwh > 0.0 && low as real <= t < high as real;
      && Days([d], low, high) == (if inside then 1 else 0)
      && Usage([d], low, high) == (if inside then d.kwh else 0.0)
  {
    TempMeans(d, t);
    DayAdded([], d, low, high);
    assert [] + [d] == [d];
  }

  lemma NoTemperatureTally(d: DayView, low: int, high: int)
    requires d.high.None? && d.avg.None? && d.low.None?
    ensures Days([d], low, high) == 0 && Usage([d], low, high) == 0.0
  {
    DayAdded([], d, low, high);
    assert [] + [d] == [d];
  }

  /** Counts and usage of a range add up over the parts of a history. */
  lemma {:induction false} TalliesAdd(x: seq<DayView>, y: seq<DayView>, low: int, high: int)
    ensures Days(x + y, low, high) == Days(x, low, high) + Days(y, low, high)
    ensures Usage(x + y, low, high) == Usage(x, low, high) + Usage(y, low, high)
    decreases |y|
  {
    if y == [] {
      assert x + y == x;
    } else {
      var n := |y| - 1;
      TalliesAdd(x, y[..n], low, high);
      assert (x + y)[..|x + y| - 1] == x + y[..n];
    }
  }

  // ---- Building the bands -----------------------------------------------------------------------

  const LOWEST := -1000
  const HIGHEST := 1000
  const BAND_EDGES := [50, 60, 70, 80, 85, 90, 95, 100, 105]

  predicate Ascending(edges: seq<int>) {
    (forall e <- edges :: LOWEST < e < HIGHEST) && forall i, j :: 0 <= i < j < |edges| ==> edges[i] < edges[j]
  }

  /** Bands in order, none overlapping another. */
  predicate Disjoint(bs: seq<Band>) {
    && (forall i :: 0 <= i < |bs| ==> bs[i].low < bs[i].high)
    && forall i, j :: 0 <= i < j < |bs| ==> bs[i].high <= bs[j].low
  }

  /** Each band holds exactly the days and usage of its range. */
  predicate Tallied(bs: seq<Band>, h: seq<DayView>) {
    forall i :: 0 <= i < |bs| ==> bs[i].days == Days(h, bs[i].low, bs[i].high) && bs[i].kwh == Usage(h, bs[i].low, bs[i].high)
  }

  function Empty(edges: seq<int>, prev: int): seq<Band> {
    if edges == [] then [Band(prev, HIGHEST, 0, 0.0)]
    else [Band(prev, edges[0], 0, 0.0)] + Empty(edges[1..], edges[0])
  }

  /** The range between two neighbouring edges, or below the first or above the last. */
  predicate Between(edges: seq<int>, b: Band, k: int) {
    && 0 <= k <= |edges|
    && b.low == (if k == 0 then LOWEST else edges[k - 1])
    && b.high == (if k == |edges| then HIGHEST else edges[k])
  }

  lemma {:induction false} EmptyRange(edges: seq<int>, prev: int, k: nat)
    requires k <= |edges|
    ensures |Empty(edges, prev)| == |edges| + 1
    ensures Empty(edges, prev)[k].low == (if k == 0 then prev else edges[k - 1])
    ensures Empty(edges, prev)[k].high == (if k == |edges| then HIGHEST else edges[k])
    decreases |edges|
  {
    if edges != [] { EmptyRange(edges[1..], edges[0], if k == 0 then 0 else k - 1); }
  }

  /** Some band covers the temperature. */
  predicate Covers(bs: seq<Band>, t: real) { exists i :: 0 <= i < |bs| && Within(t, bs[i].low, bs[i].high) }

  lemma {:induction false} EmptyDisjoint(edges: seq<int>, prev: int)
    requires Ascending(edges) && prev < HIGHEST && forall e <- edges :: prev < e
    ensures Disjoint(Empty(edges, prev)) && Tallied(Empty(edges, prev), [])
    ensures forall i :: 0 <= i < |Empty(edges, prev)| ==> prev <= Empty(edges, prev)[i].low
    decreases |edges|
  {
    var bs := Empty(edges, prev);
    assert bs[0].low == prev;
    if edges == [] { return; }
    var rest := Empty(edges[1..], edges[0]);
    RestAscends(edges);
    EmptyDisjoint(edges[1..], edges[0]);
    assert forall i :: 0 < i < |bs| ==> bs[i] == rest[i - 1];
  }

  lemma RestAscends(edges: seq<int>)
    requires Ascending(edges) && edges != []
    ensures edges[0] in edges && Ascending(edges[1..]) && forall e <- edges[1..] :: edges[0] < e
  {
    assert forall i :: 0 <= i < |edges[1..]| ==> edges[1..][i] == edges[i + 1];
    assert forall e <- edges[1..] :: e in edges;
  }

  lemma {:induction false} EmptyCovers(edges: seq<int>, prev: int, t: real)
    requires Within(t, prev, HIGHEST)
    ensures Covers(Empty(edges, prev), t)
    decreases |edges|
  {
    var bs := Empty(edges, prev);
    if edges == [] || !Within(t, edges[0], HIGHEST) {
      assert Within(t, bs[0].low, bs[0].high);
    } else {
      EmptyCovers(edges[1..], edges[0], t);
      var rest := Empty(edges[1..], edges[0]);
      var i :| 0 <= i < |rest| && Within(t, rest[i].low, rest[i].high);
      assert bs[i + 1] == rest[i];
    }
  }

  predicate SameRanges(a: seq<Band>, b: seq<Band>) {
    |a| == |b| && forall i :: 0 <= i < |a| ==> a[i].low == b[i].low && a[i].high == b[i].high
  }

  lemma DayAdded(h: seq<DayView>, d: DayView, low: int, high: int)
    ensures Days(h + [d], low, high) == Days(h, low, high) + if Counted(d, low, high) then 1 else 0
    ensures Usage(h + [d], low, high) == Usage(h, low, high) + if Counted(d, low, high) then d.kwh else 0.0
  {
    assert (h + [d])[..|h|] == h;
  }

  /** The inner loop: one day goes into the first band whose range holds its temperature. */
  method AddDay(bands: seq<Band>, d: DayView, ghost h: seq<DayView>) returns (out: seq<Band>)
    requires Disjoint(bands) && Tallied(bands, h)
    ensures SameRanges(bands, out) && Tallied(out, h + [d])
  {
    out := bands;
    forall i | 0 <= i < |bands|
      ensures Days(h + [d], bands[i].low, bands[i].high) == bands[i].days + if Counted(d, bands[i].low, bands[i].high) then 1 else 0
      ensures Usage(h + [d], bands[i].low, bands[i].high) == bands[i].kwh + if Counted(d, bands[i].low, bands[i].high) then d.kwh else 0.0
    {
      DayAdded(h, d, bands[i].low, bands[i].high);
    }
    var temp := DayTemp(d);
    if temp.None? || d.kwh <= 0.0 { return; }
    for i := 0 to |bands|
      invariant out == bands
      invariant forall k :: 0 <= k < i ==> !Within(temp.value, bands[k].low, bands[k].high)
    {
      if Within(temp.value, bands[i].low, bands[i].high) {
        out := bands[i := bands[i].(days := bands[i].days + 1, kwh := bands[i].kwh + d.kwh)];
        assert forall k :: i < k < |bands| ==> !Within(temp.value, bands[k].low, bands[k].high);
        return;
      }
    }
  }

  lemma DisjointAppend(bands: seq<Band>, b: Band)
    requires Disjoint(bands) && b.low < b.high && forall x <- bands :: x.high <= b.low
    ensures Disjoint(bands + [b])
  {
    assert forall i :: 0 <= i < |bands| ==> bands[i] in bands;
  }

  method KeepNonEmpty(bands: seq<Band>) returns (out: seq<Band>)
    requires Disjoint(bands)
    ensures Disjoint(out) && forall b :: b in out <==> b in bands && b.days > 0
  {
    out := [];
    for n := 0 to |bands|
      invariant Disjoint(out) && forall b :: b in out <==> b in bands[..n] && b.days > 0
    {
      assert bands[..n + 1] == bands[..n] + [bands[n]];
      if bands[n].days > 0 {
        assert forall b <- bands[..n] :: b.high <= bands[n].low;
        DisjointAppend(out, bands[n]);
        out := out + [bands[n]];
      }
    }
    assert bands[..|bands|] == bands;
  }

  /** temperatureBands: every day into its band, then only the bands that have days. */
  method TemperatureBands(edges: seq<int>, history: seq<DayView>) returns (out: seq<Band>)
    requires Ascending(edges)
    ensures Disjoint(out) && Tallied(out, history) && forall i :: 0 <= i < |out| ==> out[i].days > 0
    ensures forall b <- out :: exists k :: Between(edges, b, k)
    ensures forall d <- history :: d.kwh > 0.0 && DayTemp(d).Some? && Within(DayTemp(d).value, LOWEST, HIGHEST) ==>
      Covers(out, DayTemp(d).value)
  {
    var bands := Empty(edges, LOWEST);
    EmptyDisjoint(edges, LOWEST);
    for n := 0 to |history|
      invariant SameRanges(Empty(edges, LOWEST), bands) && Tallied(bands, history[..n])
    {
      bands := AddDay(bands, history[n], history[..n]);
      assert history[..n + 1] == history[..n] + [history[n]];
    }
    assert history[..|history|] == history;
    out := KeepNonEmpty(bands);
    forall b <- out ensures exists k :: Between(edges, b, k) { BandRange(edges, bands, b); }
    forall d | d in history && d.kwh > 0.0 && DayTemp(d).Some? && Within(DayTemp(d).value, LOWEST, HIGHEST)
      ensures Covers(out, DayTemp(d).value)
    {
      EmptyCovers(edges, LOWEST, DayTemp(d).value);
      BandCovers(Empty(edges, LOWEST), bands, out, history, d);
    }
  }

  /** The band around a day's temperature has that day, so it is not empty and is kept. */
  lemma BandCovers(ranges: seq<Band>, bands: seq<Band>, out: seq<Band>, h: seq<DayView>, d: DayView)
    requires SameRanges(ranges, bands) && Tallied(bands, h) && forall b :: b in out <==> b in bands && b.days > 0
    requires d in h && d.kwh > 0.0 && DayTemp(d).Some? && Covers(ranges, DayTemp(d).value)
    ensures Covers(out, DayTemp(d).value)
  {
    var t := DayTemp(d).value;
    var i :| 0 <= i < |ranges| && Within(t, ranges[i].low, ranges[i].high);
    var n :| 0 <= n < |h| && h[n] == d;
    DaysPositive(h, n, bands[i].low, bands[i].high);
    assert bands[i] in out;
    var k :| 0 <= k < |out| && out[k] == bands[i];
  }

  lemma BandRange(edges: seq<int>, bands: seq<Band>, b: Band)
    requires SameRanges(Empty(edges, LOWEST), bands) && b in bands
    ensures exists k :: Between(edges, b, k)
  {
    var k :| 0 <= k < |bands| && bands[k] == b;
    EmptyRange(edges, LOWEST, 0);
    EmptyRange(edges, LOWEST, k);
    assert Between(edges, b, k);
  }

  lemma {:induction false} DaysPositive(h: seq<DayView>, n: nat, low: int, high: int)
    requires n < |h| && Counted(h[n], low, high)
    ensures Days(h, low, high) > 0
    decreases |h|
  {
    if n < |h| - 1 { DaysPositive(h[..|h| - 1], n, low, high); }
  }

  // ---- Expected usage -------------------------------------------------------------------------------

  const THICK := 3

  /** expectedKWh: the average of the first thick band around the temperature. */
  function Expected(bs: seq<Band>, temp: Option<real>): Option<real> {
    if temp.None? || bs == [] then None
    else if Within(temp.value, bs[0].low, bs[0].high) && bs[0].days >= THICK then Some(Avg(bs[0]))
    else Expected(bs[1..], temp)
  }

  /** Lexicographic order, in which day strings are compared. */
  predicate Before(a: string, b: string) {
    if b == "" then false else if a == "" then true
    else a[0] < b[0] || (a[0] == b[0] && Before(a[1..], b[1..]))
  }

  datatype Window = Window(days: nat, kwh: real, onPeak: real, temp: real, tempDays: nat, expected: real, matched: real, expectedDays: nat)

  const NO_DAYS := Window(0, 0.0, 0.0, 0.0, 0, 0.0, 0.0, 0)

  predicate Selected(d: DayView, from: string, to: string) { !Before(d.day, from) && !Before(to, d.day) }

  function AddToWindow(w: Window, d: DayView, bs: seq<Band>): Window {
    var temp := DayTemp(d);
    var e := Expected(bs, temp);
    var hit := e.Some? && d.kwh > 0.0;
    Window(
      w.days + 1, w.kwh + d.kwh, w.onPeak + if d.onPeak.Some? then d.onPeak.value else 0.0,
      w.temp + if temp.Some? then temp.value else 0.0, w.tempDays + if temp.Some? then 1 else 0,
      w.expected + if hit then e.value else 0.0, w.matched + if hit then d.kwh else 0.0,
      w.expectedDays + if hit then 1 else 0)
  }

  function Stats(h: seq<DayView>, from: string, to: string, bs: seq<Band>): Window {
    if h == [] then NO_DAYS
    else
      var w := Stats(h[..|h| - 1], from, to, bs);
      if Selected(h[|h| - 1], from, to) then AddToWindow(w, h[|h| - 1], bs) else w
  }

  method WindowStats(days: seq<DayView>, from: string, to: string, bs: seq<Band>) returns (w: Window)
    ensures w == Stats(days, from, to, bs)
  {
    w := NO_DAYS;
    for n := 0 to |days|
      invariant w == Stats(days[..n], from, to, bs)
    {
      var d := days[n];
      assert days[..n + 1][..n] == days[..n];
      if Before(d.day, from) || Before(to, d.day) { continue; }
      w := w.(days := w.days + 1, kwh := w.kwh + d.kwh);
      if d.onPeak.Some? { w := w.(onPeak := w.onPeak + d.onPeak.value); }
      var temp := DayTemp(d);
      if temp.Some? { w := w.(temp := w.temp + temp.value, tempDays := w.tempDays + 1); }
      var e := Expected(bs, temp);
      if e.Some? && d.kwh > 0.0 {
        w := w.(expected := w.expected + e.value, matched := w.matched + d.kwh, expectedDays := w.expectedDays + 1);
      }
    }
    assert days[..|days|] == days;
  }

  // ---- What the window holds ---------------------------------------------------------------------------

  /** Where two strings first differ: one ends there, or has the smaller character. */
  predicate Precedes(a: string, b: string, k: nat) {
    k <= |a| && k < |b| && a[..k] == b[..k] && (k < |a| ==> a[k] < b[k])
  }

  lemma {:induction false} BeforeMeans(a: string, b: string)
    ensures Before(a, b) <==> exists k: nat :: Precedes(a, b, k)
    decreases |a|
  {
    if b == "" || a == "" {
      if b != "" { assert Precedes(a, b, 0); }
    } else {
      BeforeMeans(a[1..], b[1..]);
      if a[0] < b[0] {
        assert Precedes(a, b, 0);
      } else if Before(a, b) {
        var k: nat :| Precedes(a[1..], b[1..], k);
        assert a[..k + 1] == [a[0]] + a[1..][..k] && b[..k + 1] == [b[0]] + b[1..][..k];
        assert Precedes(a, b, k + 1);
      } else if k: nat :| Precedes(a, b, k) {
        if k > 0 {
          assert a[..k][0] == b[..k][0];
          assert a[1..][..k - 1] == a[..k][1..] && b[1..][..k - 1] == b[..k][1..];
          assert Precedes(a[1..], b[1..], k - 1);
        }
      }
    }
  }

  function Both(a: Window, b: Window): Window {
    Window(
      a.days + b.days, a.kwh + b.kwh, a.onPeak + b.onPeak, a.temp + b.temp, a.tempDays + b.tempDays,
      a.expected + b.expected, a.matched + b.matched, a.expectedDays + b.expectedDays)
  }

  lemma StatsNext(h: seq<DayView>, d: DayView, from: string, to: string, bs: seq<Band>)
    ensures Stats(h + [d], from, to, bs) == Both(Stats(h, from, to, bs), Stats([d], from, to, bs))
  {
    assert (h + [d])[..|h|] == h;
    assert [d][..0] == [];
    assert Stats([d], from, to, bs) == if Selected(d, from, to) then AddToWindow(NO_DAYS, d, bs) else NO_DAYS;
  }

  lemma BothAssociates(a: Window, b: Window, c: Window)
    ensures Both(Both(a, b), c) == Both(a, Both(b, c))
  {
  }

  /** A window over a history is the sum of the windows over its parts, so it is determined by the single days. */
  lemma {:induction false} WindowsAdd(x: seq<DayView>, y: seq<DayView>, from: string, to: string, bs: seq<Band>)
    ensures Stats(x + y, from, to, bs) == Both(Stats(x, from, to, bs), Stats(y, from, to, bs))
    decreases |y|
  {
    if y == [] {
      assert x + y == x;
    } else {
      var n := |y| - 1;
      assert x + y == x + y[..n] + [y[n]] && y == y[..n] + [y[n]];
      WindowsAdd(x, y[..n], from, to, bs);
      StatsNext(x + y[..n], y[n], from, to, bs);
      StatsNext(y[..n], y[n], from, to, bs);
      BothAssociates(Stats(x, from, to, bs), Stats(y[..n], from, to, bs), Stats([y[n]], from, to, bs));
    }
  }

  /** The first band with at least three days around the temperature. */
  predicate Matches(bs: seq<Band>, t: real, i: nat) {
    && i < |bs| && bs[i].days >= 3 && bs[i].low as real <= t < bs[i].high as real
    && forall j :: 0 <= j < i && bs[j].days >= 3 ==> !(bs[j].low as real <= t < bs[j].high as real)
  }

  lemma {:induction false} ExpectedMeans(bs: seq<Band>, t: real)
    ensures forall i: nat | Matches(bs, t, i) :: Expected(bs, Some(t)) == Some(bs[i].kwh / bs[i].days as real)
    ensures (forall i: nat :: !Matches(bs, t, i)) ==> Expected(bs, Some(t)).None?
    decreases |bs|
  {
    if bs == [] { return; }
    var rest := bs[1..];
    ExpectedMeans(rest, t);
    if Within(t, bs[0].low, bs[0].high) && bs[0].days >= THICK {
      assert Matches(bs, t, 0);
    } else {
      forall i: nat ensures Matches(bs, t, i + 1) <==> Matches(rest, t, i) {
        if i < |rest| { assert rest[i] == bs[i + 1]; }
        MatchesLater(bs, t, i);
      }
    }
  }

  lemma MatchesLater(bs: seq<Band>, t: real, i: nat)
    requires bs != [] && !Matches(bs, t, 0)
    ensures Matches(bs, t, i + 1) <==> Matches(bs[1..], t, i)
  {
    var rest := bs[1..];
    assert forall j :: 0 <= j < |rest| ==> rest[j] == bs[j + 1];
    if Matches(rest, t, i) {
      forall j | 0 <= j < i + 1 && bs[j].days >= 3 ensures !(bs[j].low as real <= t < bs[j].high as real) {
        if j > 0 { assert rest[j - 1] == bs[j]; }
      }
    }
  }

  /** The day is neither before the first day of the window nor after the last. */
  ghost predicate InWindow(day: string, from: string, to: string) {
    !(exists k: nat :: Precedes(day, from, k)) && !(exists k: nat :: Precedes(to, day, k))
  }

  /** What one day contributes. */
  lemma OneDayWindow(d: DayView, from: string, to: string, bs: seq<Band>)
    ensures var w := Stats([d], from, to, bs);
      if !InWindow(d.day, from, to) then w == Window(0, 0.0, 0.0, 0.0, 0, 0.0, 0.0, 0)
      else
        && w.days == 1 && w.kwh == d.kwh && w.onPeak == (match d.onPeak case None => 0.0 case Some(x) => x)
        && (forall t | Reads(d, t) :: w.temp == t && w.tempDays == 1)
        && ((forall t :: !Reads(d, t)) ==> w == Window(1, d.kwh, w.onPeak, 0.0, 0, 0.0, 0.0, 0))
  {
    BeforeMeans(d.day, from);
    BeforeMeans(to, d.day);
    assert [d][..0] == [];
    forall t ensures DayTemp(d) == Some(t) <==> Reads(d, t) { TempMeans(d, t); }
    if DayTemp(d).Some? { assert Reads(d, DayTemp(d).value); }
  }

  /** The expectation for one day: that of the first thick band around its temperature, if the day used anything. */
  lemma OneDayExpected(d: DayView, t: real, from: string, to: string, bs: seq<Band>)
    requires InWindow(d.day, from, to) && Reads(d, t)
    ensures var w := Stats([d], from, to, bs);
      && (forall i: nat | Matches(bs, t, i) && d.kwh > 0.0 ::
            w.expected == bs[i].kwh / bs[i].days as real && w.matched == d.kwh && w.expectedDays == 1)
      && ((d.kwh <= 0.0 || forall i: nat :: !Matches(bs, t, i)) ==>
            w.expected == 0.0 && w.matched == 0.0 && w.expectedDays == 0)
  {
    BeforeMeans(d.day, from);
    BeforeMeans(to, d.day);
    assert [d][..0] == [];
    TempMeans(d, t);
    ExpectedMeans(bs, t);
  }

  // ---- Regrouping the sum by band ---------------------------------------------------------------------

  /** What one band expects of these days, and what they used; a thin band has no say. */
  function BandExpects(h: seq<DayView>, b: Band): real {
    if b.days >= THICK then Avg(b) * Days(h, b.low, b.high) as real else 0.0
  }

  function BandUsed(h: seq<DayView>, b: Band): real {
    if b.days >= THICK then Usage(h, b.low, b.high) else 0.0
  }

  /** The expectation of a set of days, summed band by band. */
  function ByBand(h: seq<DayView>, bs: seq<Band>): real {
    if bs == [] then 0.0 else BandExpects(h, bs[0]) + ByBand(h, bs[1..])
  }

  function UsageByBand(h: seq<DayView>, bs: seq<Band>): real {
    if bs == [] then 0.0 else BandUsed(h, bs[0]) + UsageByBand(h, bs[1..])
  }

  /** The band that holds a counted day is the only one that does. */
  lemma HeldOnce(d: DayView, bs: seq<Band>)
    requires Disjoint(bs) && bs != []
    ensures Disjoint(bs[1..])
    ensures Counted(d, bs[0].low, bs[0].high) ==> Expected(bs[1..], DayTemp(d)).None?
  {
    var b, rest := bs[0], bs[1..];
    assert forall i :: 0 <= i < |rest| ==> rest[i] == bs[i + 1];
    if Counted(d, b.low, b.high) { NotCovered(rest, DayTemp(d).value, b.high); }
  }

  /** What one more day adds to either grouping: something only if a thick band holds it. */
  lemma {:induction false} RegroupDay(h: seq<DayView>, d: DayView, bs: seq<Band>)
    requires Disjoint(bs)
    ensures ByBand(h + [d], bs) == ByBand(h, bs) + ExpectedOf(d, bs)
    ensures UsageByBand(h + [d], bs) == UsageByBand(h, bs) + MatchedOf(d, bs)
    decreases |bs|
  {
    if bs != [] {
      HeldOnce(d, bs);
      RegroupDay(h, d, bs[1..]);
      OneBand(h, d, bs[0]);
      FirstBand(d, bs);
    }
  }

  /** What the window adds for one day, to its expectation and to the usage it is compared with. */
  function ExpectedOf(d: DayView, bs: seq<Band>): real {
    var e := Expected(bs, DayTemp(d));
    if e.Some? && d.kwh > 0.0 then e.value else 0.0
  }

  function MatchedOf(d: DayView, bs: seq<Band>): real {
    if Expected(bs, DayTemp(d)).Some? && d.kwh > 0.0 then d.kwh else 0.0
  }

  predicate Counts(d: DayView, b: Band) { b.days >= THICK && Counted(d, b.low, b.high) }

  lemma FirstBand(d: DayView, bs: seq<Band>)
    requires bs != [] && (Counted(d, bs[0].low, bs[0].high) ==> Expected(bs[1..], DayTemp(d)).None?)
    ensures ExpectedOf(d, bs) == ExpectedOf(d, bs[1..]) + if Counts(d, bs[0]) then Avg(bs[0]) else 0.0
    ensures MatchedOf(d, bs) == MatchedOf(d, bs[1..]) + if Counts(d, bs[0]) then d.kwh else 0.0
  {
  }

  lemma OneBand(h: seq<DayView>, d: DayView, b: Band)
    ensures BandExpects(h + [d], b) == BandExpects(h, b) + if Counts(d, b) then Avg(b) else 0.0
    ensures BandUsed(h + [d], b) == BandUsed(h, b) + if Counts(d, b) then d.kwh else 0.0
  {
    DayAdded(h, d, b.low, b.high);
    if b.days >= THICK { Distribute(Avg(b), Days(h, b.low, b.high)); }
  }

  lemma Distribute(a: real, n: nat)
    ensures a * (n + 1) as real == a * n as real + a
  {
  }

  lemma {:induction false} NotCovered(bs: seq<Band>, t: real, high: int)
    requires t < high as real && forall i :: 0 <= i < |bs| ==> high <= bs[i].low
    ensures Expected(bs, Some(t)).None?
    decreases |bs|
  {
    if bs != [] {
      assert !Within(t, bs[0].low, bs[0].high);
      NotCovered(bs[1..], t, high);
    }
  }

  lemma {:induction false} StatsRegroup(h: seq<DayView>, from: string, to: string, bs: seq<Band>)
    requires Disjoint(bs) && forall d <- h :: Selected(d, from, to)
    ensures Stats(h, from, to, bs).expected == ByBand(h, bs) && Stats(h, from, to, bs).matched == UsageByBand(h, bs)
    decreases |h|
  {
    if h == [] {
      NoDaysByBand(bs);
    } else {
      var n := |h| - 1;
      assert forall d <- h[..n] :: d in h;
      StatsRegroup(h[..n], from, to, bs);
      RegroupDay(h[..n], h[n], bs);
      assert h == h[..n] + [h[n]] && h[n] in h;
    }
  }

  lemma {:induction false} NoDaysByBand(bs: seq<Band>)
    ensures ByBand([], bs) == 0.0 && UsageByBand([], bs) == 0.0
    decreases |bs|
  {
    if bs != [] { NoDaysByBand(bs[1..]); }
  }

  lemma {:induction false} BandsBalance(h: seq<DayView>, bs: seq<Band>)
    requires Tallied(bs, h)
    ensures ByBand(h, bs) == UsageByBand(h, bs)
    decreases |bs|
  {
    if bs != [] {
      assert Tallied(bs[1..], h) by { assert forall i :: 0 <= i < |bs[1..]| ==> bs[1..][i] == bs[i + 1]; }
      BandsBalance(h, bs[1..]);
      if bs[0].days >= THICK { AverageTimesCount(bs[0]); }
    }
  }

  lemma AverageTimesCount(b: Band)
    requires b.days > 0
    ensures Avg(b) * b.days as real == b.kwh
  {
  }

  /**
   * Over a window that covers the whole history, the temperature-matched expectation sums to exactly the usage
   * on the matched days, whatever the history and whichever bands are too thin to use. So a
   * deviation from expectation in one window is offset by the others.
   */
  lemma ExpectationBalances(history: seq<DayView>, bs: seq<Band>, from: string, to: string)
    requires Disjoint(bs) && Tallied(bs, history) && forall d <- history :: Selected(d, from, to)
    ensures Stats(history, from, to, bs).expected == Stats(history, from, to, bs).matched
  {
    StatsRegroup(history, from, to, bs);
    BandsBalance(history, bs);
  }

  /** The two methods together, on the program's own band edges. */
  method WholeHistory(history: seq<DayView>, from: string, to: string) returns (w: Window)
    requires forall d <- history :: Selected(d, from, to)
    ensures w.expected == w.matched && w.days == |history|
  {
    var bs := TemperatureBands(BAND_EDGES, history);
    w := WindowStats(history, from, to, bs);
    ExpectationBalances(history, bs, from, to);
    AllDaysCounted(history, from, to, bs);
  }

  lemma {:induction false} AllDaysCounted(h: seq<DayView>, from: string, to: string, bs: seq<Band>)
    requires forall d <- h :: Selected(d, from, to)
    ensures Stats(h, from, to, bs).days == |h|
    decreases |h|
  {
    if h != [] {
      assert h[|h| - 1] in h && forall d <- h[..|h| - 1] :: d in h;
      AllDaysCounted(h[..|h| - 1], from, to, bs);
    }
  }
}
