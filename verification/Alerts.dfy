/**
 * Closing alerts for saved lots: plugins/bidrl/warn.go.
 *
 * Instants and lead times are nanoseconds. A close time that does not parse is None. The alert table's unique
 * key is (lot, lead in whole seconds), and its CHECK keeps zero-second rows out.
 */
module Alerts {
  import opened Common

  const SECOND: int := 1_000_000_000

  function Seconds(lead: nat): nat { lead / SECOND }

  predicate EndingWithin(ends: Option<int>, now: int, window: nat) {
    ends.Some? && now <= ends.value <= now + window
  }

  // ---- The schedule --------------------------------------------------------------------------

  predicate Ascending(stages: seq<nat>) { forall i, j :: 0 <= i < j < |stages| ==> stages[i] < stages[j] }

  function Insert(stages: seq<nat>, lead: nat): seq<nat> {
    if stages == [] || lead < stages[0] then [lead] + stages else [stages[0]] + Insert(stages[1..], lead)
  }

  lemma {:induction false} InsertExact(stages: seq<nat>, lead: nat)
    requires Ascending(stages) && lead !in stages
    ensures Ascending(Insert(stages, lead))
    ensures forall d :: d in Insert(stages, lead) <==> d == lead || d in stages
    decreases |stages|
  {
    if stages == [] || lead < stages[0] { return; }
    var rest := Insert(stages[1..], lead);
    InsertExact(stages[1..], lead);
    assert forall i :: 0 <= i < |stages[1..]| ==> stages[1..][i] == stages[i + 1];
    assert forall d <- stages[1..] :: stages[0] < d;
    AscendingCons(stages[0], rest);
    assert forall d :: d in stages <==> d == stages[0] || d in stages[1..];
  }

  lemma AscendingCons(d: nat, rest: seq<nat>)
    requires Ascending(rest) && forall e <- rest :: d < e
    ensures Ascending([d] + rest)
  {
    assert forall i :: 0 <= i < |rest| ==> rest[i] in rest;
  }

  /** warnStages: unusable and repeated leads are skipped, the rest sorted tightest first. */
  method WarnStages(configured: seq<int>) returns (stages: seq<nat>)
    ensures Ascending(stages)
    ensures forall d :: d in stages <==> d > 0 && d in configured
  {
    stages := [];
    for i := 0 to |configured|
      invariant Ascending(stages)
      invariant forall d :: d in stages <==> d > 0 && d in configured[..i]
    {
      var d := configured[i];
      assert configured[..i + 1] == configured[..i] + [d];
      if d <= 0 || d in stages { continue; }
      InsertExact(stages, d);
      stages := Insert(stages, d);
    }
    assert configured[..|configured|] == configured;
  }

  // ---- Choosing a stage ------------------------------------------------------------------------

  /** What a worker read about one lot, possibly long ago. */
  datatype Candidate = Candidate(ends: Option<int>, alerted: set<nat>)

  predicate Due(c: Candidate, lead: nat, now: int) {
    Seconds(lead) !in c.alerted && EndingWithin(c.ends, now, lead)
  }

  function DueFrom(c: Candidate, stages: seq<nat>, now: int, i: nat): Option<nat>
    requires i <= |stages|
    decreases |stages| - i
  {
    if i == |stages| then None
    else if Due(c, stages[i], now) then Some(i)
    else DueFrom(c, stages, now, i + 1)
  }

  /** dueStage finds the tightest due stage exactly when there is one. */
  method DueStage(c: Candidate, stages: seq<nat>, now: int) returns (r: Option<nat>)
    ensures r == DueFrom(c, stages, now, 0)
    ensures r.None? <==> forall j :: 0 <= j < |stages| ==> !Due(c, stages[j], now)
    ensures r.Some? ==> r.value < |stages| && Due(c, stages[r.value], now)
    ensures r.Some? ==> forall j :: 0 <= j < r.value ==> !Due(c, stages[j], now)
  {
    for i := 0 to |stages|
      invariant DueFrom(c, stages, now, 0) == DueFrom(c, stages, now, i)
      invariant forall j :: 0 <= j < i ==> !Due(c, stages[j], now)
    {
      if Seconds(stages[i]) in c.alerted { continue; }
      if EndingWithin(c.ends, now, stages[i]) { return Some(i); }
    }
    return None;
  }

  lemma {:induction false} DueFromExact(c: Candidate, stages: seq<nat>, now: int, i: nat)
    requires i <= |stages|
    ensures match DueFrom(c, stages, now, i)
      case None => forall j :: i <= j < |stages| ==> !Due(c, stages[j], now)
      case Some(k) => i <= k < |stages| && Due(c, stages[k], now) && forall j :: i <= j < k ==> !Due(c, stages[j], now)
    decreases |stages| - i
  {
    if i < |stages| && !Due(c, stages[i], now) { DueFromExact(c, stages, now, i + 1); }
  }

  // ---- Reading the candidates --------------------------------------------------------------------

  /** One joined row: a saved lot with one recorded lead, or with lead 0 when it has none. */
  datatype Row = Row(lot: string, ends: Option<int>, seconds: nat)

  function Adds(r: Row, lot: string): set<nat> { if r.lot == lot && r.seconds > 0 then {r.seconds} else {} }

  function RecordedIn(rows: seq<Row>, lot: string): set<nat> {
    if rows == [] then {} else RecordedIn(rows[..|rows| - 1], lot) + Adds(rows[|rows| - 1], lot)
  }

  /** The leads some row records for the lot. */
  lemma {:induction false} RecordedMeans(rows: seq<Row>, lot: string, x: nat)
    ensures x in RecordedIn(rows, lot) <==> x > 0 && exists i :: 0 <= i < |rows| && rows[i] == Row(lot, rows[i].ends, x)
    decreases |rows|
  {
    if rows != [] {
      var n := |rows| - 1;
      RecordedMeans(rows[..n], lot, x);
      assert forall i :: 0 <= i < n ==> rows[..n][i] == rows[i];
      if i :| 0 <= i < n && rows[..n][i] == Row(lot, rows[..n][i].ends, x) { assert rows[i] == Row(lot, rows[i].ends, x); }
    }
  }

  /** The first row of a lot; the length when it has none. */
  function FirstRow(rows: seq<Row>, lot: string): (i: nat)
    ensures i <= |rows| && (i < |rows| ==> rows[i].lot == lot) && forall j :: 0 <= j < i ==> rows[j].lot != lot
  {
    if rows == [] || rows[0].lot == lot then 0 else 1 + FirstRow(rows[1..], lot)
  }

  /** Exactly the lots of the first `n` rows, in the order of their first rows. */
  ghost predicate Ordered(rows: seq<Row>, n: nat, order: seq<string>) {
    && (forall l :: l in order <==> FirstRow(rows, l) < n)
    && (forall i, j :: 0 <= i < j < |order| ==> FirstRow(rows, order[i]) < FirstRow(rows, order[j]))
  }

  lemma FirstRowNext(rows: seq<Row>, n: nat, l: string)
    requires n < |rows|
    ensures FirstRow(rows, l) < n + 1 <==> FirstRow(rows, l) < n || l == rows[n].lot
    ensures FirstRow(rows, rows[n].lot) <= n
  {
  }

  lemma OrderedNext(rows: seq<Row>, n: nat, order: seq<string>)
    requires n < |rows| && Ordered(rows, n, order)
    ensures Ordered(rows, n + 1, if rows[n].lot in order then order else order + [rows[n].lot])
    ensures rows[n].lot !in order ==> FirstRow(rows, rows[n].lot) == n
  {
    var lot := rows[n].lot;
    forall l ensures FirstRow(rows, l) < n + 1 <==> l in order || l == lot { FirstRowNext(rows, n, l); }
    FirstRowNext(rows, n, lot);
    if lot !in order { LastInOrder(rows, n, order, lot); }
  }

  lemma LastInOrder(rows: seq<Row>, n: nat, order: seq<string>, lot: string)
    requires Ordered(rows, n, order) && FirstRow(rows, lot) == n
    ensures forall i, j :: 0 <= i < j < |order + [lot]| ==>
      FirstRow(rows, (order + [lot])[i]) < FirstRow(rows, (order + [lot])[j])
  {
    assert forall i :: 0 <= i < |order| ==> order[i] in order;
  }

  /** The lot's candidate after `n` rows: its first row's close time and every lead recorded so far. */
  function CandidateAt(rows: seq<Row>, n: nat, lot: string): Candidate
    requires FirstRow(rows, lot) < n <= |rows|
  {
    Candidate(rows[FirstRow(rows, lot)].ends, RecordedIn(rows[..n], lot))
  }

  ghost predicate Gathered(rows: seq<Row>, n: nat, byId: map<string, Candidate>)
    requires n <= |rows|
  {
    forall l :: (l in byId <==> FirstRow(rows, l) < n) && (l in byId ==> byId[l] == CandidateAt(rows, n, l))
  }

  /** What one more row makes of its lot's candidate. */
  function Gather(byId: map<string, Candidate>, r: Row): Candidate {
    var c := if r.lot in byId then byId[r.lot] else Candidate(r.ends, {});
    if r.seconds > 0 then c.(alerted := c.alerted + {r.seconds}) else c
  }

  lemma RecordedNext(rows: seq<Row>, n: nat, lot: string)
    requires n < |rows|
    ensures RecordedIn(rows[..n + 1], lot) == RecordedIn(rows[..n], lot) + Adds(rows[n], lot)
  {
    assert rows[..n + 1][..n] == rows[..n];
  }

  lemma {:induction false} NothingRecorded(rows: seq<Row>, n: nat, lot: string)
    requires n <= |rows| && FirstRow(rows, lot) >= n
    ensures RecordedIn(rows[..n], lot) == {}
    decreases n
  {
    if n > 0 {
      NothingRecorded(rows, n - 1, lot);
      RecordedNext(rows, n - 1, lot);
    }
  }

  lemma GatheredNext(rows: seq<Row>, n: nat, byId: map<string, Candidate>)
    requires n < |rows| && Gathered(rows, n, byId)
    ensures Gathered(rows, n + 1, byId[rows[n].lot := Gather(byId, rows[n])])
  {
    var byId' := byId[rows[n].lot := Gather(byId, rows[n])];
    forall l ensures (l in byId' <==> FirstRow(rows, l) < n + 1) && (l in byId' ==> byId'[l] == CandidateAt(rows, n + 1, l)) {
      RecordedNext(rows, n, l);
      if FirstRow(rows, l) >= n { NothingRecorded(rows, n, l); }
    }
  }

  /** One candidate per lot, in first-seen order, with its first row's close time and all its recorded leads. */
  method BuildCandidates(rows: seq<Row>) returns (order: seq<string>, byId: map<string, Candidate>)
    ensures Ordered(rows, |rows|, order) && Gathered(rows, |rows|, byId)
  {
    order, byId := [], map[];
    for n := 0 to |rows|
      invariant Ordered(rows, n, order) && Gathered(rows, n, byId)
    {
      OrderedNext(rows, n, order);
      GatheredNext(rows, n, byId);
      SameLot(rows, n, order, byId, rows[n].lot);
      if rows[n].lot !in byId { order := order + [rows[n].lot]; }
      byId := AddRow(byId, rows[n]);
    }
  }

  lemma SameLot(rows: seq<Row>, n: nat, order: seq<string>, byId: map<string, Candidate>, l: string)
    requires n <= |rows| && Ordered(rows, n, order) && Gathered(rows, n, byId)
    ensures l in byId <==> l in order
  {
  }

  /** The rest of that loop's body, on the map of candidates. */
  method AddRow(was: map<string, Candidate>, r: Row) returns (byId: map<string, Candidate>)
    ensures byId == was[r.lot := Gather(was, r)]
  {
    byId := was;
    if r.lot !in byId { byId := byId[r.lot := Candidate(r.ends, {})]; }
    if r.seconds > 0 {
      var c := byId[r.lot];
      byId := byId[r.lot := c.(alerted := c.alerted + {r.seconds})];
    }
  }

  // ---- The alert transaction -----------------------------------------------------------------------

  datatype Alert = Alert(lot: string, lead: nat)

  datatype Db = Db(rows: set<(string, nat)>, published: seq<Alert>)

  function Recorded(db: Db, lot: string): set<nat> { set k | k in db.rows && k.0 == lot :: k.1 }

  /** The rows for the chosen stage and every wider one, as far as the CHECK lets them in. */
  function Overtaken(lot: string, stages: seq<nat>, i: nat): set<(string, nat)> {
    set j | i <= j < |stages| && Seconds(stages[j]) > 0 :: (lot, Seconds(stages[j]))
  }

  /** INSERT OR IGNORE decides the race: only the worker whose row goes in publishes. */
  function AlertTx(db: Db, lot: string, stages: seq<nat>, i: nat): Db
    requires i < |stages|
  {
    if Seconds(stages[i]) == 0 || (lot, Seconds(stages[i])) in db.rows then db
    else Db(db.rows + Overtaken(lot, stages, i), db.published + [Alert(lot, stages[i])])
  }

  /** One worker's pass over one lot, deciding from whatever it read and whenever it read it. */
  datatype Work = Work(lot: string, seen: Candidate, now: int)

  function Process(db: Db, stages: seq<nat>, w: Work): Db {
    DueFromExact(w.seen, stages, w.now, 0);
    match DueFrom(w.seen, stages, w.now, 0)
    case None => db
    case Some(i) => AlertTx(db, w.lot, stages, i)
  }

  /** The lot had that long or less to go when the worker looked, and had not closed. */
  predicate Entered(w: Work, lead: nat) { w.seen.ends.Some? && 0 <= w.seen.ends.value - w.now <= lead }

  /** The tightest window the lot had entered that the worker had seen no alert for. */
  predicate Tightest(w: Work, stages: seq<nat>, i: nat) {
    && i < |stages| && Entered(w, stages[i]) && stages[i] / SECOND !in w.seen.alerted
    && forall j :: 0 <= j < i && Entered(w, stages[j]) ==> stages[j] / SECOND in w.seen.alerted
  }

  /** The rows after an alert: the old ones, and one for each recordable stage from `i` on. */
  ghost predicate RecordsFrom(rows: set<(string, nat)>, rows': set<(string, nat)>, lot: string, stages: seq<nat>, i: nat) {
    forall l, s :: (l, s) in rows' <==>
      (l, s) in rows || (l == lot && s > 0 && exists j :: i <= j < |stages| && stages[j] / SECOND == s)
  }

  /**
   * A pass alerts for the tightest window it finds, unless the table cannot record it or somebody has recorded it
   * already; it then records that stage and every wider one. Otherwise it changes nothing.
   */
  lemma PassMeans(db: Db, stages: seq<nat>, w: Work)
    ensures var db' := Process(db, stages, w);
      && ((forall i: nat :: !Tightest(w, stages, i)) ==> db' == db)
      && forall i: nat | Tightest(w, stages, i) ::
           if stages[i] < SECOND || (w.lot, stages[i] / SECOND) in db.rows then db' == db
           else db'.published == db.published + [Alert(w.lot, stages[i])] && RecordsFrom(db.rows, db'.rows, w.lot, stages, i)
  {
    var db' := Process(db, stages, w);
    DueFromExact(w.seen, stages, w.now, 0);
    forall i | 0 <= i < |stages| ensures Due(w.seen, stages[i], w.now) <==> Entered(w, stages[i]) && stages[i] / SECOND !in w.seen.alerted {
    }
    match DueFrom(w.seen, stages, w.now, 0)
    case None =>
    case Some(k) =>
      assert Tightest(w, stages, k);
      forall i: nat | Tightest(w, stages, i) ensures i == k {
        assert Due(w.seen, stages[i], w.now);
      }
      assert RecordsFrom(db.rows, db.rows + Overtaken(w.lot, stages, k), w.lot, stages, k);
  }

  function ProcessAll(db: Db, stages: seq<nat>, work: seq<Work>): Db {
    if work == [] then db else Process(ProcessAll(db, stages, work[..|work| - 1]), stages, work[|work| - 1])
  }

  function LeadsOf(published: seq<Alert>, lot: string): seq<nat> {
    if published == [] then []
    else
      var n := |published| - 1;
      LeadsOf(published[..n], lot) + if published[n].lot == lot then [published[n].lead] else []
  }

  predicate Descending(leads: seq<nat>) { forall i, j :: 0 <= i < j < |leads| ==> leads[i] > leads[j] }

  lemma LeadsAfter(published: seq<Alert>, a: Alert, lot: string)
    ensures LeadsOf(published + [a], lot) == LeadsOf(published, lot) + if a.lot == lot then [a.lead] else []
  {
    assert (published + [a])[..|published|] == published;
  }

  // ---- Schedules that change ----------------------------------------------------------------------------

  /** The lead is a stage of this schedule, and it and every wider stage are recorded for the lot. */
  predicate Backed(rows: set<(string, nat)>, lot: string, lead: nat, stages: seq<nat>) {
    lead in stages && Seconds(lead) > 0
    && forall d <- stages | d >= lead && Seconds(d) > 0 :: (lot, Seconds(d)) in rows
  }

  ghost predicate BackedBySome(rows: set<(string, nat)>, lot: string, lead: nat, schedules: seq<seq<nat>>) {
    exists i :: 0 <= i < |schedules| && Backed(rows, lot, lead, schedules[i])
  }

  /** Every alert published so far is backed by a schedule that has been in force. */
  ghost predicate Covered(db: Db, schedules: seq<seq<nat>>) {
    forall lot :: forall lead <- LeadsOf(db.published, lot) :: BackedBySome(db.rows, lot, lead, schedules)
  }

  /** Every lot's alerts so far have strictly decreasing leads. */
  ghost predicate Narrowed(db: Db) { forall lot :: Descending(LeadsOf(db.published, lot)) }

  /** Under `later`, no stage can fire that `earlier` did not count among those a narrower alert overtakes. */
  predicate Compatible(earlier: seq<nat>, later: seq<nat>) {
    forall e <- earlier, d <- later | Seconds(e) > 0 && Seconds(d) > 0 && d >= e :: Overtakes(earlier, e, d)
  }

  predicate Overtakes(stages: seq<nat>, e: nat, d: nat) { exists x <- stages :: x >= e && Seconds(x) == Seconds(d) }

  ghost predicate AllCompatible(schedules: seq<seq<nat>>) {
    forall i, j :: 0 <= i < j < |schedules| ==> Compatible(schedules[i], schedules[j])
  }

  lemma BackedBlocks(rows: set<(string, nat)>, lot: string, e: nat, stages: seq<nat>, d: nat)
    requires Backed(rows, lot, e, stages) && Overtakes(stages, e, d) && Seconds(d) > 0
    ensures (lot, Seconds(d)) in rows
  {
  }

  /** A stage of the last schedule that can still fire is narrower than any alert already out. */
  lemma NoneAsWide(rows: set<(string, nat)>, schedules: seq<seq<nat>>, lot: string, d: nat, e: nat)
    requires schedules != [] && AllCompatible(schedules) && BackedBySome(rows, lot, e, schedules)
    requires d in schedules[|schedules| - 1] && Seconds(d) > 0 && (lot, Seconds(d)) !in rows
    ensures d < e
  {
    var n := |schedules| - 1;
    var i :| 0 <= i < |schedules| && Backed(rows, lot, e, schedules[i]);
    if d >= e {
      assert i < n ==> Compatible(schedules[i], schedules[n]);
      assert Overtakes(schedules[i], e, d);
      BackedBlocks(rows, lot, e, schedules[i], d);
    }
  }

  lemma ProcessKeeps(db: Db, schedules: seq<seq<nat>>, w: Work)
    requires schedules != [] && AllCompatible(schedules) && Covered(db, schedules) && Narrowed(db)
    ensures Narrowed(Process(db, schedules[|schedules| - 1], w))
  {
    var stages := schedules[|schedules| - 1];
    var db' := Process(db, stages, w);
    DueFromExact(w.seen, stages, w.now, 0);
    if db' == db { return; }
    var d := stages[DueFrom(w.seen, stages, w.now, 0).value];
    forall lot ensures Descending(LeadsOf(db'.published, lot)) {
      LeadsAfter(db.published, Alert(w.lot, d), lot);
      var leads := LeadsOf(db.published, lot);
      assert Descending(leads);
      if w.lot == lot {
        forall k | 0 <= k < |leads| ensures d < leads[k] {
          assert leads[k] in leads;
          NoneAsWide(db.rows, schedules, lot, d, leads[k]);
        }
      }
    }
  }

  lemma ProcessKeepsCovered(db: Db, schedules: seq<seq<nat>>, w: Work)
    requires schedules != [] && Ascending(schedules[|schedules| - 1]) && Covered(db, schedules)
    ensures Covered(Process(db, schedules[|schedules| - 1], w), schedules)
  {
    var stages := schedules[|schedules| - 1];
    var db' := Process(db, stages, w);
    DueFromExact(w.seen, stages, w.now, 0);
    if db' == db { return; }
    var i := DueFrom(w.seen, stages, w.now, 0).value;
    forall lot, lead | lead in LeadsOf(db'.published, lot) ensures BackedBySome(db'.rows, lot, lead, schedules) {
      LeadsAfter(db.published, Alert(w.lot, stages[i]), lot);
      if lead in LeadsOf(db.published, lot) {
        StaysBacked(db.rows, db'.rows, lot, lead, schedules);
      } else {
        NewIsBacked(db.rows, lot, stages, i);
      }
    }
  }

  lemma StaysBacked(rows: set<(string, nat)>, rows': set<(string, nat)>, lot: string, lead: nat, schedules: seq<seq<nat>>)
    requires rows <= rows' && BackedBySome(rows, lot, lead, schedules)
    ensures BackedBySome(rows', lot, lead, schedules)
  {
    var i :| 0 <= i < |schedules| && Backed(rows, lot, lead, schedules[i]);
    assert Backed(rows', lot, lead, schedules[i]);
  }

  lemma NewIsBacked(rows: set<(string, nat)>, lot: string, stages: seq<nat>, i: nat)
    requires Ascending(stages) && i < |stages| && Seconds(stages[i]) > 0
    ensures Backed(rows + Overtaken(lot, stages, i), lot, stages[i], stages)
  {
    forall d <- stages | d >= stages[i] && Seconds(d) > 0 ensures (lot, Seconds(d)) in Overtaken(lot, stages, i) {
      var j :| 0 <= j < |stages| && stages[j] == d;
      assert j >= i;
    }
  }

  lemma {:induction false} ProcessAllKeeps(db: Db, schedules: seq<seq<nat>>, work: seq<Work>)
    requires schedules != [] && Ascending(schedules[|schedules| - 1]) && AllCompatible(schedules)
    requires Covered(db, schedules) && Narrowed(db)
    ensures Covered(ProcessAll(db, schedules[|schedules| - 1], work), schedules)
    ensures Narrowed(ProcessAll(db, schedules[|schedules| - 1], work))
    decreases |work|
  {
    if work != [] {
      var n := |work| - 1;
      ProcessAllKeeps(db, schedules, work[..n]);
      var before := ProcessAll(db, schedules[|schedules| - 1], work[..n]);
      ProcessKeepsCovered(before, schedules, work[n]);
      ProcessKeeps(before, schedules, work[n]);
    }
  }

  /** Each schedule in force for its own stretch of work. */
  function RunAll(db: Db, schedules: seq<seq<nat>>, works: seq<seq<Work>>): Db
    requires |works| == |schedules|
  {
    if schedules == [] then db
    else
      var n := |schedules| - 1;
      ProcessAll(RunAll(db, schedules[..n], works[..n]), schedules[n], works[n])
  }

  lemma {:induction false} CompatibleSchedulesNarrow(rows: set<(string, nat)>, schedules: seq<seq<nat>>, works: seq<seq<Work>>)
    requires |works| == |schedules| && AllCompatible(schedules) && forall s <- schedules :: Ascending(s)
    ensures Covered(RunAll(Db(rows, []), schedules, works), schedules)
    ensures Narrowed(RunAll(Db(rows, []), schedules, works))
    decreases |schedules|
  {
    if schedules != [] {
      var n := |schedules| - 1;
      assert schedules[n] in schedules && forall s <- schedules[..n] :: s in schedules;
      CompatibleSchedulesNarrow(rows, schedules[..n], works[..n]);
      var before := RunAll(Db(rows, []), schedules[..n], works[..n]);
      CoveredByMore(before, schedules, n);
      ProcessAllKeeps(before, schedules, works[n]);
    } else {
      assert forall lot :: LeadsOf([], lot) == [];
    }
  }

  lemma CoveredByMore(db: Db, schedules: seq<seq<nat>>, n: nat)
    requires n <= |schedules| && Covered(db, schedules[..n])
    ensures Covered(db, schedules)
  {
    forall lot, lead | lead in LeadsOf(db.published, lot) ensures BackedBySome(db.rows, lot, lead, schedules) {
      assert BackedBySome(db.rows, lot, lead, schedules[..n]);
      var i :| 0 <= i < n && Backed(db.rows, lot, lead, schedules[..n][i]);
      assert Backed(db.rows, lot, lead, schedules[i]);
    }
  }

  /**
   * For any number of workers, any interleaving of their transactions and any staleness of what they read, with
   * close times free to move: under one schedule the alerts published for one lot have strictly
   * decreasing lead times. So a stage fires at most once, and a stage overtaken by a
   * narrower one never fires afterwards.
   */
  lemma AlertsNarrow(rows: set<(string, nat)>, stages: seq<nat>, work: seq<Work>, lot: string)
    requires Ascending(stages)
    ensures Descending(LeadsOf(ProcessAll(Db(rows, []), stages, work).published, lot))
  {
    CompatibleSchedulesNarrow(rows, [stages], [work]);
    assert [stages][..0] == [] && [work][..0] == [];
    assert RunAll(Db(rows, []), [stages], [work]) == ProcessAll(Db(rows, []), stages, work);
    assert Narrowed(ProcessAll(Db(rows, []), stages, work));
  }

  // ---- And no other change of schedule is safe --------------------------------------------------------------

  /** A worker that saw the lot exactly `lead` before its close, and no alert. */
  function JustInside(lot: string, lead: nat): Work { Work(lot, Candidate(Some(lead), {}), 0) }

  lemma JustInsideFires(db: Db, stages: seq<nat>, lot: string, i: nat)
    requires Ascending(stages) && i < |stages| && Seconds(stages[i]) > 0 && (lot, Seconds(stages[i])) !in db.rows
    ensures ProcessAll(db, stages, [JustInside(lot, stages[i])])
         == Db(db.rows + Overtaken(lot, stages, i), db.published + [Alert(lot, stages[i])])
  {
    var w := JustInside(lot, stages[i]);
    DueFromExact(w.seen, stages, 0, 0);
    assert Due(w.seen, stages[i], 0) && forall j :: 0 <= j < i ==> !Due(w.seen, stages[j], 0);
    assert [w][..0] == [] && ProcessAll(db, stages, []) == db;
  }

  lemma RunAllNext(db: Db, schedules: seq<seq<nat>>, works: seq<seq<Work>>, n: nat)
    requires |works| == |schedules| && n < |schedules|
    ensures RunAll(db, schedules[..n + 1], works[..n + 1])
         == ProcessAll(RunAll(db, schedules[..n], works[..n]), schedules[n], works[n])
  {
    assert schedules[..n + 1][..n] == schedules[..n] && works[..n + 1][..n] == works[..n];
  }

  /** Nothing happens except one fresh lot at stage `e` of schedule `i` and then at stage `d` of schedule `j`. */
  function TwoShots(n: nat, lot: string, i: nat, e: nat, j: nat, d: nat): (works: seq<seq<Work>>)
    ensures |works| == n
  {
    seq(n, k => if k == i then [JustInside(lot, e)] else if k == j then [JustInside(lot, d)] else [])
  }

  lemma {:induction false} TwoShotsRun(schedules: seq<seq<nat>>, lot: string, i: nat, a: nat, j: nat, b: nat, n: nat)
    requires i < j < |schedules| && n <= |schedules| && Ascending(schedules[i]) && Ascending(schedules[j])
    requires a < |schedules[i]| && b < |schedules[j]|
    requires Seconds(schedules[i][a]) > 0 && Seconds(schedules[j][b]) > 0
    requires (lot, Seconds(schedules[j][b])) !in Overtaken(lot, schedules[i], a)
    ensures var e, d := schedules[i][a], schedules[j][b];
      var db := RunAll(Db({}, []), schedules[..n], TwoShots(|schedules|, lot, i, e, j, d)[..n]);
      if n <= i then db == Db({}, [])
      else if n <= j then db == Db(Overtaken(lot, schedules[i], a), [Alert(lot, e)])
      else db.published == [Alert(lot, e), Alert(lot, d)]
    decreases n
  {
    if n == 0 { return; }
    var e, d := schedules[i][a], schedules[j][b];
    var works := TwoShots(|schedules|, lot, i, e, j, d);
    TwoShotsRun(schedules, lot, i, a, j, b, n - 1);
    RunAllNext(Db({}, []), schedules, works, n - 1);
    var before := RunAll(Db({}, []), schedules[..n - 1], works[..n - 1]);
    if n - 1 == i {
      JustInsideFires(before, schedules[i], lot, a);
    } else if n - 1 == j {
      JustInsideFires(before, schedules[j], lot, b);
    }
  }

  lemma IncompatibleWidens(schedules: seq<seq<nat>>, lot: string, i: nat, j: nat) returns (works: seq<seq<Work>>)
    requires i < j < |schedules| && Ascending(schedules[i]) && Ascending(schedules[j])
    requires !Compatible(schedules[i], schedules[j])
    ensures |works| == |schedules| && !Descending(LeadsOf(RunAll(Db({}, []), schedules, works).published, lot))
  {
    var e, d :| e in schedules[i] && d in schedules[j] && Seconds(e) > 0 && Seconds(d) > 0 && d >= e && !Overtakes(schedules[i], e, d);
    var a :| 0 <= a < |schedules[i]| && schedules[i][a] == e;
    var b :| 0 <= b < |schedules[j]| && schedules[j][b] == d;
    forall k | a <= k < |schedules[i]| ensures Seconds(schedules[i][k]) != Seconds(d) {
      assert schedules[i][k] in schedules[i] && schedules[i][k] >= e;
    }
    works := TwoShots(|schedules|, lot, i, e, j, d);
    TwoShotsRun(schedules, lot, i, a, j, b, |schedules|);
    assert schedules[..|schedules|] == schedules && works[..|schedules|] == works;
    TwoLeads(lot, e, d);
    assert !Descending([e, d]) by { assert [e, d][0] <= [e, d][1]; }
  }

  lemma TwoLeads(lot: string, e: nat, d: nat)
    ensures LeadsOf([Alert(lot, e), Alert(lot, d)], lot) == [e, d]
  {
    LeadsAfter([], Alert(lot, e), lot);
    LeadsAfter([Alert(lot, e)], Alert(lot, d), lot);
    assert [] + [Alert(lot, e)] == [Alert(lot, e)];
    assert [Alert(lot, e)] + [Alert(lot, d)] == [Alert(lot, e), Alert(lot, d)];
  }

  /** Whatever workers do and whenever they read, every lot's alerts narrow across all these schedules. */
  ghost predicate AlwaysNarrows(schedules: seq<seq<nat>>) {
    forall rows: set<(string, nat)>, works: seq<seq<Work>> | |works| == |schedules| ::
      Narrowed(RunAll(Db(rows, []), schedules, works))
  }

  /**
   * An operator may change the stage list, any number of times, without an overtaken window ever firing exactly
   * when each list is compatible with every earlier one.
   */
  lemma NarrowsIff(schedules: seq<seq<nat>>)
    requires forall s <- schedules :: Ascending(s)
    ensures AlwaysNarrows(schedules) <==> AllCompatible(schedules)
  {
    if AllCompatible(schedules) {
      forall rows: set<(string, nat)>, works: seq<seq<Work>> | |works| == |schedules|
        ensures Narrowed(RunAll(Db(rows, []), schedules, works))
      {
        CompatibleSchedulesNarrow(rows, schedules, works);
      }
    } else {
      var i, j :| 0 <= i < j < |schedules| && !Compatible(schedules[i], schedules[j]);
      assert schedules[i] in schedules && schedules[j] in schedules;
      var works := IncompatibleWidens(schedules, [], i, j);
      assert !Narrowed(RunAll(Db({}, []), schedules, works));
    }
  }

  predicate WholeSeconds(stages: seq<nat>) { forall d <- stages :: d > 0 && d % SECOND == 0 }

  /** For whole-second leads: every new stage was there before, or is narrower than all that were. */
  lemma CompatibleMeans(earlier: seq<nat>, later: seq<nat>)
    requires WholeSeconds(earlier) && WholeSeconds(later)
    ensures Compatible(earlier, later) <==> forall d <- later :: d in earlier || forall e <- earlier :: d < e
  {
    assert forall d: nat | d > 0 && d % SECOND == 0 :: Seconds(d) > 0 && d == Seconds(d) * SECOND;
    if Compatible(earlier, later) {
      forall d <- later, e <- earlier | d !in earlier ensures d < e {
        assert d >= e ==> Overtakes(earlier, e, d);
      }
    } else {
      var e, d :| e in earlier && d in later && d >= e && !Overtakes(earlier, e, d);
      assert d !in earlier;
    }
  }

  /** So adding a wider stage lets it fire after a narrower one. */
  lemma WidenedScheduleReorders()
    ensures !AlwaysNarrows([[SECOND], [SECOND, 2 * SECOND]])
  {
    var s, t := [SECOND], [SECOND, 2 * SECOND];
    assert 2 * SECOND in t && 2 * SECOND !in s && SECOND in s;
    CompatibleMeans(s, t);
    assert !Compatible([s, t][0], [s, t][1]);
    NarrowsIff([s, t]);
  }

  // ---- A worker that reads the current rows --------------------------------------------------------------

  /**
   * It publishes exactly the tightest window the lot has entered and not been alerted for, unless that is shorter
   * than a second, which the table cannot record; and repeating the pass at the same instant publishes nothing more.
   */
  lemma FreshWorkerIsExact(db: Db, stages: seq<nat>, lot: string, ends: Option<int>, now: int)
    requires Ascending(stages)
    ensures var seen := Candidate(ends, Recorded(db, lot)); var db' := Process(db, stages, Work(lot, seen, now));
      && db'.published == db.published + (match DueFrom(seen, stages, now, 0)
           case None => []
           case Some(i) => DueFromExact(seen, stages, now, 0); if Seconds(stages[i]) == 0 then [] else [Alert(lot, stages[i])])
      && Process(db', stages, Work(lot, Candidate(ends, Recorded(db', lot)), now)) == db'
  {
    var seen := Candidate(ends, Recorded(db, lot));
    var db' := Process(db, stages, Work(lot, seen, now));
    DueFromExact(seen, stages, now, 0);
    var again := Candidate(ends, Recorded(db', lot));
    DueFromExact(again, stages, now, 0);
    assert forall x :: x in Recorded(db, lot) <==> (lot, x) in db.rows;
    assert forall x :: x in Recorded(db', lot) <==> (lot, x) in db'.rows;
    if DueFrom(seen, stages, now, 0).Some? {
      var i := DueFrom(seen, stages, now, 0).value;
      if Seconds(stages[i]) > 0 {
        assert forall j :: i <= j < |stages| ==> Seconds(stages[j]) > 0 && (lot, Seconds(stages[j])) in db'.rows;
        assert forall j :: 0 <= j < i ==> !Due(again, stages[j], now);
      }
    }
  }

  // ---- The job -----------------------------------------------------------------------------------------

  class AlertStore {
    var db: Db

    constructor (stored: Db)
      ensures db == stored
    {
      db := stored;
    }

    /** warnJob after its query: one transaction per lot that has a due stage. */
    method WarnJob(stages: seq<nat>, order: seq<string>, byId: map<string, Candidate>, now: int)
      requires forall l <- order :: l in byId
      modifies this
      ensures db == ProcessAll(old(db), stages, seq(|order|, i requires 0 <= i < |order| => Work(order[i], byId[order[i]], now)))
    {
      ghost var work := seq(|order|, i requires 0 <= i < |order| => Work(order[i], byId[order[i]], now));
      for n := 0 to |order|
        invariant db == ProcessAll(old(db), stages, work[..n])
      {
        assert work[..n + 1][..n] == work[..n];
        var c := byId[order[n]];
        var stage := DueStage(c, stages, now);
        if stage.None? { continue; }
        db := AlertTx(db, order[n], stages, stage.value);
      }
      assert work[..|order|] == work;
    }
  }
}
