/**
 * The spend gate: internal/core/policy/store.go.
 *
 * Reservations are listed in admission order, the order the orphan sweep visits them. The
 * history records every reservation that was taken and what was charged for it; the
 * program keeps only the per-period rollup, and the point of the history is to say that the
 * rollup loses and invents nothing.
 */
module Ledger {
  import opened Common

  datatype Window = Hour | Day | Month

  /** The three period starts a reservation pins when it is admitted. */
  datatype Periods = Periods(hour: int, day: int, month: int) {
    function Start(w: Window): int {
      match w case Hour => hour case Day => day case Month => month
    }
  }

  datatype Reservation = Reservation(id: string, plugin: string, maximum: int64, periods: Periods)

  datatype Charge = Charge(id: string, plugin: string, periods: Periods, amount: nat)

  datatype SpendKey = SpendKey(plugin: string, window: Window, start: int)

  type Micro = x: int64 | x >= 0

  /** Finite limits per plugin and window; an absent or zero limit means unlimited, and a negative one is refused. */
  type Budgets = map<(string, Window), Micro>

  datatype LedgerError = NegativeAmount | PluginDisabled | BudgetExceeded | UnknownReservation | Constraint

  datatype Ledger = Ledger(
    reservations: seq<Reservation>, committed: map<SpendKey, nat>, history: seq<Charge>)

  const EMPTY: Ledger := Ledger([], map[], [])

  // ---- Reading the tables ------------------------------------------------------------

  function IndexOf(rs: seq<Reservation>, id: string): (k: nat)
    ensures k <= |rs|
    ensures k < |rs| ==> rs[k].id == id
    ensures forall j :: 0 <= j < k ==> rs[j].id != id
  {
    if rs == [] then 0 else if rs[0].id == id then 0 else 1 + IndexOf(rs[1..], id)
  }

  function Committed(l: Ledger, key: SpendKey): nat {
    if key in l.committed then l.committed[key] else 0
  }

  predicate Counts(plugin: string, p: Periods, key: SpendKey) {
    plugin == key.plugin && p.Start(key.window) == key.start
  }

  function Reserved(rs: seq<Reservation>, key: SpendKey): int {
    if rs == [] then 0
    else (if Counts(rs[0].plugin, rs[0].periods, key) then rs[0].maximum else 0) + Reserved(rs[1..], key)
  }

  function Charged(h: seq<Charge>, key: SpendKey): nat {
    if h == [] then 0
    else
      var c := h[|h| - 1];
      Charged(h[..|h| - 1], key) + if Counts(c.plugin, c.periods, key) then c.amount else 0
  }

  function Limit(b: Budgets, plugin: string, w: Window): Micro {
    if (plugin, w) in b then b[(plugin, w)] else 0
  }

  // ---- The transactions --------------------------------------------------------------

  /** The admission test, in wrapping int64 arithmetic. */
  predicate Admits(l: Ledger, b: Budgets, plugin: string, w: Window, start: int, maximum: int64) {
    var limit := Limit(b, plugin, w);
    var key := SpendKey(plugin, w, start);
    limit == 0 || Wrap(Wrap(Reserved(l.reservations, key) + Committed(l, key)) + maximum) <= limit
  }

  function Reserve(l: Ledger, b: Budgets, enabled: bool, id: string, plugin: string, maximum: int64, now: Periods)
    : Result<Ledger, LedgerError>
  {
    if maximum < 0 then Err(NegativeAmount)
    else if !enabled then Err(PluginDisabled)
    else if !(forall w: Window :: Admits(l, b, plugin, w, now.Start(w), maximum)) then Err(BudgetExceeded)
    else if IndexOf(l.reservations, id) < |l.reservations| then Err(Constraint)
    else Ok(l.(reservations := l.reservations + [Reservation(id, plugin, maximum, now)]))
  }

  function Without(rs: seq<Reservation>, k: nat): seq<Reservation>
    requires k < |rs|
  {
    rs[..k] + rs[k + 1..]
  }

  function Add(committed: map<SpendKey, nat>, r: Reservation, w: Window, amount: nat): map<SpendKey, nat> {
    var key := SpendKey(r.plugin, w, r.periods.Start(w));
    committed[key := (if key in committed then committed[key] else 0) + amount]
  }

  function Settle(l: Ledger, id: string, actual: int64): Result<Ledger, LedgerError> {
    if actual < 0 then Err(NegativeAmount)
    else
      var k := IndexOf(l.reservations, id);
      if k == |l.reservations| then Err(UnknownReservation)
      else
        var r := l.reservations[k];
        Ok(Ledger(
          Without(l.reservations, k),
          Add(Add(Add(l.committed, r, Hour, actual), r, Day, actual), r, Month, actual),
          l.history + [Charge(id, r.plugin, r.periods, actual)]))
  }

  function Release(l: Ledger, id: string): Result<Ledger, LedgerError> {
    var k := IndexOf(l.reservations, id);
    if k == |l.reservations| then Err(UnknownReservation)
    else
      var r := l.reservations[k];
      Ok(l.(reservations := Without(l.reservations, k), history := l.history + [Charge(id, r.plugin, r.periods, 0)]))
  }

  /** Taking a reservation fails exactly when it is not open, or the amount is negative; a second taking therefore fails. */
  lemma TakeIff(l: Ledger, id: string, actual: int64)
    ensures Release(l, id).Ok? <==> exists r <- l.reservations :: r.id == id
    ensures Release(l, id).Err? ==> Release(l, id) == Err(UnknownReservation)
    ensures Settle(l, id, actual).Ok? <==> actual >= 0 && exists r <- l.reservations :: r.id == id
    ensures Settle(l, id, actual) == Err(NegativeAmount) <==> actual < 0
    ensures actual >= 0 && Settle(l, id, actual).Err? ==> Settle(l, id, actual) == Err(UnknownReservation)
  {
    var k := IndexOf(l.reservations, id);
    if k < |l.reservations| { assert l.reservations[k] in l.reservations; }
  }

  // ---- Conservation ------------------------------------------------------------------

  /** The rollup equals the charges it was built from, in every period of every window. */
  ghost predicate Balanced(l: Ledger) {
    forall key: SpendKey :: Committed(l, key) == Charged(l.history, key)
  }

  lemma ChargedAppend(h: seq<Charge>, c: Charge, key: SpendKey)
    ensures Charged(h + [c], key) == Charged(h, key) + if Counts(c.plugin, c.periods, key) then c.amount else 0
  {
    assert (h + [c])[..|h|] == h;
  }

  lemma SettleKeepsBalance(l: Ledger, id: string, actual: int64)
    requires Balanced(l) && Settle(l, id, actual).Ok?
    ensures Balanced(Settle(l, id, actual).value)
  {
    var l' := Settle(l, id, actual).value;
    var c := l'.history[|l.history|];
    forall key: SpendKey ensures Committed(l', key) == Charged(l'.history, key) {
      ChargedAppend(l.history, c, key);
      assert Committed(l, key) == Charged(l.history, key);
    }
  }

  lemma ReleaseKeepsBalance(l: Ledger, id: string)
    requires Balanced(l) && Release(l, id).Ok?
    ensures Balanced(Release(l, id).value)
  {
    var l' := Release(l, id).value;
    var c := l'.history[|l.history|];
    forall key: SpendKey ensures Committed(l', key) == Charged(l'.history, key) {
      ChargedAppend(l.history, c, key);
      assert Committed(l, key) == Charged(l.history, key);
    }
  }

  // ---- Budgets -----------------------------------------------------------------------

  ghost predicate WithinBudget(l: Ledger, b: Budgets) {
    forall key: SpendKey :: Limit(b, key.plugin, key.window) > 0 ==>
      Reserved(l.reservations, key) + Committed(l, key) <= Limit(b, key.plugin, key.window)
  }

  predicate NonNegative(l: Ledger) {
    forall i :: 0 <= i < |l.reservations| ==> l.reservations[i].maximum >= 0
  }

  lemma {:induction false} ReservedNonNegative(rs: seq<Reservation>, key: SpendKey)
    requires forall i :: 0 <= i < |rs| ==> rs[i].maximum >= 0
    ensures Reserved(rs, key) >= 0
  {
    if rs != [] { ReservedNonNegative(rs[1..], key); }
  }

  lemma {:induction false} ReservedAppend(rs: seq<Reservation>, r: Reservation, key: SpendKey)
    ensures Reserved(rs + [r], key) == Reserved(rs, key) + if Counts(r.plugin, r.periods, key) then r.maximum else 0
  {
    if rs == [] {
      assert rs + [r] == [r];
    } else {
      assert (rs + [r])[1..] == rs[1..] + [r];
      ReservedAppend(rs[1..], r, key);
    }
  }

  lemma {:induction false} ReservedWithout(rs: seq<Reservation>, k: nat, key: SpendKey)
    requires k < |rs|
    ensures Reserved(Without(rs, k), key) ==
      Reserved(rs, key) - if Counts(rs[k].plugin, rs[k].periods, key) then rs[k].maximum else 0
  {
    if k == 0 {
      assert Without(rs, 0) == rs[1..];
    } else {
      assert Without(rs, k)[1..] == Without(rs[1..], k - 1);
      assert Without(rs, k)[0] == rs[0];
      ReservedWithout(rs[1..], k - 1, key);
    }
  }

  lemma WrapAdds(used: int, maximum: int)
    ensures Wrap(Wrap(used) + maximum) == Wrap(used + maximum)
  {
    var q := (used - Wrap(used)) / TWO64;
    assert used == Wrap(used) + q * TWO64;
    assert (used + maximum) % TWO64 == (Wrap(used) + maximum) % TWO64;
  }

  /**
   * What the wrapping admission test means, however much has been spent. While spending fits in an int64 it
   * agrees with the exact test unless the sum leaves 64 bits; then it always admits.
   */
  lemma AdmissionExact(used: nat, limit: int64, maximum: int64)
    requires limit >= 0 && maximum >= 0
    ensures Wrap(Wrap(used) + maximum) <= limit <==>
      (used + maximum) % TWO64 <= limit || (used + maximum) % TWO64 >= TWO63
    ensures used < TWO63 ==>
      (Wrap(Wrap(used) + maximum) <= limit <==> used + maximum <= limit || used + maximum >= TWO63)
  {
    WrapAdds(used, maximum);
  }

  /** A spent one-micro-USD budget still admits the largest representable maximum. */
  lemma AdmissionWraps()
    ensures Wrap(Wrap(1) + (TWO63 - 1)) <= 1 && !(1 + (TWO63 - 1) <= 1)
  {
    AdmissionExact(1, 1, TWO63 - 1);
  }

  /** The sum the test compares fits in an int64, in every window that has a limit. */
  predicate NoWrap(l: Ledger, b: Budgets, plugin: string, maximum: int64, now: Periods) {
    forall w: Window | (plugin, w) in b && b[(plugin, w)] > 0 :: Used(l, plugin, w, now) + maximum < TWO63
  }

  function Used(l: Ledger, plugin: string, w: Window, now: Periods): int {
    var key := SpendKey(plugin, w, now.Start(w));
    Reserved(l.reservations, key) + Committed(l, key)
  }

  /** What the wrapped comparison comes to: the sum fits the limit, or has left 64 bits. */
  predicate Fits(used: int, maximum: int, limit: int) {
    (used + maximum) % TWO64 <= limit || (used + maximum) % TWO64 >= TWO63
  }

  /** The period a moment falls into, by the length of the window. */
  predicate SamePeriod(w: Window, p: Periods, q: Periods) {
    (w == Hour ==> p.hour == q.hour) && (w == Day ==> p.day == q.day) && (w == Month ==> p.month == q.month)
  }

  lemma CountsMeans(plugin: string, p: Periods, other: string, w: Window, q: Periods)
    ensures Counts(plugin, p, SpendKey(other, w, q.Start(w))) <==> plugin == other && SamePeriod(w, p, q)
  {
  }

  /** An admitted reservation uses up its maximum in the hour, day and month it was made in, for its own plugin alone. */
  lemma ReserveUses(
      l: Ledger, b: Budgets, enabled: bool, id: string, plugin: string, maximum: int64, now: Periods,
      other: string, w: Window, then': Periods)
    requires Reserve(l, b, enabled, id, plugin, maximum, now).Ok?
    ensures Used(Reserve(l, b, enabled, id, plugin, maximum, now).value, other, w, then') ==
      Used(l, other, w, then') + if plugin == other && SamePeriod(w, now, then') then maximum else 0
  {
    ReservedAppend(l.reservations, Reservation(id, plugin, maximum, now), SpendKey(other, w, then'.Start(w)));
    CountsMeans(plugin, now, other, w, then');
  }

  /**
   * Settling commits the amount in the hour, day and month the reservation was made in, whatever the time is now, and
   * in no other period; what it had reserved is given back in exactly those.
   */
  lemma SettleUses(l: Ledger, k: nat, actual: int64, other: string, w: Window, then': Periods)
    requires k < |l.reservations| && actual >= 0 && IndexOf(l.reservations, l.reservations[k].id) == k
    ensures var r := l.reservations[k]; var key := SpendKey(other, w, then'.Start(w));
      var counts := r.plugin == other && SamePeriod(w, r.periods, then'); var after := Settle(l, r.id, actual).value;
      && Committed(after, key) == Committed(l, key) + (if counts then actual else 0)
      && Reserved(after.reservations, key) == Reserved(l.reservations, key) - (if counts then r.maximum else 0)
  {
    var r := l.reservations[k];
    CountsMeans(r.plugin, r.periods, other, w, then');
    ReservedWithout(l.reservations, k, SpendKey(other, w, then'.Start(w)));
    AddsOnce(l.committed, r, actual, SpendKey(other, w, then'.Start(w)));
  }

  function AmountAt(committed: map<SpendKey, nat>, key: SpendKey): nat { if key in committed then committed[key] else 0 }

  lemma AddsOnce(committed: map<SpendKey, nat>, r: Reservation, amount: nat, key: SpendKey)
    ensures AmountAt(Add(Add(Add(committed, r, Hour, amount), r, Day, amount), r, Month, amount), key) ==
      AmountAt(committed, key) + if Counts(r.plugin, r.periods, key) then amount else 0
  {
  }

  /** The rule of admission, window by window. */
  predicate Admissible(l: Ledger, b: Budgets, enabled: bool, plugin: string, maximum: int64, now: Periods) {
    && maximum >= 0 && enabled
    && forall w: Window | (plugin, w) in b && b[(plugin, w)] > 0 :: Fits(Used(l, plugin, w, now), maximum, b[(plugin, w)])
  }

  lemma AdmitsIff(l: Ledger, b: Budgets, plugin: string, w: Window, now: Periods, maximum: int64)
    requires NonNegative(l) && maximum >= 0
    ensures Admits(l, b, plugin, w, now.Start(w), maximum) <==>
      (Limit(b, plugin, w) > 0 ==> Fits(Used(l, plugin, w, now), maximum, Limit(b, plugin, w)))
  {
    ReservedNonNegative(l.reservations, SpendKey(plugin, w, now.Start(w)));
    AdmissionExact(Used(l, plugin, w, now), Limit(b, plugin, w), maximum);
  }

  /** A reservation is admitted exactly when the rule allows it, refused for exactly the stated reasons, and stored as asked. */
  lemma ReserveIff(l: Ledger, b: Budgets, enabled: bool, id: string, plugin: string, maximum: int64, now: Periods)
    requires NonNegative(l)
    ensures var r := Reserve(l, b, enabled, id, plugin, maximum, now);
      && (r == Err(NegativeAmount) <==> maximum < 0)
      && (r == Err(PluginDisabled) <==> maximum >= 0 && !enabled)
      && (r == Err(BudgetExceeded) <==> maximum >= 0 && enabled && !Admissible(l, b, enabled, plugin, maximum, now))
      && (r.Ok? <==> Admissible(l, b, enabled, plugin, maximum, now) && forall x <- l.reservations :: x.id != id)
      && (r.Ok? ==> r.value.reservations == l.reservations + [Reservation(id, plugin, maximum, now)])
      && (r.Ok? ==> r.value.committed == l.committed && r.value.history == l.history)
  {
    if maximum >= 0 {
      forall w: Window ensures Admits(l, b, plugin, w, now.Start(w), maximum) <==>
        (Limit(b, plugin, w) > 0 ==> Fits(Used(l, plugin, w, now), maximum, Limit(b, plugin, w)))
      {
        AdmitsIff(l, b, plugin, w, now, maximum);
      }
    }
    var k := IndexOf(l.reservations, id);
    if k < |l.reservations| {
      assert l.reservations[k] in l.reservations;
    } else {
      assert forall x <- l.reservations :: exists j :: 0 <= j < |l.reservations| && l.reservations[j] == x;
    }
  }

  /** While no sum leaves 64 bits the rule is the plain one: what is used and the maximum together are within the limit. */
  lemma AdmissibleMeans(l: Ledger, b: Budgets, enabled: bool, plugin: string, maximum: int64, now: Periods)
    requires NonNegative(l) && maximum >= 0 && NoWrap(l, b, plugin, maximum, now)
    ensures Admissible(l, b, enabled, plugin, maximum, now) <==>
      enabled && forall w: Window | (plugin, w) in b && b[(plugin, w)] > 0 :: Used(l, plugin, w, now) + maximum <= b[(plugin, w)]
  {
    forall w: Window | Limit(b, plugin, w) > 0
      ensures Fits(Used(l, plugin, w, now), maximum, Limit(b, plugin, w)) <==> Used(l, plugin, w, now) + maximum <= Limit(b, plugin, w)
    {
      ReservedNonNegative(l.reservations, SpendKey(plugin, w, now.Start(w)));
    }
  }

  /** Wherever `b` has a limit, the budget in force has one no larger. */
  ghost predicate Tighter(inForce: Budgets, b: Budgets) {
    forall p, w | Limit(b, p, w) > 0 :: 0 < Limit(inForce, p, w) <= Limit(b, p, w)
  }

  /**
   * An admitted reservation keeps spending within `b`, which is the budget in force or any looser one, exactly
   * when no sum of the test left 64 bits.
   */
  lemma ReserveKeepsBudgetIff(
      l: Ledger, b: Budgets, inForce: Budgets, enabled: bool, id: string, plugin: string, maximum: int64, now: Periods)
    requires WithinBudget(l, b) && NonNegative(l) && Tighter(inForce, b)
    requires Reserve(l, inForce, enabled, id, plugin, maximum, now).Ok?
    ensures WithinBudget(Reserve(l, inForce, enabled, id, plugin, maximum, now).value, b) <==>
      NoWrap(l, b, plugin, maximum, now)
  {
    var r := Reservation(id, plugin, maximum, now);
    var l' := Reserve(l, inForce, enabled, id, plugin, maximum, now).value;
    if NoWrap(l, b, plugin, maximum, now) {
      forall key: SpendKey | Limit(b, key.plugin, key.window) > 0
        ensures Reserved(l'.reservations, key) + Committed(l', key) <= Limit(b, key.plugin, key.window)
      {
        ReservedAppend(l.reservations, r, key);
        if Counts(plugin, now, key) { AdmittedWithin(l, b, inForce, plugin, maximum, now, key); }
      }
    } else {
      var w :| Limit(b, plugin, w) > 0 && Used(l, plugin, w, now) + maximum >= TWO63;
      var key := SpendKey(plugin, w, now.Start(w));
      ReservedAppend(l.reservations, r, key);
      assert Reserved(l'.reservations, key) + Committed(l', key) > Limit(b, key.plugin, key.window);
    }
  }

  lemma AdmittedWithin(l: Ledger, b: Budgets, inForce: Budgets, plugin: string, maximum: int64, now: Periods, key: SpendKey)
    requires WithinBudget(l, b) && NonNegative(l) && Tighter(inForce, b) && maximum >= 0
    requires NoWrap(l, b, plugin, maximum, now) && Counts(plugin, now, key) && Limit(b, plugin, key.window) > 0
    requires Admits(l, inForce, plugin, key.window, now.Start(key.window), maximum)
    ensures Reserved(l.reservations, key) + Committed(l, key) + maximum <= Limit(b, plugin, key.window)
  {
    assert key == SpendKey(plugin, key.window, now.Start(key.window));
    ReservedNonNegative(l.reservations, key);
    assert Used(l, plugin, key.window, now) + maximum < TWO63;
    AdmissionExact(Used(l, plugin, key.window, now), Limit(inForce, plugin, key.window), maximum);
  }

  /** Limits that leave room for the maximum below 2^63 rule a wrap out beforehand. */
  lemma RoomyLimitsNeverWrap(l: Ledger, b: Budgets, plugin: string, maximum: int64, now: Periods)
    requires WithinBudget(l, b) && forall w: Window :: Limit(b, plugin, w) + maximum < TWO63
    ensures NoWrap(l, b, plugin, maximum, now)
  {
    forall w: Window | Limit(b, plugin, w) > 0 ensures Used(l, plugin, w, now) + maximum < TWO63 {
      var key := SpendKey(plugin, w, now.Start(w));
      assert Reserved(l.reservations, key) + Committed(l, key) <= Limit(b, key.plugin, key.window);
    }
  }

  lemma SettleKeepsBudget(l: Ledger, b: Budgets, id: string, actual: int64)
    requires WithinBudget(l, b) && Settle(l, id, actual).Ok?
    requires actual <= l.reservations[IndexOf(l.reservations, id)].maximum
    ensures WithinBudget(Settle(l, id, actual).value, b)
  {
    var k := IndexOf(l.reservations, id);
    var l' := Settle(l, id, actual).value;
    forall key: SpendKey | Limit(b, key.plugin, key.window) > 0
      ensures Reserved(l'.reservations, key) + Committed(l', key) <= Limit(b, key.plugin, key.window)
    {
      ReservedWithout(l.reservations, k, key);
    }
  }

  lemma ReleaseKeepsBudget(l: Ledger, b: Budgets, id: string)
    requires WithinBudget(l, b) && NonNegative(l) && Release(l, id).Ok?
    ensures WithinBudget(Release(l, id).value, b)
  {
    var k := IndexOf(l.reservations, id);
    var l' := Release(l, id).value;
    forall key: SpendKey | Limit(b, key.plugin, key.window) > 0
      ensures Reserved(l'.reservations, key) + Committed(l', key) <= Limit(b, key.plugin, key.window)
    {
      ReservedWithout(l.reservations, k, key);
      assert l.reservations[k].maximum >= 0;
    }
  }

  // ---- Identity: a reservation is taken at most once ------------------------------------

  /** Open and charged ids never repeat and never meet. */
  predicate Distinct(l: Ledger) {
    && (forall i, j :: 0 <= i < j < |l.reservations| ==> l.reservations[i].id != l.reservations[j].id)
    && (forall i, j :: 0 <= i < j < |l.history| ==> l.history[i].id != l.history[j].id)
    && (forall i, j :: 0 <= i < |l.reservations| && 0 <= j < |l.history| ==> l.reservations[i].id != l.history[j].id)
  }

  predicate Fresh(l: Ledger, id: string) {
    && (forall i :: 0 <= i < |l.reservations| ==> l.reservations[i].id != id)
    && (forall j :: 0 <= j < |l.history| ==> l.history[j].id != id)
  }

  /** The life of a reservation id: unused, then open, then charged once and for good. */
  datatype Life = Unused | Open(plugin: string, maximum: int) | Taken(plugin: string, amount: int)

  function ChargeIndex(h: seq<Charge>, id: string): (k: nat)
    ensures k <= |h|
    ensures k < |h| ==> h[k].id == id
    ensures forall j :: 0 <= j < k ==> h[j].id != id
  {
    if h == [] then 0 else if h[0].id == id then 0 else 1 + ChargeIndex(h[1..], id)
  }

  function LifeOf(l: Ledger, id: string): Life {
    var i := IndexOf(l.reservations, id);
    if i < |l.reservations| then Life.Open(l.reservations[i].plugin, l.reservations[i].maximum)
    else
      var j := ChargeIndex(l.history, id);
      if j < |l.history| then Taken(l.history[j].plugin, l.history[j].amount) else Unused
  }

  /** Exactly one charge was ever made against `id`, and it was `amount`. */
  predicate ChargedOnce(l: Ledger, id: string, plugin: string, amount: int) {
    exists i :: 0 <= i < |l.history| && l.history[i].id == id && l.history[i].plugin == plugin && l.history[i].amount == amount
      && forall j :: 0 <= j < |l.history| && l.history[j].id == id ==> j == i
  }

  lemma TakenIsChargedOnce(l: Ledger, id: string)
    requires Distinct(l) && LifeOf(l, id).Taken?
    ensures ChargedOnce(l, id, LifeOf(l, id).plugin, LifeOf(l, id).amount)
  {
    var i := ChargeIndex(l.history, id);
    assert l.history[i].id == id;
  }

  predicate UniqueIds(rs: seq<Reservation>) { forall i, j :: 0 <= i < j < |rs| ==> rs[i].id != rs[j].id }

  lemma WithoutMembers(rs: seq<Reservation>, k: nat)
    requires UniqueIds(rs) && k < |rs|
    ensures UniqueIds(Without(rs, k))
    ensures forall r <- Without(rs, k) :: r in rs && r.id != rs[k].id
  {
    var rs' := Without(rs, k);
    assert forall i :: 0 <= i < |rs'| ==> rs'[i] == rs[if i < k then i else i + 1];
  }

  lemma IndexIs(rs: seq<Reservation>, i: nat)
    requires UniqueIds(rs) && i < |rs|
    ensures IndexOf(rs, rs[i].id) == i
  {
  }

  lemma LookupKept(rs: seq<Reservation>, k: nat, i: nat)
    requires UniqueIds(rs) && k < |rs| && i < |rs| && i != k
    ensures var j := IndexOf(Without(rs, k), rs[i].id); j < |rs| - 1 && Without(rs, k)[j] == rs[i]
  {
    var j := if i < k then i else i - 1;
    WithoutMembers(rs, k);
    assert Without(rs, k)[j] == rs[i];
    IndexIs(Without(rs, k), j);
  }

  lemma LookupGone(rs: seq<Reservation>, k: nat, id: string)
    requires k < |rs| && forall r <- Without(rs, k) :: r.id != id
    ensures IndexOf(Without(rs, k), id) == |rs| - 1
  {
    var rs' := Without(rs, k);
    assert forall j :: 0 <= j < |rs'| ==> rs'[j] in rs';
  }

  lemma LookupWithout(rs: seq<Reservation>, k: nat, id: string)
    requires UniqueIds(rs) && k < |rs|
    ensures var i := IndexOf(rs, id); var j := IndexOf(Without(rs, k), id);
      if i == |rs| || i == k then j == |rs| - 1 else j < |rs| - 1 && Without(rs, k)[j] == rs[i]
  {
    var i := IndexOf(rs, id);
    if i < |rs| && i != k {
      LookupKept(rs, k, i);
    } else {
      WithoutMembers(rs, k);
      LookupGone(rs, k, id);
    }
  }

  lemma LookupAppended(h: seq<Charge>, c: Charge, id: string)
    ensures ChargeIndex(h + [c], id) ==
      if ChargeIndex(h, id) < |h| then ChargeIndex(h, id) else if c.id == id then |h| else |h| + 1
  {
    var h' := h + [c];
    assert h'[|h|] == c && forall i :: 0 <= i < |h| ==> h'[i] == h[i];
  }

  /** Settling or releasing moves exactly one id from open to taken. */
  lemma TakeMovesOneId(l: Ledger, l': Ledger, id: string, actual: nat)
    requires Distinct(l)
    requires actual < TWO63 && (Settle(l, id, actual) == Ok(l') || (actual == 0 && Release(l, id) == Ok(l')))
    ensures Distinct(l') && (NonNegative(l) ==> NonNegative(l'))
    ensures LifeOf(l, id).Open? && LifeOf(l', id) == Taken(LifeOf(l, id).plugin, actual)
    ensures forall other :: other != id ==> LifeOf(l', other) == LifeOf(l, other)
  {
    var k := IndexOf(l.reservations, id);
    var c := l'.history[|l.history|];
    assert l'.reservations == Without(l.reservations, k) && l'.history == l.history + [c];
    forall other ensures LifeOf(l', other) == if other == id then Taken(LifeOf(l, id).plugin, actual) else LifeOf(l, other) {
      LookupWithout(l.reservations, k, other);
      LookupAppended(l.history, c, other);
      assert other == id ==> ChargeIndex(l.history, id) == |l.history| by {
        assert forall j :: 0 <= j < |l.history| ==> l.reservations[k].id != l.history[j].id;
      }
    }
    TakeKeepsDistinct(l, l', k, c);
  }

  lemma TakeKeepsDistinct(l: Ledger, l': Ledger, k: nat, c: Charge)
    requires Distinct(l) && k < |l.reservations| && c.id == l.reservations[k].id
    requires l'.reservations == Without(l.reservations, k) && l'.history == l.history + [c]
    ensures Distinct(l') && (NonNegative(l) ==> NonNegative(l'))
  {
    WithoutMembers(l.reservations, k);
    forall i, j | 0 <= i < |l'.reservations| && 0 <= j < |l'.history| ensures l'.reservations[i].id != l'.history[j].id {
      assert l'.reservations[i] in Without(l.reservations, k);
    }
    if NonNegative(l) {
      forall i | 0 <= i < |l'.reservations| ensures l'.reservations[i].maximum >= 0 {
        assert l'.reservations[i] in Without(l.reservations, k);
      }
    }
  }

  lemma ReserveOpensOneId(l: Ledger, l': Ledger, r: Reservation)
    requires Distinct(l) && Fresh(l, r.id) && l' == l.(reservations := l.reservations + [r])
    ensures Distinct(l') && LifeOf(l, r.id).Unused? && LifeOf(l', r.id) == Life.Open(r.plugin, r.maximum)
    ensures forall other :: other != r.id ==> LifeOf(l', other) == LifeOf(l, other)
    ensures NonNegative(l) && r.maximum >= 0 ==> NonNegative(l')
    ensures Balanced(l) ==> Balanced(l')
  {
    var rs, rs' := l.reservations, l'.reservations;
    assert rs'[|rs|] == r;
    assert forall i :: 0 <= i < |rs| ==> rs'[i] == rs[i];
    forall other | other != r.id ensures LifeOf(l', other) == LifeOf(l, other) {
      var i := IndexOf(rs, other);
      if i < |rs| { assert rs'[i] == rs[i]; }
    }
    if Balanced(l) {
      forall key: SpendKey ensures Committed(l', key) == Charged(l'.history, key) {
        assert Committed(l, key) == Charged(l.history, key);
      }
    }
  }
}
