/**
 * The cleanup as it runs: auctionEnded, cleanupPlan and cleanupExpired of plugins/bidrl, with the loops they are
 * written with, proved to leave exactly the tables that Cleanup describes, in whatever order rows are read.
 */
module CleanupJob {
  import opened Cleanup

  datatype Lot = Lot(id: string, ends: EndsAt, favorite: bool, pending: bool)
  datatype Auction = Auction(id: string, ends: EndsAt, hidden: bool, lots: seq<Lot>)
  datatype Plan = Plan(dropAuction: bool, hideAuction: bool, dropLots: seq<string>, kept: nat)

  predicate IsPinned(l: Lot) { l.favorite || l.pending }

  // ---- Deciding ------------------------------------------------------------------------------------

  predicate AllClosed(lotEnds: seq<EndsAt>, now: int) {
    && (exists i :: 0 <= i < |lotEnds| && lotEnds[i] != Unknown)
    && forall i :: 0 <= i < |lotEnds| && lotEnds[i] != Unknown ==> HasEnded(lotEnds[i], now)
  }

  method AuctionEnded(auctionEnds: EndsAt, lotEnds: seq<EndsAt>, now: int) returns (ended: bool)
    ensures ended <==> HasEnded(auctionEnds, now) || AllClosed(lotEnds, now)
  {
    if HasEnded(auctionEnds, now) { return true; }
    var known := 0;
    for n := 0 to |lotEnds|
      invariant known >= 0 && (known > 0 <==> exists i :: 0 <= i < n && lotEnds[i] != Unknown)
      invariant forall i :: 0 <= i < n && lotEnds[i] != Unknown ==> HasEnded(lotEnds[i], now)
    {
      if lotEnds[n] == Unknown { continue; }
      known := known + 1;
      if !HasEnded(lotEnds[n], now) { return false; }
    }
    return known > 0;
  }

  function Ends(lots: seq<Lot>): (r: seq<EndsAt>)
    ensures |r| == |lots| && forall i :: 0 <= i < |lots| ==> r[i] == lots[i].ends
  {
    seq(|lots|, i requires 0 <= i < |lots| => lots[i].ends)
  }

  predicate Closed(a: Auction, now: int) { HasEnded(a.ends, now) || AllClosed(Ends(a.lots), now) }

  predicate AnyPinned(lots: seq<Lot>) { exists i :: 0 <= i < |lots| && IsPinned(lots[i]) }

  /** The two lists a plan makes: the lots it drops and the lots it counts as kept. */
  datatype Choice = Dropping | Keeping(closed: bool)

  predicate Picks(c: Choice, l: Lot, now: int) {
    match c
    case Dropping => !IsPinned(l) && HasEnded(l.ends, now)
    case Keeping(closed) => IsPinned(l) && (closed || HasEnded(l.ends, now))
  }

  /** The ids chosen, in order. */
  function Select(lots: seq<Lot>, c: Choice, now: int): seq<string> {
    if lots == [] then []
    else
      var n := |lots| - 1;
      Select(lots[..n], c, now) + if Picks(c, lots[n], now) then [lots[n].id] else []
  }

  method CleanupPlan(a: Auction, now: int) returns (plan: Plan)
    ensures plan.dropAuction <==> Closed(a, now) && !AnyPinned(a.lots)
    ensures plan.hideAuction <==> Closed(a, now) && AnyPinned(a.lots)
    ensures plan.dropAuction ==> plan.dropLots == [] && plan.kept == 0
    ensures !plan.dropAuction ==> plan.dropLots == Select(a.lots, Dropping, now)
    ensures !plan.dropAuction ==> plan.kept == |Select(a.lots, Keeping(plan.hideAuction), now)|
  {
    var lotEnds, pinned := CountPinned(a.lots);
    plan := Plan(false, false, [], 0);
    var ended := AuctionEnded(a.ends, lotEnds, now);
    if ended {
      if pinned == 0 { return Plan(true, false, [], 0); }
      plan := plan.(hideAuction := true);
    }
    ghost var hides := plan.hideAuction;
    for n := 0 to |a.lots|
      invariant !plan.dropAuction && plan.hideAuction == hides
      invariant plan.dropLots == Select(a.lots[..n], Dropping, now)
      invariant plan.kept == |Select(a.lots[..n], Keeping(hides), now)|
    {
      var lot := a.lots[n];
      assert a.lots[..n + 1][..n] == a.lots[..n];
      if IsPinned(lot) {
        if plan.hideAuction || HasEnded(lot.ends, now) { plan := plan.(kept := plan.kept + 1); }
        continue;
      }
      if HasEnded(lot.ends, now) { plan := plan.(dropLots := plan.dropLots + [lot.id]); }
    }
    assert a.lots[..|a.lots|] == a.lots;
  }

  /** The first loop of cleanupPlan. */
  method CountPinned(lots: seq<Lot>) returns (lotEnds: seq<EndsAt>, pinned: nat)
    ensures lotEnds == Ends(lots) && (pinned > 0 <==> AnyPinned(lots))
  {
    lotEnds, pinned := [], 0;
    for n := 0 to |lots|
      invariant lotEnds == Ends(lots[..n])
      invariant pinned > 0 <==> AnyPinned(lots[..n])
    {
      assert lots[..n + 1] == lots[..n] + [lots[n]];
      lotEnds := lotEnds + [lots[n].ends];
      if IsPinned(lots[n]) {
        assert IsPinned(lots[..n + 1][n]);
        pinned := pinned + 1;
      }
    }
    assert lots[..|lots|] == lots;
  }

  // ---- Reading the tables ------------------------------------------------------------------------------

  /** What the query returns for one lot. */
  function View(db: Db, id: string): Lot
    requires id in db.lots
  {
    Lot(id, db.lots[id].ends, id in db.favorites, exists f <- db.findings :: db.findings[f] == Finding(id, true))
  }

  /** The rows of one auction, each once, in some order. */
  ghost predicate Lists(db: Db, ids: set<string>, lots: seq<Lot>) {
    && (forall i :: 0 <= i < |lots| ==> lots[i].id in ids && lots[i].id in db.lots && lots[i] == View(db, lots[i].id))
    && (forall i, j :: 0 <= i < j < |lots| ==> lots[i].id != lots[j].id)
    && (forall id <- ids :: exists i :: 0 <= i < |lots| && lots[i].id == id)
  }

  lemma ListsButLast(db: Db, ids: set<string>, lots: seq<Lot>)
    requires Lists(db, ids, lots) && |lots| > 0
    ensures lots[|lots| - 1].id in ids
    ensures Lists(db, ids - {lots[|lots| - 1].id}, lots[..|lots| - 1])
  {
    var n := |lots| - 1;
    forall id <- ids - {lots[n].id} ensures exists i :: 0 <= i < n && lots[..n][i].id == id {
      var i :| 0 <= i < |lots| && lots[i].id == id;
      assert lots[..n][i].id == id;
    }
  }

  function Chosen(db: Db, ids: set<string>, c: Choice, now: int): set<string>
    requires forall id <- ids :: id in db.lots
  {
    set id <- ids | Picks(c, View(db, id), now)
  }

  lemma ChosenButOne(db: Db, ids: set<string>, c: Choice, now: int, id: string)
    requires id in ids && forall x <- ids :: x in db.lots
    ensures var before := Chosen(db, ids - {id}, c, now);
      && id !in before
      && Chosen(db, ids, c, now) == if Picks(c, View(db, id), now) then before + {id} else before
  {
  }

  lemma {:induction false} SelectExact(db: Db, ids: set<string>, lots: seq<Lot>, c: Choice, now: int)
    requires Lists(db, ids, lots) && forall id <- ids :: id in db.lots
    ensures |Select(lots, c, now)| == |Chosen(db, ids, c, now)|
    ensures forall id :: id in Select(lots, c, now) <==> id in Chosen(db, ids, c, now)
    decreases |lots|
  {
    if lots == [] {
      assert Chosen(db, ids, c, now) == {};
      return;
    }
    var n := |lots| - 1;
    var id := lots[n].id;
    ListsButLast(db, ids, lots);
    assert lots[n] == View(db, id);
    SelectLast(lots, c, now);
    SelectExact(db, ids - {id}, lots[..n], c, now);
    ChosenButOne(db, ids, c, now, id);
  }

  lemma SelectLast(lots: seq<Lot>, c: Choice, now: int)
    requires lots != []
    ensures var n := |lots| - 1; var before := Select(lots[..n], c, now);
      && |Select(lots, c, now)| == |before| + (if Picks(c, lots[n], now) then 1 else 0)
      && forall id :: id in Select(lots, c, now) <==> id in before || (Picks(c, lots[n], now) && id == lots[n].id)
  {
  }

  lemma ViewsAgree(db: Db, a: string, lots: seq<Lot>, now: int)
    requires a in db.auctions && Lists(db, LotsOf(db, a), lots)
    ensures AnyPinned(lots) <==> HasPinned(db, a)
    ensures HasEnded(db.auctions[a].ends, now) || AllClosed(Ends(lots), now) <==> Over(db, a, now)
  {
    assert forall i :: 0 <= i < |lots| ==> lots[i].id in LotsOf(db, a);
    assert forall i :: 0 <= i < |lots| ==> (IsPinned(lots[i]) <==> Pinned(db, lots[i].id));
    ghost var e := Ends(lots);
    assert forall i :: 0 <= i < |lots| ==> e[i] == db.lots[lots[i].id].ends;
  }

  /** loadCleanupAuctions: one query for the auctions, one per auction for its lots. */
  ghost predicate Loaded(db: Db, auctions: seq<Auction>) {
    && (forall i :: 0 <= i < |auctions| ==> LoadedOne(db, auctions[i]))
    && (forall i, j :: 0 <= i < j < |auctions| ==> auctions[i].id != auctions[j].id)
    && (forall id <- db.auctions :: exists i :: 0 <= i < |auctions| && auctions[i].id == id)
  }

  ghost predicate LoadedOne(db: Db, a: Auction) {
    && a.id in db.auctions
    && a.ends == db.auctions[a.id].ends
    && a.hidden == db.auctions[a.id].hidden
    && Lists(db, LotsOf(db, a.id), a.lots)
  }

  method LoadLots(db: Db, a: string) returns (lots: seq<Lot>)
    ensures Lists(db, LotsOf(db, a), lots)
  {
    lots := [];
    var rest := LotsOf(db, a);
    while rest != {}
      invariant rest <= LotsOf(db, a)
      invariant Lists(db, LotsOf(db, a) - rest, lots)
    {
      var id :| id in rest;
      ListsOneMore(db, LotsOf(db, a) - rest, lots, id);
      assert LotsOf(db, a) - rest + {id} == LotsOf(db, a) - (rest - {id});
      lots, rest := lots + [View(db, id)], rest - {id};
    }
    assert LotsOf(db, a) - rest == LotsOf(db, a);
  }

  lemma ListsOneMore(db: Db, ids: set<string>, lots: seq<Lot>, id: string)
    requires Lists(db, ids, lots) && id in db.lots && id !in ids
    ensures Lists(db, ids + {id}, lots + [View(db, id)])
  {
    var more := lots + [View(db, id)];
    forall x <- ids + {id} ensures exists i :: 0 <= i < |more| && more[i].id == x {
      if x == id {
        assert more[|lots|].id == x;
      } else {
        var i :| 0 <= i < |lots| && lots[i].id == x;
        assert more[i].id == x;
      }
    }
  }

  method LoadCleanupAuctions(db: Db) returns (auctions: seq<Auction>)
    ensures Loaded(db, auctions)
  {
    auctions := [];
    var rest := db.auctions.Keys;
    while rest != {}
      invariant rest <= db.auctions.Keys
      invariant forall i :: 0 <= i < |auctions| ==> auctions[i].id !in rest && LoadedOne(db, auctions[i])
      invariant forall i, j :: 0 <= i < j < |auctions| ==> auctions[i].id != auctions[j].id
      invariant forall id <- db.auctions :: id in rest || exists i :: 0 <= i < |auctions| && auctions[i].id == id
    {
      var id :| id in rest;
      var lots := LoadLots(db, id);
      var a := Auction(id, db.auctions[id].ends, db.auctions[id].hidden, lots);
      ghost var was := auctions;
      auctions, rest := auctions + [a], rest - {id};
      assert auctions[|was|].id == id;
      assert forall i :: 0 <= i < |was| ==> auctions[i].id == was[i].id;
    }
  }

  // ---- Applying the plan -------------------------------------------------------------------------------

  /** Those of the lots whose auction has been handled. */
  function Within(db: Db, lots: set<string>, done: set<string>): set<string> {
    set l <- lots | l in db.lots && db.lots[l].auction in done
  }

  /** What one auction's plan contributes, in terms of the tables. */
  lemma ShareOf(db: Db, a: string, now: int)
    requires a in db.auctions
    ensures a in DroppedAuctions(db, now) ==>
      && Within(db, RemovedLots(db, now), {a}) == LotsOf(db, a)
      && Within(db, LooseLots(db, now), {a}) == {} && Within(db, KeptLots(db, now), {a}) == {}
    ensures a !in DroppedAuctions(db, now) ==>
      && Within(db, RemovedLots(db, now), {a}) == Chosen(db, LotsOf(db, a), Dropping, now)
      && Within(db, LooseLots(db, now), {a}) == Chosen(db, LotsOf(db, a), Dropping, now)
      && Within(db, KeptLots(db, now), {a}) == Chosen(db, LotsOf(db, a), Keeping(Over(db, a, now)), now)
  {
    assert forall l <- LotsOf(db, a) :: IsPinned(View(db, l)) <==> Pinned(db, l);
  }

  lemma WithinOneMore(db: Db, lots: set<string>, done: set<string>, a: string)
    requires a !in done
    ensures Within(db, lots, done + {a}) == Within(db, lots, done) + Within(db, lots, {a})
    ensures |Within(db, lots, done + {a})| == |Within(db, lots, done)| + |Within(db, lots, {a})|
  {
    assert Within(db, lots, done + {a}) == Within(db, lots, done) + Within(db, lots, {a});
    assert Within(db, lots, done) !! Within(db, lots, {a});
  }

  /** The tables once the auctions in `done` have been handled. */
  function Partly(db: Db, now: int, done: set<string>): Db {
    Edit(db, DroppedAuctions(db, now) * done, Within(db, RemovedLots(db, now), done), OverAuctions(db, now) * done, {})
  }

  datatype CleanupResult = CleanupResult(auctions: nat, lots: nat, sites: nat, hidden: nat, kept: nat)

  function CountsAfter(db: Db, now: int, done: set<string>): CleanupResult {
    CleanupResult(
      |DroppedAuctions(db, now) * done|, |Within(db, LooseLots(db, now), done)|, 0,
      |NewlyHidden(db, now) * done|, |Within(db, KeptLots(db, now), done)|)
  }

  function Counts(db: Db, now: int): CleanupResult {
    CleanupResult(
      |DroppedAuctions(db, now)|, |LooseLots(db, now)|, |EndedSites(db, now)|, |NewlyHidden(db, now)|, |KeptLots(db, now)|)
  }

  /** Hiding an auction that is gone, or hidden already, makes no difference. */
  lemma HidingAgrees(db: Db, auctions: set<string>, lots: set<string>, hiding: set<string>, hiding': set<string>)
    requires forall a <- db.auctions | a !in auctions && !db.auctions[a].hidden :: a in hiding <==> a in hiding'
    ensures Edit(db, auctions, lots, hiding, {}) == Edit(db, auctions, lots, hiding', {})
  {
    assert Edit(db, auctions, lots, hiding, {}).auctions == Edit(db, auctions, lots, hiding', {}).auctions;
  }

  /** The edits of one auction on top of those of the auctions in `done`. */
  lemma EditOne(db: Db, now: int, done: set<string>, a: string, drop: set<string>, lots: set<string>, hiding: set<string>)
    requires drop == DroppedAuctions(db, now) * {a}
    requires lots == Within(db, RemovedLots(db, now), {a})
    requires a !in done && hiding <= {a}
    requires a in db.auctions && a !in drop && !db.auctions[a].hidden ==> (a in hiding <==> a in OverAuctions(db, now))
    ensures Edit(Partly(db, now, done), drop, lots, hiding, {}) == Partly(db, now, done + {a})
  {
    var dropped, over := DroppedAuctions(db, now), OverAuctions(db, now);
    var gone := Within(db, RemovedLots(db, now), done);
    WithinOneMore(db, RemovedLots(db, now), done, a);
    EditTwice(db, dropped * done, gone, over * done, {}, drop, lots, hiding, {});
    assert dropped * (done + {a}) == dropped * done + drop;
    HidingAgrees(db, dropped * (done + {a}), gone + lots, over * done + hiding, over * (done + {a}));
  }

  lemma LotsStillThere(db: Db, now: int, done: set<string>, a: string)
    requires a !in done
    ensures LotsOf(Partly(db, now, done), a) == LotsOf(db, a)
  {
  }

  lemma CountOneMore(s: set<string>, done: set<string>, a: string)
    requires a !in done
    ensures |s * (done + {a})| == |s * done| + if a in s then 1 else 0
  {
    assert s * (done + {a}) == if a in s then s * done + {a} else s * done;
  }

  /** A plan read in terms of the tables. */
  ghost predicate PlanFits(db: Db, now: int, a: string, plan: Plan)
    requires a in db.auctions
  {
    && (plan.dropAuction <==> a in DroppedAuctions(db, now))
    && (plan.hideAuction <==> Over(db, a, now) && HasPinned(db, a))
    && |plan.dropLots| == |Within(db, LooseLots(db, now), {a})|
    && plan.kept == |Within(db, KeptLots(db, now), {a})|
    && (!plan.dropAuction ==> forall l :: l in plan.dropLots <==> l in Within(db, RemovedLots(db, now), {a}))
  }

  /** cleanupPlan on a loaded auction says what the tables say. */
  method PlanFor(ghost db: Db, a: Auction, now: int) returns (plan: Plan)
    requires LoadedOne(db, a)
    ensures PlanFits(db, now, a.id, plan)
  {
    plan := CleanupPlan(a, now);
    ViewsAgree(db, a.id, a.lots, now);
    ShareOf(db, a.id, now);
    if !plan.dropAuction {
      SelectExact(db, LotsOf(db, a.id), a.lots, Dropping, now);
      SelectExact(db, LotsOf(db, a.id), a.lots, Keeping(plan.hideAuction), now);
    }
  }

  function Tally(c: CleanupResult, plan: Plan, hidden: bool): CleanupResult {
    if plan.dropAuction then CleanupResult(c.auctions + 1, c.lots, c.sites, c.hidden, c.kept + plan.kept)
    else CleanupResult(
      c.auctions, c.lots + |plan.dropLots|, c.sites,
      c.hidden + if plan.hideAuction && !hidden then 1 else 0, c.kept + plan.kept)
  }

  lemma CountsOneMore(db: Db, now: int, done: set<string>, a: string, plan: Plan)
    requires a in db.auctions && a !in done && PlanFits(db, now, a, plan)
    ensures CountsAfter(db, now, done + {a}) == Tally(CountsAfter(db, now, done), plan, db.auctions[a].hidden)
  {
    WithinOneMore(db, LooseLots(db, now), done, a);
    WithinOneMore(db, KeptLots(db, now), done, a);
    CountOneMore(DroppedAuctions(db, now), done, a);
    CountOneMore(NewlyHidden(db, now), done, a);
  }

  lemma AllCounted(db: Db, now: int)
    ensures CountsAfter(db, now, db.auctions.Keys).(sites := |EndedSites(db, now)|) == Counts(db, now)
  {
    assert DroppedAuctions(db, now) * db.auctions.Keys == DroppedAuctions(db, now);
    assert NewlyHidden(db, now) * db.auctions.Keys == NewlyHidden(db, now);
    assert Within(db, LooseLots(db, now), db.auctions.Keys) == LooseLots(db, now);
    assert Within(db, KeptLots(db, now), db.auctions.Keys) == KeptLots(db, now);
  }

  lemma AllDone(db: Db, now: int)
    ensures Edit(Partly(db, now, db.auctions.Keys), {}, {}, {}, EndedSites(db, now)) == Cleaned(db, now)
  {
    var dropped, over, removed := DroppedAuctions(db, now), OverAuctions(db, now), RemovedLots(db, now);
    assert dropped * db.auctions.Keys == dropped;
    assert over * db.auctions.Keys == over;
    assert Within(db, removed, db.auctions.Keys) == removed;
    SitesLast(db, dropped, removed, over, EndedSites(db, now));
  }

  lemma SitesLast(db: Db, auctions: set<string>, lots: set<string>, hiding: set<string>, sites: set<string>)
    ensures Edit(Edit(db, auctions, lots, hiding, {}), {}, {}, {}, sites) == Edit(db, auctions, lots, hiding, sites)
  {
    EditTwice(db, auctions, lots, hiding, {}, {}, {}, {}, sites);
    assert auctions + {} == auctions && lots + {} == lots && hiding + {} == hiding && {} + sites == sites;
  }

  lemma HidingLast(db: Db, lots: set<string>, hiding: set<string>)
    ensures Edit(Edit(db, {}, lots, {}, {}), {}, {}, hiding, {}) == Edit(db, {}, lots, hiding, {})
  {
    EditTwice(db, {}, lots, {}, {}, {}, {}, hiding, {});
    assert lots + {} == lots && {} + hiding == hiding;
  }

  lemma DropFits(db: Db, now: int, done: set<string>, a: string, plan: Plan)
    requires a in db.auctions && a !in done && PlanFits(db, now, a, plan) && plan.dropAuction
    ensures Edit(Partly(db, now, done), {a}, LotsOf(db, a), {}, {}) == Partly(db, now, done + {a})
  {
    ShareOf(db, a, now);
    EditOne(db, now, done, a, {a}, LotsOf(db, a), {});
  }

  lemma StayFits(db: Db, now: int, done: set<string>, a: string, plan: Plan, hiding: set<string>)
    requires a in db.auctions && a !in done && PlanFits(db, now, a, plan) && !plan.dropAuction
    requires hiding == if plan.hideAuction && !db.auctions[a].hidden then {a} else {}
    ensures Edit(Edit(Partly(db, now, done), {}, Members(plan.dropLots), {}, {}), {}, {}, hiding, {})
         == Partly(db, now, done + {a})
  {
    assert Members(plan.dropLots) == Within(db, RemovedLots(db, now), {a});
    EditOne(db, now, done, a, {}, Members(plan.dropLots), hiding);
    HidingLast(Partly(db, now, done), Members(plan.dropLots), hiding);
  }

  function Members(ids: seq<string>): (r: set<string>)
    ensures forall l :: l in r <==> l in ids
  {
    set l <- ids
  }

  const NONE: set<string> := {}

  function IdsOf(auctions: seq<Auction>): set<string> { set a <- auctions :: a.id }

  lemma NextAuction(db: Db, auctions: seq<Auction>, n: nat)
    requires Loaded(db, auctions) && n < |auctions|
    ensures auctions[n].id !in IdsOf(auctions[..n])
    ensures IdsOf(auctions[..n + 1]) == IdsOf(auctions[..n]) + {auctions[n].id}
  {
    assert auctions[..n + 1] == auctions[..n] + [auctions[n]];
  }

  lemma EveryAuction(db: Db, auctions: seq<Auction>)
    requires Loaded(db, auctions)
    ensures IdsOf(auctions[..|auctions|]) == db.auctions.Keys
  {
    assert auctions[..|auctions|] == auctions;
    forall id <- db.auctions ensures id in IdsOf(auctions) {
      var i :| 0 <= i < |auctions| && auctions[i].id == id;
      assert auctions[i] in auctions;
    }
  }

  lemma SitesUntouched(db: Db, now: int, done: set<string>)
    ensures EndedSites(Partly(db, now, done), now) == EndedSites(db, now)
  {
    assert Partly(db, now, done).sites == db.sites;
  }

  // ---- The store ----------------------------------------------------------------------------------------

  class Store {
    var db: Db

    constructor (stored: Db)
      ensures db == stored
    {
      db := stored;
    }

    method DeleteAuction(id: string)
      modifies this
      ensures db == Edit(old(db), {id}, LotsOf(old(db), id), {}, {})
    {
      db := Edit(db, {id}, LotsOf(db, id), {}, {});
    }

    method DeleteLot(id: string)
      modifies this
      ensures db == Edit(old(db), {}, {id}, {}, {})
    {
      db := Edit(db, {}, {id}, {}, {});
    }

    method DeleteLots(ids: seq<string>) returns (n: nat)
      modifies this
      ensures db == Edit(old(db), {}, Members(ids), {}, {}) && n == |ids|
    {
      n := 0;
      EditNothing(db);
      while n < |ids|
        invariant n <= |ids| && db == Edit(old(db), {}, Members(ids[..n]), {}, {})
      {
        EditTwice(old(db), {}, Members(ids[..n]), {}, {}, {}, {ids[n]}, {}, {});
        assert Members(ids[..n + 1]) == Members(ids[..n]) + {ids[n]};
        assert NONE + NONE == NONE;
        DeleteLot(ids[n]);
        n := n + 1;
      }
      assert ids[..n] == ids;
    }

    /** Delete the auction, or its ended lots and then hide it. */
    method ApplyPlan(ghost base: Db, now: int, ghost done: set<string>, a: Auction, plan: Plan)
      requires a.id in base.auctions && a.hidden == base.auctions[a.id].hidden && a.id !in done
      requires PlanFits(base, now, a.id, plan) && db == Partly(base, now, done)
      modifies this
      ensures db == Partly(base, now, done + {a.id})
    {
      if plan.dropAuction {
        LotsStillThere(base, now, done, a.id);
        DropFits(base, now, done, a.id, plan);
        DeleteAuction(a.id);
        return;
      }
      ghost var hiding := if plan.hideAuction && !a.hidden then {a.id} else {};
      StayFits(base, now, done, a.id, plan, hiding);
      var _ := DeleteLots(plan.dropLots);
      if plan.hideAuction && !a.hidden { db := Edit(db, {}, {}, {a.id}, {}); } else { EditNothing(db); }
    }

    /** The body of the loop over auctions. */
    method TidyOne(ghost base: Db, now: int, ghost done: set<string>, a: Auction, soFar: CleanupResult)
      returns (result: CleanupResult)
      requires LoadedOne(base, a) && a.id !in done
      requires db == Partly(base, now, done) && soFar == CountsAfter(base, now, done)
      modifies this
      ensures db == Partly(base, now, done + {a.id}) && result == CountsAfter(base, now, done + {a.id})
    {
      var plan := PlanFor(base, a, now);
      ApplyPlan(base, now, done, a, plan);
      CountsOneMore(base, now, done, a.id, plan);
      result := Tally(soFar, plan, a.hidden);
    }

    method TidyAuctions(auctions: seq<Auction>, now: int) returns (result: CleanupResult)
      requires Loaded(db, auctions)
      modifies this
      ensures db == Partly(old(db), now, old(db).auctions.Keys)
      ensures result == CountsAfter(old(db), now, old(db).auctions.Keys)
    {
      ghost var base := db;
      result := CleanupResult(0, 0, 0, 0, 0);
      NothingDone(base, now);
      ghost var done: set<string> := {};
      for n := 0 to |auctions|
        invariant done == IdsOf(auctions[..n])
        invariant db == Partly(base, now, done) && result == CountsAfter(base, now, done)
      {
        NextAuction(base, auctions, n);
        result := TidyOne(base, now, done, auctions[n], result);
        done := done + {auctions[n].id};
      }
      EveryAuction(base, auctions);
    }

    /** Ended auctions and lots first, then ended affiliate sites. */
    method CleanupExpired(now: int) returns (result: CleanupResult)
      modifies this
      ensures db == Cleaned(old(db), now) && result == Counts(old(db), now)
    {
      AllDone(db, now);
      AllCounted(db, now);
      var auctions := LoadCleanupAuctions(db);
      result := TidyAuctions(auctions, now);
      SitesUntouched(old(db), now, old(db).auctions.Keys);
      var n := RemoveSites(EndedSites(db, now));
      result := result.(sites := n);
    }

    method RemoveSites(ids: set<string>) returns (n: nat)
      modifies this
      ensures db == Edit(old(db), {}, {}, {}, ids) && n == |ids|
    {
      n := 0;
      var rest := ids;
      EditNothing(db);
      assert ids - rest == {};
      while rest != {}
        invariant rest <= ids && n == |ids - rest| && db == Edit(old(db), {}, {}, {}, ids - rest)
      {
        var id :| id in rest;
        EditTwice(old(db), {}, {}, {}, ids - rest, {}, {}, {}, {id});
        assert ids - (rest - {id}) == (ids - rest) + {id};
        assert NONE + NONE == NONE;
        db := Edit(db, {}, {}, {}, {id});
        rest, n := rest - {id}, n + 1;
      }
      assert ids - rest == ids;
    }
  }

  lemma EditNothing(db: Db)
    ensures Edit(db, {}, {}, {}, {}) == db
  {
    assert Edit(db, {}, {}, {}, {}).auctions == db.auctions;
  }

  lemma NothingDone(db: Db, now: int)
    ensures Partly(db, now, {}) == db && CountsAfter(db, now, {}) == CleanupResult(0, 0, 0, 0, 0)
  {
    EditNothing(db);
    assert Within(db, RemovedLots(db, now), {}) == {};
  }

  /** Running the cleanup again at the same instant changes no table and reports no work done. */
  lemma SecondRunCountsNothing(db: Db, now: int)
    ensures Cleaned(Cleaned(db, now), now) == Cleaned(db, now)
    ensures Counts(Cleaned(db, now), now) == CleanupResult(0, 0, 0, 0, |KeptLots(Cleaned(db, now), now)|)
  {
    EarlierTidyIsAbsorbed(db, now, now);
    SecondTidyFindsNothing(db, now);
  }
}
