/**
 * Removing auctions that have ended: plugins/bidrl/cleanup.go and the close-time rules of plugins/bidrl/query.go.
 *
 * A close time is empty, present but unreadable, or an instant. The tables are maps; the rows of other tables that
 * hang off a lot are represented by its favorite mark, its findings and its images.
 */
module Cleanup {
  datatype EndsAt = Unknown | Unreadable | At(t: int)

  predicate HasEnded(ends: EndsAt, now: int) { ends.At? && ends.t < now }

  // ---- Tables ------------------------------------------------------------------------------------

  datatype AuctionRow = AuctionRow(ends: EndsAt, hidden: bool)
  datatype LotRow = LotRow(auction: string, ends: EndsAt)
  datatype Finding = Finding(lot: string, undecided: bool)

  datatype Db = Db(
    auctions: map<string, AuctionRow>, lots: map<string, LotRow>, favorites: set<string>,
    findings: map<string, Finding>, images: set<(string, nat)>, sites: map<string, EndsAt>)

  predicate Pinned(db: Db, l: string) {
    l in db.favorites || exists f <- db.findings :: db.findings[f] == Finding(l, true)
  }

  function LotsOf(db: Db, a: string): (r: set<string>)
    ensures forall l :: l in r <==> l in db.lots && db.lots[l].auction == a
  {
    set l | l in db.lots && db.lots[l].auction == a
  }

  predicate HasPinned(db: Db, a: string) { exists l <- LotsOf(db, a) :: Pinned(db, l) }

  predicate HasKnown(db: Db, a: string) { exists l <- LotsOf(db, a) :: db.lots[l].ends != Unknown }

  /** The auction's own close has passed, or some lot recorded a close and every recorded close has passed. */
  predicate Over(db: Db, a: string, now: int)
    requires a in db.auctions
  {
    || HasEnded(db.auctions[a].ends, now)
    || (HasKnown(db, a) && forall l <- LotsOf(db, a) :: db.lots[l].ends == Unknown || HasEnded(db.lots[l].ends, now))
  }

  // ---- What a tidy removes, keeps and hides ------------------------------------------------------------

  function DroppedAuctions(db: Db, now: int): set<string> {
    set a <- db.auctions | Over(db, a, now) && !HasPinned(db, a)
  }

  function OverAuctions(db: Db, now: int): set<string> { set a <- db.auctions | Over(db, a, now) }

  function NewlyHidden(db: Db, now: int): set<string> {
    set a <- db.auctions | Over(db, a, now) && HasPinned(db, a) && !db.auctions[a].hidden
  }

  /** Lots of auctions that stay, removed one by one. */
  function LooseLots(db: Db, now: int): set<string> {
    set l <- db.lots | db.lots[l].auction in db.auctions && db.lots[l].auction !in DroppedAuctions(db, now)
      && !Pinned(db, l) && HasEnded(db.lots[l].ends, now)
  }

  function RemovedLots(db: Db, now: int): set<string> {
    LooseLots(db, now) + set l <- db.lots | db.lots[l].auction in DroppedAuctions(db, now)
  }

  function EndedSites(db: Db, now: int): set<string> { set s <- db.sites | HasEnded(db.sites[s], now) }

  /** Pinned lots reported as kept. */
  function KeptLots(db: Db, now: int): set<string> {
    set l <- db.lots | db.lots[l].auction in db.auctions && Pinned(db, l)
      && (Over(db, db.lots[l].auction, now) || HasEnded(db.lots[l].ends, now))
  }

  /** Take out auctions and lots with everything hanging off them, and hide some auctions. */
  function Edit(db: Db, auctions: set<string>, lots: set<string>, hiding: set<string>, sites: set<string>): Db {
    Db(
      map a | a in db.auctions && a !in auctions :: db.auctions[a].(hidden := db.auctions[a].hidden || a in hiding),
      map l | l in db.lots && l !in lots :: db.lots[l],
      db.favorites - lots,
      map f | f in db.findings && db.findings[f].lot !in lots :: db.findings[f],
      set i <- db.images | i.0 !in lots,
      map s | s in db.sites && s !in sites :: db.sites[s])
  }

  /** The tables after one tidy. */
  function Cleaned(db: Db, now: int): Db {
    Edit(db, DroppedAuctions(db, now), RemovedLots(db, now), OverAuctions(db, now), EndedSites(db, now))
  }

  // ---- What is promised about lots ------------------------------------------------------------------------

  /** A saved or undecided lot stays, with its marks, its findings and its images. */
  lemma PinnedLotsStay(db: Db, now: int, l: string)
    requires l in db.lots && Pinned(db, l)
    ensures l in Cleaned(db, now).lots && Cleaned(db, now).lots[l] == db.lots[l]
    ensures db.lots[l].auction in db.auctions ==> db.lots[l].auction in Cleaned(db, now).auctions
    ensures l in db.favorites <==> l in Cleaned(db, now).favorites
    ensures forall f <- db.findings | db.findings[f].lot == l :: f in Cleaned(db, now).findings
    ensures forall i <- db.images | i.0 == l :: i in Cleaned(db, now).images
  {
    assert l in LotsOf(db, db.lots[l].auction);
  }

  /** Of a known auction, exactly the pinned lots survive, and the open ones unless the auction goes. */
  lemma SurvivorsExact(db: Db, now: int, l: string)
    requires l in db.lots && db.lots[l].auction in db.auctions
    ensures l in Cleaned(db, now).lots <==>
      || Pinned(db, l)
      || (!HasEnded(db.lots[l].ends, now) && (HasPinned(db, db.lots[l].auction) || !Over(db, db.lots[l].auction, now)))
  {
    assert l in LotsOf(db, db.lots[l].auction);
  }

  /** A close time counts once it is readable and strictly in the past. */
  predicate Past(ends: EndsAt, now: int) {
    match ends
    case Unknown => false
    case Unreadable => false
    case At(t) => t < now
  }

  /** An auction is over by its own close, or by those of its lots that say anything, if any does. */
  ghost predicate IsOver(db: Db, a: string, now: int)
    requires a in db.auctions
  {
    var known := set l <- db.lots | db.lots[l].auction == a && !db.lots[l].ends.Unknown?;
    Past(db.auctions[a].ends, now) || (known != {} && forall l <- known :: Past(db.lots[l].ends, now))
  }

  predicate IsPinned(db: Db, l: string) {
    l in db.favorites || exists f <- db.findings :: db.findings[f].lot == l && db.findings[f].undecided
  }

  /** Some lot of the auction is pinned. */
  predicate Guarded(db: Db, a: string) { exists l <- db.lots :: db.lots[l].auction == a && IsPinned(db, l) }

  /** Every table after a tidy: which rows stay, and that they stay as they were but for the hidden mark. */
  lemma TidyExact(db: Db, now: int)
    ensures var db' := Cleaned(db, now);
      && (forall a :: a in db'.auctions <==> a in db.auctions && (IsOver(db, a, now) ==> Guarded(db, a)))
      && (forall a <- db'.auctions ::
           db'.auctions[a] == AuctionRow(db.auctions[a].ends, db.auctions[a].hidden || IsOver(db, a, now)))
      && (forall l <- db'.lots :: l in db.lots && db'.lots[l] == db.lots[l])
      && (forall l <- db.lots | db.lots[l].auction !in db.auctions :: l in db'.lots)
      && (forall s :: s in db'.sites <==> s in db.sites && !Past(db.sites[s], now))
      && (forall s <- db'.sites :: db'.sites[s] == db.sites[s])
  {
    forall a <- db.auctions ensures IsOver(db, a, now) <==> Over(db, a, now) { OverMeans(db, a, now); }
    forall a <- db.auctions ensures HasPinned(db, a) <==> Guarded(db, a) { GuardedMeans(db, a); }
  }

  /** What hangs off a lot goes with it and with nothing else. */
  lemma DependentsFollow(db: Db, now: int)
    ensures var db' := Cleaned(db, now); var gone := db.lots.Keys - db'.lots.Keys;
      && db'.favorites == db.favorites - gone
      && db'.images == (set i <- db.images | i.0 !in gone)
      && (forall f :: f in db'.findings <==> f in db.findings && db.findings[f].lot !in gone)
      && (forall f <- db'.findings :: db'.findings[f] == db.findings[f])
  {
    var db' := Cleaned(db, now);
    assert db.lots.Keys - db'.lots.Keys == RemovedLots(db, now);
  }

  lemma OverMeans(db: Db, a: string, now: int)
    requires a in db.auctions
    ensures Over(db, a, now) <==> IsOver(db, a, now)
  {
    var known := set l <- db.lots | db.lots[l].auction == a && !db.lots[l].ends.Unknown?;
    assert forall l :: l in known <==> l in LotsOf(db, a) && db.lots[l].ends != Unknown;
    assert HasKnown(db, a) <==> known != {};
  }

  lemma PinMeans(db: Db, l: string)
    ensures Pinned(db, l) <==> IsPinned(db, l)
  {
    if f :| f in db.findings && db.findings[f].lot == l && db.findings[f].undecided {
      assert db.findings[f] == Finding(l, true);
    }
  }

  lemma GuardedMeans(db: Db, a: string)
    ensures HasPinned(db, a) <==> Guarded(db, a)
  {
    forall l ensures Pinned(db, l) <==> IsPinned(db, l) { PinMeans(db, l); }
    if l :| l in db.lots && db.lots[l].auction == a && IsPinned(db, l) { assert l in LotsOf(db, a); }
  }

  /** The same tables with nothing saved and nothing waiting for a decision. */
  function Unmarked(db: Db): Db { db.(favorites := {}, findings := map[]) }

  /** A lot is reported as kept exactly when it is pinned and would otherwise have gone. */
  lemma KeptMeans(db: Db, now: int, l: string)
    ensures l in KeptLots(db, now) <==> l in db.lots && IsPinned(db, l) && l !in Cleaned(Unmarked(db), now).lots
  {
    if l !in db.lots { return; }
    var a, u := db.lots[l].auction, Unmarked(db);
    assert Pinned(db, l) <==> IsPinned(db, l) by { PinMeans(db, l); }
    assert forall x :: !Pinned(u, x);
    if a in db.auctions {
      assert LotsOf(u, a) == LotsOf(db, a);
      SurvivorsExact(u, now, l);
    }
  }

  // ---- Tidying again ------------------------------------------------------------------------------------------

  lemma PinnedUnchanged(db: Db, now: int, l: string)
    requires l in Cleaned(db, now).lots
    ensures Pinned(Cleaned(db, now), l) <==> Pinned(db, l)
  {
    var db' := Cleaned(db, now);
    assert l !in RemovedLots(db, now);
    if f :| f in db.findings && db.findings[f] == Finding(l, true) { assert db'.findings[f] == Finding(l, true); }
  }

  lemma HasPinnedUnchanged(db: Db, now: int, a: string)
    requires a in Cleaned(db, now).auctions
    ensures HasPinned(Cleaned(db, now), a) <==> HasPinned(db, a)
  {
    var db' := Cleaned(db, now);
    if l :| l in LotsOf(db, a) && Pinned(db, l) {
      PinnedLotsStay(db, now, l);
      PinnedUnchanged(db, now, l);
      assert l in LotsOf(db', a);
    }
    if l :| l in LotsOf(db', a) && Pinned(db', l) {
      PinnedUnchanged(db, now, l);
      assert l in LotsOf(db, a);
    }
  }

  lemma EndedStays(ends: EndsAt, now: int, later: int)
    requires now <= later && HasEnded(ends, now)
    ensures HasEnded(ends, later)
  {
  }

  /** An auction that was not over looks the same to any later tidy. */
  lemma OpenStaysExact(db: Db, now: int, later: int, a: string)
    requires now <= later && a in db.auctions && !Over(db, a, now)
    ensures a in Cleaned(db, now).auctions && (Over(Cleaned(db, now), a, later) <==> Over(db, a, later))
  {
    var db' := Cleaned(db, now);
    assert LotsOf(db', a) <= LotsOf(db, a);
    if HasKnown(db, a) {
      var open :| open in LotsOf(db, a) && db.lots[open].ends != Unknown && !HasEnded(db.lots[open].ends, now);
      assert open in LotsOf(db', a);
    }
    forall l <- LotsOf(db, a) | l !in LotsOf(db', a) ensures HasEnded(db.lots[l].ends, later) {
      EndedStays(db.lots[l].ends, now, later);
    }
  }

  lemma OverStaysOver(db: Db, now: int, later: int, a: string)
    requires now <= later && a in db.auctions && Over(db, a, now)
    ensures Over(db, a, later)
  {
  }

  /** What the second tidy drops together with what the first one dropped is what the second alone would drop. */
  lemma DroppedAdd(db: Db, now: int, later: int)
    requires now <= later
    ensures DroppedAuctions(db, now) + DroppedAuctions(Cleaned(db, now), later) == DroppedAuctions(db, later)
  {
    var db' := Cleaned(db, now);
    forall a <- db.auctions
      ensures a in DroppedAuctions(db, later) <==> a in DroppedAuctions(db, now) || a in DroppedAuctions(db', later)
    {
      if Over(db, a, now) { OverStaysOver(db, now, later, a); } else { OpenStaysExact(db, now, later, a); }
      if a in db'.auctions { HasPinnedUnchanged(db, now, a); }
    }
  }

  lemma RemovedAdd(db: Db, now: int, later: int)
    requires now <= later
    ensures RemovedLots(db, now) + RemovedLots(Cleaned(db, now), later) == RemovedLots(db, later)
  {
    var db' := Cleaned(db, now);
    DroppedAdd(db, now, later);
    forall l <- db.lots
      ensures l in RemovedLots(db, later) <==> l in RemovedLots(db, now) || l in RemovedLots(db', later)
    {
      RemovedOne(db, now, later, l);
    }
  }

  lemma RemovedOne(db: Db, now: int, later: int, l: string)
    requires now <= later && l in db.lots
    requires DroppedAuctions(db, now) + DroppedAuctions(Cleaned(db, now), later) == DroppedAuctions(db, later)
    ensures l in RemovedLots(db, later) <==> l in RemovedLots(db, now) || l in RemovedLots(Cleaned(db, now), later)
  {
    var db' := Cleaned(db, now);
    var a := db.lots[l].auction;
    if l in db'.lots {
      PinnedUnchanged(db, now, l);
    } else if a !in DroppedAuctions(db, now) {
      EndedStays(db.lots[l].ends, now, later);
    }
  }

  lemma OverAdd(db: Db, now: int, later: int, a: string)
    requires now <= later && a in Cleaned(db, now).auctions
    ensures a in OverAuctions(db, later) <==> a in OverAuctions(db, now) || a in OverAuctions(Cleaned(db, now), later)
  {
    if Over(db, a, now) { OverStaysOver(db, now, later, a); } else { OpenStaysExact(db, now, later, a); }
  }

  lemma EditTwice(
      db: Db, auctions: set<string>, lots: set<string>, hiding: set<string>, sites: set<string>,
      auctions': set<string>, lots': set<string>, hiding': set<string>, sites': set<string>)
    ensures Edit(Edit(db, auctions, lots, hiding, sites), auctions', lots', hiding', sites')
         == Edit(db, auctions + auctions', lots + lots', hiding + hiding', sites + sites')
  {
    var x := Edit(Edit(db, auctions, lots, hiding, sites), auctions', lots', hiding', sites');
    var y := Edit(db, auctions + auctions', lots + lots', hiding + hiding', sites + sites');
    assert x.auctions == y.auctions;
    assert x.lots == y.lots;
    assert x.favorites == y.favorites;
    assert x.findings == y.findings;
    assert x.images == y.images;
    assert x.sites == y.sites;
  }

  lemma SameHiding(db: Db, auctions: set<string>, lots: set<string>, hiding: set<string>, hiding': set<string>, sites: set<string>)
    requires forall a <- db.auctions | a !in auctions :: a in hiding <==> a in hiding'
    ensures Edit(db, auctions, lots, hiding, sites) == Edit(db, auctions, lots, hiding', sites)
  {
    assert Edit(db, auctions, lots, hiding, sites).auctions == Edit(db, auctions, lots, hiding', sites).auctions;
  }

  lemma SitesAdd(db: Db, now: int, later: int)
    requires now <= later
    ensures EndedSites(db, now) + EndedSites(Cleaned(db, now), later) == EndedSites(db, later)
  {
    var db' := Cleaned(db, now);
    forall s <- db.sites ensures s in EndedSites(db, later) <==> s in EndedSites(db, now) || s in EndedSites(db', later) {
      if s !in db'.sites { EndedStays(db.sites[s], now, later); }
    }
  }

  /**
   * Tidying early never changes what a later tidy leaves behind, for every mix of known, empty and unreadable close
   * times. With `later == now` this is idempotence.
   */
  lemma EarlierTidyIsAbsorbed(db: Db, now: int, later: int)
    requires now <= later
    ensures Cleaned(Cleaned(db, now), later) == Cleaned(db, later)
  {
    var db' := Cleaned(db, now);
    var dropped, removed, sites := DroppedAuctions(db, later), RemovedLots(db, later), EndedSites(db, later);
    var over, over' := OverAuctions(db, now), OverAuctions(db', later);
    DroppedAdd(db, now, later);
    RemovedAdd(db, now, later);
    SitesAdd(db, now, later);
    EditTwice(
      db, DroppedAuctions(db, now), RemovedLots(db, now), over, EndedSites(db, now),
      DroppedAuctions(db', later), RemovedLots(db', later), over', EndedSites(db', later));
    assert Cleaned(db', later) == Edit(db, dropped, removed, over + over', sites);
    forall a <- db.auctions | a !in dropped ensures a in over + over' <==> a in OverAuctions(db, later) {
      assert a in db'.auctions;
      OverAdd(db, now, later, a);
    }
    SameHiding(db, dropped, removed, over + over', OverAuctions(db, later), sites);
  }

  /** Running it again at the same instant drops nothing and newly hides nothing. */
  lemma SecondTidyFindsNothing(db: Db, now: int)
    ensures var db' := Cleaned(db, now);
      && DroppedAuctions(db', now) == {} && RemovedLots(db', now) == {}
      && NewlyHidden(db', now) == {} && EndedSites(db', now) == {}
      && LooseLots(db', now) == {}
  {
    var db' := Cleaned(db, now);
    DroppedAdd(db, now, now);
    RemovedAdd(db, now, now);
    forall a <- db'.auctions ensures a !in NewlyHidden(db', now) { OverAdd(db, now, now, a); }
  }

  // ---- The kept count is not stable ---------------------------------------------------------------------------

  /** Nothing but empty close times would keep the auction looking over once its ended lots are gone. */
  predicate LosesItsEnd(db: Db, a: string, now: int)
    requires a in db.auctions
  {
    && !HasEnded(db.auctions[a].ends, now)
    && HasKnown(db, a)
    && HasPinned(db, a)
    && forall l <- LotsOf(db, a) :: if Pinned(db, l) then db.lots[l].ends == Unknown
                                    else db.lots[l].ends == Unknown || HasEnded(db.lots[l].ends, now)
  }

  lemma LostEnd(db: Db, a: string, now: int)
    requires a in Cleaned(db, now).auctions && Over(db, a, now) && HasPinned(db, a)
    ensures !Over(Cleaned(db, now), a, now) <==> LosesItsEnd(db, a, now)
  {
    var db' := Cleaned(db, now);
    assert forall l :: l in LotsOf(db', a) <==> l in LotsOf(db, a) && (Pinned(db, l) || !HasEnded(db.lots[l].ends, now));
    if !HasEnded(db.auctions[a].ends, now) && !LosesItsEnd(db, a, now) {
      var l :| l in LotsOf(db, a) && Pinned(db, l) && db.lots[l].ends != Unknown;
      assert l in LotsOf(db', a);
    }
  }

  /**
   * The second run reports the same lots as kept exactly when no auction rests on unpinned lots alone for its end.
   */
  lemma KeptStableIff(db: Db, now: int)
    ensures KeptLots(Cleaned(db, now), now) == KeptLots(db, now) <==> forall a <- db.auctions :: !LosesItsEnd(db, a, now)
  {
    var db' := Cleaned(db, now);
    if a :| a in db.auctions && LosesItsEnd(db, a, now) {
      LostEnd(db, a, now);
      var l :| l in LotsOf(db, a) && Pinned(db, l);
      assert l in KeptLots(db, now);
      assert l !in KeptLots(db', now);
    } else {
      forall l ensures l in KeptLots(db', now) <==> l in KeptLots(db, now) { KeptOne(db, now, l); }
    }
  }

  lemma KeptOne(db: Db, now: int, l: string)
    requires forall a <- db.auctions :: !LosesItsEnd(db, a, now)
    ensures l in KeptLots(Cleaned(db, now), now) <==> l in KeptLots(db, now)
  {
    var db' := Cleaned(db, now);
    if l in db.lots && db.lots[l].auction in db.auctions && Pinned(db, l) {
      var a := db.lots[l].auction;
      PinnedLotsStay(db, now, l);
      PinnedUnchanged(db, now, l);
      assert l in LotsOf(db, a);
      if Over(db, a, now) { LostEnd(db, a, now); } else { OpenStaysExact(db, now, now, a); }
    } else if l in db'.lots {
      PinnedUnchanged(db, now, l);
    }
  }

  /** An undated saved lot in an undated auction, beside one that has closed: kept once, then no longer counted. */
  lemma KeptDrifts(a: string, saved: string, sold: string)
    requires saved != sold
    ensures var db := Undated(a, saved, sold); KeptLots(db, 1) == {saved} && KeptLots(Cleaned(db, 1), 1) == {}
  {
    var db := Undated(a, saved, sold);
    assert saved in LotsOf(db, a) && sold in LotsOf(db, a);
    assert Pinned(db, saved) && !Pinned(db, sold);
    assert LosesItsEnd(db, a, 1) && Over(db, a, 1);
    LostEnd(db, a, 1);
    assert forall l <- Cleaned(db, 1).lots :: l == saved;
  }

  function Undated(a: string, saved: string, sold: string): Db {
    Db(map[a := AuctionRow(Unknown, false)], map[saved := LotRow(a, Unknown), sold := LotRow(a, At(0))],
       {saved}, map[], {}, map[])
  }
}
