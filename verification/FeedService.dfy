/**
 * The live feed as an object: the fields of liveFeed in plugins/bidrl/live.go, changed by its critical sections.
 *
 * The object carries, as a ghost trace, the run of LiveFeed's transition system that produced its state, and
 * every method extends that run. Where the other goroutines stand, and which sockets are
 * live, is ghost too: so a method can say what its section means for all of them.
 */
module FeedService {
  import opened Common
  import opened LiveFeed

  ghost predicate Reached(trace: seq<Step>, s: System) { Run(INIT, trace) == Some(s) }

  lemma ReachedNext(trace: seq<Step>, s: System, step: Step)
    requires Reached(trace, s) && Apply(s, step).Some?
    ensures Reached(trace + [step], Apply(s, step).value)
  {
    assert (trace + [step])[..|trace|] == trace;
  }

  // ---- What a reached state promises --------------------------------------------------------------------

  lemma FewLots(trace: seq<Step>, s: System)
    requires Reached(trace, s)
    ensures |s.core.lots| <= MAX_LIVE_LOTS
  {
    Reachable(trace);
  }

  /** A cancel in `stop` belongs to a live feed on the set last built, and no goroutine is about to call it. */
  lemma StopIsLive(trace: seq<Step>, s: System)
    requires Reached(trace, s) && s.core.stop.Some?
    ensures var f := s.core.stop.value; f in s.feeds && s.feeds[f] == Feed(s.built, s.feeds[f].started, false)
    ensures NobodyHolds(s, s.core.stop.value)
  {
    Reachable(trace);
  }

  ghost predicate NobodyHolds(s: System, f: nat) { forall t <- s.threads :: !Holds(s.threads[t], f) }

  /** A rebuild whose generation is still current finds `stop` empty and carries the set last built. */
  lemma CurrentFindsEmpty(trace: seq<Step>, s: System, t: nat)
    requires Reached(trace, s) && t in s.threads && s.threads[t].Opening? && s.threads[t].gen == s.core.gen
    ensures s.core.stop == None && s.threads[t].watched == s.built
  {
    Reachable(trace);
    assert Current(s, t);
  }

  /** Every rebuild under way but this one is of an older generation. */
  ghost predicate OthersOutdated(s: System, t: nat) {
    forall u <- s.threads | u != t :: Building(s.threads[u]) ==> s.threads[u].gen < s.core.gen
  }

  lemma GenerationsPast(trace: seq<Step>, s: System)
    requires Reached(trace, s)
    ensures forall u <- s.threads :: Building(s.threads[u]) ==> s.threads[u].gen <= s.core.gen
  {
    Reachable(trace);
  }

  /** Every live feed but `prev` is in the hands of another goroutine that is about to cancel it. */
  ghost predicate OthersHold(s: System, t: nat, prev: Option<nat>) {
    forall f <- s.feeds | !s.feeds[f].cancelled && prev != Some(f) :: HeldByOther(s, t, f)
  }

  ghost predicate HeldByOther(s: System, t: nat, f: nat) { exists u :: u in s.threads && u != t && Holds(s.threads[u], f) }

  /** When a goroutine that held nothing takes the cancel in `stop`, the others hold what they held. */
  lemma OthersStillHold(trace: seq<Step>, s: System, t: nat, s': System)
    requires Reached(trace, s) && t in s.threads && (s.threads[t].Fired? || s.threads[t].Closing?)
    requires s'.feeds == s.feeds && t in s'.threads && s'.threads == s.threads[t := s'.threads[t]]
    ensures OthersHold(s', t, s.core.stop)
    ensures s.core.stop.Some? ==> !HeldByOther(s', t, s.core.stop.value)
  {
    Reachable(trace);
    forall f <- s.feeds | !s.feeds[f].cancelled && s.core.stop != Some(f) ensures HeldByOther(s', t, f) {
      var u :| u in s.threads && Holds(s.threads[u], f);
      assert u in s'.threads && s'.threads[u] == s.threads[u];
    }
  }

  lemma TakeMeans(trace: seq<Step>, s: System, t: nat)
    requires Reached(trace, s) && t in s.threads && s.threads[t].Fired?
    ensures var s' := s.(core := s.core.(gen := s.core.gen + 1, stop := None), built := s.core.lots,
        threads := s.threads[t := Swapping(s.core.gen + 1, s.core.lots, s.core.stop)]);
      Apply(s, Take(t)) == Some(s') && OthersHold(s', t, s.core.stop) && OthersOutdated(s', t)
      && (s.core.stop.Some? ==> !HeldByOther(s', t, s.core.stop.value))
  {
    var s' := Apply(s, Take(t)).value;
    OthersStillHold(trace, s, t, s');
    GenerationsPast(trace, s);
  }

  lemma CloseMeans(trace: seq<Step>, s: System, t: nat)
    requires Reached(trace, s) && t in s.threads && s.threads[t].Closing?
    ensures var s' := System(Core(map[], Absent, s.core.gen + 1, None), s.threads[t := Closed(s.core.stop)], s.feeds, map[]);
      Apply(s, DoClose(t)) == Some(s') && OthersHold(s', t, s.core.stop) && OthersOutdated(s', t)
      && (s.core.stop.Some? ==> !HeldByOther(s', t, s.core.stop.value))
  {
    var s' := Apply(s, DoClose(t)).value;
    OthersStillHold(trace, s, t, s');
    GenerationsPast(trace, s);
  }

  /** Between sections nothing but goroutines and sockets changes, and no socket comes back to life. */
  lemma BetweenFrame(s: System, step: Step)
    requires Apply(s, step).Some?
    requires step.HostGone? || step.Shutdown? || step.CloseCancel? || step.CancelPrev? || step.Launch?
    ensures var s' := Apply(s, step).value; s'.core == s.core && s'.built == s.built
    ensures NoRevival(s.feeds, Apply(s, step).value.feeds)
  {
  }

  ghost predicate NoRevival(feeds: map<nat, Feed>, feeds': map<nat, Feed>) {
    forall f <- feeds :: f in feeds' && (feeds[f].cancelled ==> feeds'[f].cancelled)
  }

  // ---- The object -----------------------------------------------------------------------------------------

  class Service {
    var lots: Watch
    var timer: Timer
    var gen: nat
    var stop: Option<nat>
    ghost var threads: map<nat, Thread>
    ghost var feeds: map<nat, Feed>
    ghost var built: Watch
    ghost var trace: seq<Step>

    ghost function Sys(): System
      reads this
    {
      System(Core(lots, timer, gen, stop), threads, feeds, built)
    }

    ghost predicate Valid()
      reads this
    {
      Reached(trace, Sys())
    }

    constructor ()
      ensures Valid() && lots == map[] && stop == None && trace == []
    {
      lots, timer, gen, stop := map[], Absent, 0, None;
      threads, feeds, built, trace := map[], map[], map[], [];
    }

    /** The watch set never outgrows its bound; a lot is refused only when it is full. */
    method Join(ghost t: nat, id: string, auction: string) returns (scheduled: bool)
      requires Valid() && t !in threads
      modifies this
      ensures Valid() && trace == old(trace) + [JoinLot(t, id, auction)]
      ensures |lots| <= MAX_LIVE_LOTS && (scheduled <==> |old(lots)| < MAX_LIVE_LOTS)
      ensures scheduled ==> id in lots && lots[id] == auction && threads == old(threads)[t := Scheduling]
      ensures forall x | x != id || !scheduled :: x in lots <==> x in old(lots)
      ensures forall x <- lots | x != id || !scheduled :: lots[x] == old(lots)[x]
      ensures stop == old(stop) && feeds == old(feeds)
    {
      FewLots(trace, Sys());
      ReachedNext(trace, Sys(), JoinLot(t, id, auction));
      trace := trace + [JoinLot(t, id, auction)];
      if |lots| >= MAX_LIVE_LOTS { return false; }
      lots := lots[id := auction];
      threads := threads[t := Scheduling];
      FewLots(trace, Sys());
      return true;
    }

    /** The lot is watched no longer, and a rebuild is on its way if it was. */
    method Leave(ghost t: nat, id: string) returns (scheduled: bool)
      requires Valid() && t !in threads
      modifies this
      ensures Valid() && trace == old(trace) + [LeaveLot(t, id)]
      ensures id !in lots && |lots| <= MAX_LIVE_LOTS
      ensures scheduled <==> lots != old(lots)
      ensures scheduled ==> threads == old(threads)[t := Scheduling]
      ensures forall x | x != id :: x in lots <==> x in old(lots)
      ensures forall x <- lots :: lots[x] == old(lots)[x]
      ensures stop == old(stop) && feeds == old(feeds)
    {
      FewLots(trace, Sys());
      ReachedNext(trace, Sys(), LeaveLot(t, id));
      trace := trace + [LeaveLot(t, id)];
      if id !in lots { return false; }
      lots := lots - {id};
      threads := threads[t := Scheduling];
      FewLots(trace, Sys());
      return true;
    }

    method Schedule(ghost t: nat)
      requires Valid() && t in threads && threads[t].Scheduling?
      modifies this
      ensures Valid() && trace == old(trace) + [DoSchedule(t)]
      ensures timer == Armed && threads == old(threads) - {t} && lots == old(lots) && stop == old(stop) && feeds == old(feeds)
    {
      ReachedNext(trace, Sys(), DoSchedule(t));
      trace := trace + [DoSchedule(t)];
      timer := Armed;
      threads := threads - {t};
    }

    /** The runtime fires the timer on a goroutine of its own. */
    method TimerFires(ghost t: nat)
      requires Valid() && t !in threads && timer == Armed
      modifies this
      ensures Valid() && trace == old(trace) + [Fire(t)]
      ensures timer == Idle && threads == old(threads)[t := Fired] && lots == old(lots) && stop == old(stop) && feeds == old(feeds)
    {
      ReachedNext(trace, Sys(), Fire(t));
      trace := trace + [Fire(t)];
      timer := Idle;
      threads := threads[t := Fired];
    }

    /**
     * rebuild's first section. The cancel handed over, if there is one, is of a live feed and is now in this
     * goroutine's hands alone; every other rebuild under way is outdated by this one.
     */
    method TakeForRebuild(ghost t: nat) returns (mine: nat, watched: Watch, prev: Option<nat>)
      requires Valid() && t in threads && threads[t].Fired?
      modifies this
      ensures Valid() && trace == old(trace) + [Take(t)]
      ensures watched == lots == built && lots == old(lots) && stop == None && feeds == old(feeds)
      ensures mine == gen > old(gen) && threads == old(threads)[t := Swapping(mine, watched, prev)]
      ensures prev.Some? ==>
        && prev.value in feeds && !feeds[prev.value].cancelled && feeds[prev.value].watched == old(built)
        && !HeldByOther(Sys(), t, prev.value)
      ensures OthersHold(Sys(), t, prev)
      ensures OthersOutdated(Sys(), t)
    {
      if stop.Some? { StopIsLive(trace, Sys()); }
      TakeMeans(trace, Sys(), t);
      ReachedNext(trace, Sys(), Take(t));
      trace := trace + [Take(t)];
      gen := gen + 1;
      mine, watched, prev := gen, lots, stop;
      stop := None;
      threads, built := threads[t := Swapping(mine, watched, prev)], lots;
    }

    /**
     * rebuild's second section. It installs its cancel exactly when nothing overtook it, and then it overwrites
     * no other and the new feed is on the set last built.
     */
    method Install(ghost t: nat, mine: nat, cancel: nat) returns (current: bool)
      requires Valid() && t in threads && threads[t].Opening? && threads[t].gen == mine && cancel !in feeds
      modifies this
      ensures Valid() && trace == old(trace) + [DoInstall(t, cancel)] && lots == old(lots) && built == old(built)
      ensures current <==> gen == mine
      ensures current ==> old(stop) == None && stop == Some(cancel) && cancel in feeds && feeds[cancel] == Feed(built, false, false)
      ensures !current ==> stop == old(stop) && feeds == old(feeds) && t !in threads
      ensures forall f <- old(feeds) :: f in feeds && feeds[f] == old(feeds)[f]
    {
      if gen == mine { CurrentFindsEmpty(trace, Sys(), t); }
      ReachedNext(trace, Sys(), DoInstall(t, cancel));
      trace := trace + [DoInstall(t, cancel)];
      if gen != mine {
        threads := threads - {t};
        return false;
      }
      stop := Some(cancel);
      feeds := feeds[cancel := Feed(threads[t].watched, false, false)];
      threads := threads[t := Launching(cancel)];
      return true;
    }

    /** close's section. Nothing is watched or pending afterwards, and no rebuild under way can install any more. */
    method Close(ghost t: nat) returns (prev: Option<nat>)
      requires Valid() && t in threads && threads[t].Closing?
      modifies this
      ensures Valid() && trace == old(trace) + [DoClose(t)]
      ensures lots == map[] && timer == Absent && stop == None && feeds == old(feeds)
      ensures threads == old(threads)[t := Closed(prev)]
      ensures prev.Some? ==> prev.value in feeds && !feeds[prev.value].cancelled && !HeldByOther(Sys(), t, prev.value)
      ensures OthersHold(Sys(), t, prev)
      ensures OthersOutdated(Sys(), t)
    {
      if stop.Some? { StopIsLive(trace, Sys()); }
      CloseMeans(trace, Sys(), t);
      ReachedNext(trace, Sys(), DoClose(t));
      trace := trace + [DoClose(t)];
      gen := gen + 1;
      prev := stop;
      stop := None;
      lots := map[];
      if timer != Absent { timer := Absent; }
      threads, built := threads[t := Closed(prev)], map[];
    }

    /** What a goroutine does between sections: calling a cancel it took, starting a feed, or heading for close. */
    ghost method Between(step: Step)
      requires Valid() && Apply(Sys(), step).Some?
      requires step.HostGone? || step.Shutdown? || step.CloseCancel? || step.CancelPrev? || step.Launch?
      modifies this`threads, this`feeds, this`trace
      ensures Valid() && trace == old(trace) + [step]
      ensures NoRevival(old(feeds), feeds)
    {
      BetweenFrame(Sys(), step);
      ReachedNext(trace, Sys(), step);
      var s := Apply(Sys(), step).value;
      trace, threads, feeds := trace + [step], s.threads, s.feeds;
    }
  }
}
