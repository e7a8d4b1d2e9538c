/**
 * The generation-stamped live feed: plugins/bidrl/live.go.
 *
 * Every critical section under the feed's mutex is one function on `Core`. `System` adds what happens between
 * sections: any number of Joins, Leaves, timer callbacks and closes, each paused anywhere,
 * and the sockets they start and cancel.
 */
module LiveFeed {
  import opened Common

  const MAX_LIVE_LOTS := 500

  /** `f.timer`: nil, a timer that has fired or never will again, or one still pending. */
  datatype Timer = Absent | Idle | Armed

  type Watch = map<string, string>

  datatype Core = Core(lots: Watch, timer: Timer, gen: nat, stop: Option<nat>)

  // ---- The critical sections ---------------------------------------------------------------

  /** Join's section; the flag says whether Join goes on to schedule a rebuild. */
  function JoinSection(c: Core, id: string, auction: string): (Core, bool) {
    if |c.lots| >= MAX_LIVE_LOTS then (c, false) else (c.(lots := c.lots[id := auction]), true)
  }

  function LeaveSection(c: Core, id: string): (Core, bool) {
    if id !in c.lots then (c, false) else (c.(lots := c.lots - {id}), true)
  }

  /** Reset re-arms a timer that already fired; a missing timer is created armed. */
  function ScheduleSection(c: Core): Core { c.(timer := Armed) }

  /** rebuild's first section: a new generation takes the watch set and the old cancel. */
  function TakeSection(c: Core): (Core, Option<nat>) {
    (c.(gen := c.gen + 1, stop := None), c.stop)
  }

  /** rebuild's second section; the flag says whether this generation is still current. */
  function InstallSection(c: Core, gen: nat, feed: nat): (Core, bool) {
    if c.gen != gen then (c, false) else (c.(stop := Some(feed)), true)
  }

  function CloseSection(c: Core): (Core, Option<nat>) {
    (Core(map[], Absent, c.gen + 1, None), c.stop)
  }

  // ---- The system ----------------------------------------------------------------------------

  /** Where a goroutine stands between two critical sections. */
  datatype Thread =
    | Scheduling                                          // Join or Leave, before schedule
    | Fired                                               // timer callback, before rebuild's first section
    | Closing                                             // before close's section
    | Closed(prev: Option<nat>)                           // close, about to cancel what it took
    | Swapping(gen: nat, watched: Watch, prev: Option<nat>)  // rebuild, about to cancel what it took
    | Opening(gen: nat, watched: Watch)                   // rebuild, before its second section
    | Launching(feed: nat)                                // rebuild, about to start the feed's goroutine

  datatype Feed = Feed(watched: Watch, started: bool, cancelled: bool)

  /** `built` is the watch set of the latest generation. */
  datatype System = System(core: Core, threads: map<nat, Thread>, feeds: map<nat, Feed>, built: Watch)

  datatype Step =
    | JoinLot(t: nat, id: string, auction: string)
    | LeaveLot(t: nat, id: string)
    | DoSchedule(t: nat)
    | Fire(t: nat)
    | HostGone(t: nat)
    | Shutdown(t: nat)
    | DoClose(t: nat)
    | CloseCancel(t: nat)
    | Take(t: nat)
    | CancelPrev(t: nat)
    | DoInstall(t: nat, feed: nat)
    | Launch(t: nat)

  const INIT := System(Core(map[], Absent, 0, None), map[], map[], map[])

  function Cancel(feeds: map<nat, Feed>, f: Option<nat>): map<nat, Feed> {
    if f.Some? && f.value in feeds then feeds[f.value := feeds[f.value].(cancelled := true)] else feeds
  }

  function Apply(s: System, step: Step): Option<System> {
    var t := step.t;
    match step
    case JoinLot(_, id, auction) =>
      if t in s.threads then None else
        var (c, go) := JoinSection(s.core, id, auction);
        Some(s.(core := c, threads := if go then s.threads[t := Scheduling] else s.threads))
    case LeaveLot(_, id) =>
      if t in s.threads then None else
        var (c, go) := LeaveSection(s.core, id);
        Some(s.(core := c, threads := if go then s.threads[t := Scheduling] else s.threads))
    case DoSchedule(_) =>
      if t !in s.threads || !s.threads[t].Scheduling? then None
      else Some(s.(core := ScheduleSection(s.core), threads := s.threads - {t}))
    case Fire(_) =>
      if t in s.threads || s.core.timer != Armed then None
      else Some(s.(core := s.core.(timer := Idle), threads := s.threads[t := Fired]))
    case HostGone(_) =>
      if t !in s.threads || !s.threads[t].Fired? then None else Some(s.(threads := s.threads[t := Closing]))
    case Shutdown(_) =>
      if t in s.threads then None else Some(s.(threads := s.threads[t := Closing]))
    case DoClose(_) =>
      if t !in s.threads || !s.threads[t].Closing? then None else
        var (c, prev) := CloseSection(s.core);
        Some(s.(core := c, threads := s.threads[t := Closed(prev)], built := map[]))
    case CloseCancel(_) =>
      if t !in s.threads || !s.threads[t].Closed? then None
      else Some(s.(threads := s.threads - {t}, feeds := Cancel(s.feeds, s.threads[t].prev)))
    case Take(_) =>
      if t !in s.threads || !s.threads[t].Fired? then None else
        var (c, prev) := TakeSection(s.core);
        Some(s.(core := c, threads := s.threads[t := Swapping(c.gen, s.core.lots, prev)], built := s.core.lots))
    case CancelPrev(_) =>
      if t !in s.threads || !s.threads[t].Swapping? then None else
        var w := s.threads[t];
        Some(s.(feeds := Cancel(s.feeds, w.prev),
                threads := if w.watched == map[] then s.threads - {t} else s.threads[t := Opening(w.gen, w.watched)]))
    case DoInstall(_, feed) =>
      if t !in s.threads || !s.threads[t].Opening? || feed in s.feeds then None else
        var (c, current) := InstallSection(s.core, s.threads[t].gen, feed);
        if !current then Some(s.(threads := s.threads - {t}))
        else Some(s.(core := c, threads := s.threads[t := Launching(feed)],
                     feeds := s.feeds[feed := Feed(s.threads[t].watched, false, false)]))
    case Launch(_) =>
      if t !in s.threads || !s.threads[t].Launching? || s.threads[t].feed !in s.feeds then None else
        var f := s.threads[t].feed;
        Some(s.(threads := s.threads - {t}, feeds := s.feeds[f := s.feeds[f].(started := true)]))
  }

  function Run(s: System, steps: seq<Step>): Option<System> {
    if steps == [] then Some(s)
    else
      var before := Run(s, steps[..|steps| - 1]);
      if before.None? then None else Apply(before.value, steps[|steps| - 1])
  }

  // ---- The invariant ----------------------------------------------------------------------------

  ghost predicate Building(th: Thread) { th.Swapping? || th.Opening? }

  /** The thread took this feed's cancel and has not called it yet. */
  ghost predicate Holds(th: Thread, f: nat) { (th.Closed? || th.Swapping?) && th.prev == Some(f) }

  /** The thread is one that will bring the built set up to date. */
  ghost predicate WillRebuild(th: Thread) { th.Scheduling? || th.Fired? || th.Closing? }

  /** Nobody loses a cancel: an uncancelled feed is held by `stop` or by a thread about to call it. */
  ghost predicate CancelsHeld(s: System) {
    forall f <- s.feeds :: !s.feeds[f].cancelled ==>
      s.core.stop == Some(f) || exists t :: t in s.threads && Holds(s.threads[t], f)
  }

  /** Generations in progress are distinct, and only the newest one may find `stop` matching it. */
  ghost predicate GenerationsDistinct(s: System) {
    && (forall t <- s.threads :: Building(s.threads[t]) ==> s.threads[t].gen <= s.core.gen)
    && (forall t, u :: t in s.threads && u in s.threads && t != u && Building(s.threads[t]) && Building(s.threads[u])
          ==> s.threads[t].gen != s.threads[u].gen)
  }

  ghost predicate Current(s: System, t: nat) {
    t in s.threads && Building(s.threads[t]) && s.threads[t].gen == s.core.gen
  }

  /** A current rebuild carries the built set and has left `stop` empty. */
  ghost predicate CurrentCarries(s: System) {
    forall t <- s.threads :: Current(s, t) ==>
      s.core.stop == None && s.threads[t].watched == s.built && (s.threads[t].Opening? ==> s.built != map[])
  }

  /** With no current rebuild, `stop` holds a feed on the built set, or the built set is empty. */
  ghost predicate StopMatches(s: System) {
    && (s.core.stop.Some? ==>
          s.core.stop.value in s.feeds && !s.feeds[s.core.stop.value].cancelled
          && s.feeds[s.core.stop.value].watched == s.built != map[])
    && (s.core.stop.None? && s.built != map[] ==> exists t :: Current(s, t))
  }

  ghost predicate Launches(s: System) {
    forall f <- s.feeds :: !s.feeds[f].started ==> exists t :: t in s.threads && s.threads[t] == Launching(f)
  }

  ghost predicate Pending(s: System) {
    s.core.lots == s.built || s.core.timer == Armed || exists t :: t in s.threads && WillRebuild(s.threads[t])
  }

  /** Nobody but `stop` and the thread that took it ever holds a given cancel. */
  ghost predicate HeldExist(s: System) {
    forall t <- s.threads :: ((s.threads[t].Closed? || s.threads[t].Swapping?) && s.threads[t].prev.Some? ==>
      s.threads[t].prev.value in s.feeds && s.core.stop != s.threads[t].prev)
  }

  /** A cancel in a goroutine's hands has not been called, and is in one goroutine's hands only. */
  ghost predicate HeldOnce(s: System) {
    && (forall t, f | t in s.threads && Holds(s.threads[t], f) :: f in s.feeds && !s.feeds[f].cancelled)
    && (forall t, u, f | t in s.threads && u in s.threads && Holds(s.threads[t], f) && Holds(s.threads[u], f) :: t == u)
  }

  ghost predicate Inv(s: System) {
    && |s.core.lots| <= MAX_LIVE_LOTS
    && CancelsHeld(s) && GenerationsDistinct(s) && CurrentCarries(s) && StopMatches(s) && Launches(s) && Pending(s) && HeldExist(s)
    && HeldOnce(s)
  }

  // ---- Every step keeps it ------------------------------------------------------------------------

  /** A step moves one thread and leaves the others where they were. */
  lemma OthersStay(s: System, step: Step)
    requires Apply(s, step).Some?
    ensures var s' := Apply(s, step).value;
      forall u :: u != step.t ==> (u in s'.threads <==> u in s.threads) && (u in s.threads ==> s'.threads[u] == s.threads[u])
  {
  }

  lemma StepKeepsCancels(s: System, step: Step)
    requires Apply(s, step).Some? && CancelsHeld(s) && CurrentCarries(s)
    ensures CancelsHeld(Apply(s, step).value)
  {
    var s', t := Apply(s, step).value, step.t;
    OthersStay(s, step);
    if step.DoInstall? { assert Current(s, t) <==> s.threads[t].gen == s.core.gen; }
    forall f | f in s'.feeds && !s'.feeds[f].cancelled && s'.core.stop != Some(f)
      ensures exists u :: u in s'.threads && Holds(s'.threads[u], f)
    {
      if s.core.stop == Some(f) {
        assert Holds(s'.threads[t], f);
      } else {
        var u :| u in s.threads && Holds(s.threads[u], f);
        assert u in s'.threads && Holds(s'.threads[u], f);
      }
    }
  }

  lemma StepKeepsGenerations(s: System, step: Step)
    requires Apply(s, step).Some? && GenerationsDistinct(s)
    ensures GenerationsDistinct(Apply(s, step).value)
  {
    var s', t := Apply(s, step).value, step.t;
    OthersStay(s, step);
    assert t in s'.threads && Building(s'.threads[t]) ==>
      if step.Take? then s'.threads[t].gen == s'.core.gen == s.core.gen + 1
      else t in s.threads && Building(s.threads[t]) && s'.threads[t].gen == s.threads[t].gen;
    forall u, v | u in s'.threads && v in s'.threads && u != v && Building(s'.threads[u]) && Building(s'.threads[v])
      ensures s'.threads[u].gen != s'.threads[v].gen
    {
      assert u == t || v == t || (s'.threads[u] == s.threads[u] && s'.threads[v] == s.threads[v]);
    }
  }

  lemma StepKeepsCurrent(s: System, step: Step)
    requires Apply(s, step).Some? && GenerationsDistinct(s) && CurrentCarries(s)
    ensures CurrentCarries(Apply(s, step).value)
  {
    var s', t := Apply(s, step).value, step.t;
    OthersStay(s, step);
    forall u | u in s'.threads && Current(s', u)
      ensures s'.core.stop == None && s'.threads[u].watched == s'.built && (s'.threads[u].Opening? ==> s'.built != map[])
    {
      if u in s.threads && Building(s.threads[u]) { assert Current(s, u) || step.Take?; }
    }
  }

  lemma StepKeepsStop(s: System, step: Step)
    requires Apply(s, step).Some? && StopMatches(s) && GenerationsDistinct(s) && CurrentCarries(s) && HeldExist(s)
    ensures StopMatches(Apply(s, step).value)
  {
    var s', t := Apply(s, step).value, step.t;
    OthersStay(s, step);
    if t in s.threads && Building(s.threads[t]) { assert Current(s, t) <==> s.threads[t].gen == s.core.gen; }
    if s'.core.stop.None? && s'.built != map[] {
      if step.Take? {
        assert Current(s', t);
      } else {
        var u :| Current(s, u);
        assert Current(s', u);
      }
    }
  }

  lemma StepKeepsLaunches(s: System, step: Step)
    requires Apply(s, step).Some? && Launches(s)
    ensures Launches(Apply(s, step).value)
  {
    var s', t := Apply(s, step).value, step.t;
    OthersStay(s, step);
    forall f | f in s'.feeds && !s'.feeds[f].started ensures exists u :: u in s'.threads && s'.threads[u] == Launching(f) {
      if f in s.feeds {
        var u :| u in s.threads && s.threads[u] == Launching(f);
        assert u in s'.threads && s'.threads[u] == Launching(f);
      } else {
        assert s'.threads[t] == Launching(f);
      }
    }
  }

  lemma StepKeepsPending(s: System, step: Step)
    requires Apply(s, step).Some? && Pending(s)
    ensures Pending(Apply(s, step).value)
  {
    var s', t := Apply(s, step).value, step.t;
    OthersStay(s, step);
    if s'.core.lots != s'.built && s'.core.timer != Armed {
      if t in s'.threads && WillRebuild(s'.threads[t]) {
      } else {
        var u :| u in s.threads && WillRebuild(s.threads[u]);
        assert u in s'.threads && WillRebuild(s'.threads[u]);
      }
    }
  }

  lemma StepKeepsHeld(s: System, step: Step)
    requires Apply(s, step).Some? && HeldExist(s) && StopMatches(s)
    ensures HeldExist(Apply(s, step).value)
  {
    OthersStay(s, step);
  }

  /** Who holds a cancel after a step held it before, or has just taken it out of `stop`. */
  lemma HeldBefore(s: System, step: Step, u: nat, f: nat)
    requires Apply(s, step).Some? && u in Apply(s, step).value.threads && Holds(Apply(s, step).value.threads[u], f)
    ensures if u == step.t then s.core.stop == Some(f) && Apply(s, step).value.feeds == s.feeds
            else u in s.threads && Holds(s.threads[u], f)
  {
    OthersStay(s, step);
  }

  /** A feed is cancelled only by the goroutine that holds its cancel. */
  lemma CancelledByHolder(s: System, step: Step, f: nat)
    requires Apply(s, step).Some? && f in s.feeds && !s.feeds[f].cancelled
    ensures f in Apply(s, step).value.feeds
    ensures Apply(s, step).value.feeds[f].cancelled ==> step.t in s.threads && Holds(s.threads[step.t], f)
  {
  }

  lemma StepKeepsHeldOnce(s: System, step: Step)
    requires Apply(s, step).Some? && HeldOnce(s) && HeldExist(s) && StopMatches(s)
    ensures HeldOnce(Apply(s, step).value)
  {
    var s' := Apply(s, step).value;
    forall u, f: nat | u in s'.threads && Holds(s'.threads[u], f) ensures f in s'.feeds && !s'.feeds[f].cancelled {
      HeldBefore(s, step, u, f);
      if u != step.t { CancelledByHolder(s, step, f); }
    }
    forall u, v, f: nat | u in s'.threads && v in s'.threads && Holds(s'.threads[u], f) && Holds(s'.threads[v], f) ensures u == v {
      HeldBefore(s, step, u, f);
      HeldBefore(s, step, v, f);
    }
  }

  lemma SectionsKeepBound(c: Core, id: string, auction: string)
    requires |c.lots| <= MAX_LIVE_LOTS
    ensures |JoinSection(c, id, auction).0.lots| <= MAX_LIVE_LOTS
    ensures |LeaveSection(c, id).0.lots| <= MAX_LIVE_LOTS
  {
    assert c.lots[id := auction].Keys == c.lots.Keys + {id};
    assert (c.lots - {id}).Keys == c.lots.Keys - {id};
  }

  lemma StepKeepsBound(s: System, step: Step)
    requires Apply(s, step).Some? && |s.core.lots| <= MAX_LIVE_LOTS
    ensures |Apply(s, step).value.core.lots| <= MAX_LIVE_LOTS
  {
    var lots := Apply(s, step).value.core.lots;
    if step.JoinLot? {
      SectionsKeepBound(s.core, step.id, step.auction);
    } else if step.LeaveLot? {
      SectionsKeepBound(s.core, step.id, []);
    } else {
      assert lots == s.core.lots || lots == map[];
    }
  }

  lemma StepKeepsInv(s: System, step: Step)
    requires Inv(s) && Apply(s, step).Some?
    ensures Inv(Apply(s, step).value)
  {
    StepKeepsCancels(s, step);
    StepKeepsGenerations(s, step);
    StepKeepsCurrent(s, step);
    StepKeepsStop(s, step);
    StepKeepsLaunches(s, step);
    StepKeepsPending(s, step);
    StepKeepsHeld(s, step);
    StepKeepsHeldOnce(s, step);
    StepKeepsBound(s, step);
  }

  lemma {:induction false} Reachable(steps: seq<Step>)
    requires Run(INIT, steps).Some?
    ensures Inv(Run(INIT, steps).value)
    decreases |steps|
  {
    if steps != [] {
      Reachable(steps[..|steps| - 1]);
      StepKeepsInv(Run(INIT, steps[..|steps| - 1]).value, steps[|steps| - 1]);
    }
  }

  // ---- What follows for every interleaving ----------------------------------------------------------

  /**
   * A rebuild that installs its cancel never overwrites another: when its generation is still current,
   * `stop` is empty. So every feed ever opened is held by `stop`, cancelled, or about to be
   * cancelled by the step that took it.
   */
  lemma NoCancelLost(steps: seq<Step>, t: nat, feed: nat)
    requires Run(INIT, steps).Some?
    ensures var s := Run(INIT, steps).value;
      && |s.core.lots| <= MAX_LIVE_LOTS
      && (t in s.threads && s.threads[t].Opening? && InstallSection(s.core, s.threads[t].gen, feed).1 ==> s.core.stop == None)
      && (forall f <- s.feeds :: s.core.stop == Some(f) || s.feeds[f].cancelled || exists u :: u in s.threads && Holds(s.threads[u], f))
  {
    Reachable(steps);
    var s := Run(INIT, steps).value;
    if t in s.threads && s.threads[t].Opening? && s.threads[t].gen == s.core.gen { assert Current(s, t); }
  }

  ghost predicate IsLive(s: System, f: nat) { f in s.feeds && !s.feeds[f].cancelled }

  /** In every state a feed is live exactly when `stop` holds its cancel or some goroutine is about to call it. */
  lemma LiveIff(steps: seq<Step>, f: nat)
    requires Run(INIT, steps).Some?
    ensures var s := Run(INIT, steps).value;
      IsLive(s, f) <==> s.core.stop == Some(f) || exists t :: t in s.threads && Holds(s.threads[t], f)
  {
    Reachable(steps);
  }

  /** The goroutine has taken a cancel it has not called yet. */
  ghost predicate HoldsOne(s: System, t: nat) {
    t in s.threads && (s.threads[t].Closed? || s.threads[t].Swapping?) && s.threads[t].prev.Some?
  }

  /**
   * So the site sees two connections at once exactly while a goroutine that took a cancel has not called it and
   * either another feed is installed or another goroutine is in the same position.
   */
  lemma OverlapIff(steps: seq<Step>)
    requires Run(INIT, steps).Some?
    ensures var s := Run(INIT, steps).value;
      (exists f, g :: f != g && IsLive(s, f) && IsLive(s, g)) <==>
      || (s.core.stop.Some? && exists t :: HoldsOne(s, t))
      || (exists t, u :: t != u && HoldsOne(s, t) && HoldsOne(s, u))
  {
    Reachable(steps);
    var s := Run(INIT, steps).value;
    if f, g :| f != g && IsLive(s, f) && IsLive(s, g) {
      LiveIff(steps, f);
      LiveIff(steps, g);
      assert forall t | t in s.threads && (Holds(s.threads[t], f) || Holds(s.threads[t], g)) :: HoldsOne(s, t);
    }
    HeldAreDistinct(s);
    if t :| s.core.stop.Some? && HoldsOne(s, t) {
      assert Holds(s.threads[t], s.threads[t].prev.value) && IsLive(s, s.threads[t].prev.value) && IsLive(s, s.core.stop.value);
    }
    if t, u :| t != u && HoldsOne(s, t) && HoldsOne(s, u) {
      assert IsLive(s, s.threads[t].prev.value) && IsLive(s, s.threads[u].prev.value);
    }
  }

  lemma HeldAreDistinct(s: System)
    requires HeldOnce(s)
    ensures forall t | HoldsOne(s, t) :: IsLive(s, s.threads[t].prev.value)
    ensures forall t, u | HoldsOne(s, t) && HoldsOne(s, u) && t != u :: s.threads[t].prev.value != s.threads[u].prev.value
  {
    assert forall t | HoldsOne(s, t) :: Holds(s.threads[t], s.threads[t].prev.value);
  }

  ghost predicate Quiet(s: System) { s.threads == map[] && s.core.timer != Armed }

  /**
   * Once no timer is pending and no section is under way, the feed agrees with the watch set: with
   * lots to watch there is exactly one live feed, it was started on exactly those lots and
   * `stop` can cancel it; with none there is no live feed at all.
   */
  lemma QuietFeedMatches(steps: seq<Step>)
    requires Run(INIT, steps).Some? && Quiet(Run(INIT, steps).value)
    ensures var s := Run(INIT, steps).value;
      && s.built == s.core.lots
      && (s.core.stop.Some? <==> s.core.lots != map[])
      && (forall f <- s.feeds :: !s.feeds[f].cancelled <==> s.core.stop == Some(f))
      && (s.core.stop.Some? ==> s.core.stop.value in s.feeds && s.feeds[s.core.stop.value] == Feed(s.core.lots, true, false))
  {
    Reachable(steps);
  }

  /**
   * "Quiet" is needed: cancels run outside the mutex, so mid-rebuild the old feed can still be live
   * after `stop` was cleared, and the new one may be installed before the old is gone.
   */
  lemma TwoFeedsMayOverlap() returns (steps: seq<Step>, s: System)
    ensures Run(INIT, steps) == Some(s)
    ensures 7 in s.feeds && 8 in s.feeds && !s.feeds[7].cancelled && !s.feeds[8].cancelled
  {
    steps, s := JoinAndTake([], INIT, 0, 1);
    steps, s := Open(steps, s, 1, 7);
    steps, s := JoinAndTake(steps, s, 2, 3);
    steps, s := JoinAndTake(steps, s, 4, 5);
    steps, s := Open(steps, s, 5, 8);
  }

  /** One lot joins, its timer fires, and rebuild t takes the watch set and the old cancel. */
  lemma JoinAndTake(steps: seq<Step>, s: System, j: nat, t: nat) returns (steps': seq<Step>, s': System)
    requires Run(INIT, steps) == Some(s) && |s.core.lots| < MAX_LIVE_LOTS && j != t && j !in s.threads && t !in s.threads
    ensures Run(INIT, steps') == Some(s') && s'.feeds == s.feeds && |s'.core.lots| <= |s.core.lots| + 1
    ensures s'.threads == s.threads[t := Swapping(s'.core.gen, s'.core.lots, s.core.stop)]
    ensures s'.core.stop == None && s'.core.lots != map[]
  {
    var lots := s.core.lots["lot" := "auction"];
    assert "lot" in lots && lots.Keys == s.core.lots.Keys + {"lot"};
    steps', s' := Then(steps, s, JoinLot(j, "lot", "auction"));
    assert s.threads[j := Scheduling] - {j} == s.threads;
    steps', s' := Then(steps', s', DoSchedule(j));
    assert s' == s.(core := s.core.(lots := lots, timer := Armed));
    steps', s' := FireAndTake(steps', s', t);
  }

  lemma FireAndTake(steps: seq<Step>, s: System, t: nat) returns (steps': seq<Step>, s': System)
    requires Run(INIT, steps) == Some(s) && s.core.timer == Armed && t !in s.threads
    ensures Run(INIT, steps') == Some(s')
    ensures s' == s.(core := Core(s.core.lots, Idle, s.core.gen + 1, None), built := s.core.lots,
                     threads := s.threads[t := Swapping(s.core.gen + 1, s.core.lots, s.core.stop)])
  {
    steps', s' := Then(steps, s, Fire(t));
    assert s.threads[t := Fired][t := Swapping(s.core.gen + 1, s.core.lots, s.core.stop)]
        == s.threads[t := Swapping(s.core.gen + 1, s.core.lots, s.core.stop)];
    steps', s' := Then(steps', s', Take(t));
  }

  /** Rebuild t cancels what it took and installs a new feed. */
  lemma Open(steps: seq<Step>, s: System, t: nat, feed: nat) returns (steps': seq<Step>, s': System)
    requires Run(INIT, steps) == Some(s) && t in s.threads && s.threads[t].Swapping? && s.threads[t].watched != map[]
    requires s.threads[t].gen == s.core.gen && feed !in s.feeds
    ensures Run(INIT, steps') == Some(s') && feed in s'.feeds && !s'.feeds[feed].cancelled
    ensures s'.core == s.core.(stop := Some(feed)) && s'.threads == s.threads[t := Launching(feed)]
    ensures forall f <- s.feeds :: f in s'.feeds && (s.threads[t].prev != Some(f) ==> s'.feeds[f] == s.feeds[f])
    ensures s'.feeds.Keys == s.feeds.Keys + {feed}
  {
    steps', s' := Then(steps, s, CancelPrev(t));
    steps', s' := Then(steps', s', DoInstall(t, feed));
  }

  lemma Then(steps: seq<Step>, s: System, step: Step) returns (steps': seq<Step>, s': System)
    requires Run(INIT, steps) == Some(s) && Apply(s, step).Some?
    ensures steps' == steps + [step] && Some(s') == Apply(s, step) && Run(INIT, steps') == Some(s')
  {
    steps', s' := steps + [step], Apply(s, step).value;
    assert steps'[..|steps|] == steps;
  }
}
