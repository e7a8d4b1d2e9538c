/**
 * The job queue double of host/hosttest/jobs.go: idempotent Enqueue, Cancel, and runs that pick a job up, begin
 * attempts and finish it. Each critical section of the mutex is one step; any number of runs may be in flight.
 *
 * A key here is the index's own, the job name joined to the caller's key, or empty when the caller gave none.
 * `keys` and `revived` are history: the idempotency key a job was enqueued under, and the jobs that an attempt
 * brought back from a terminal state.
 */
module RetryJobs {
  import opened Common

  datatype State = Queued | Running | Succeeded | Failed | Cancelled

  predicate Terminal(s: State) { s == Succeeded || s == Failed || s == Cancelled }

  datatype Job = Job(name: string, state: State, attempt: nat, maxAttempts: int)

  /** A run in flight: the job it picked up and the attempts it has begun. */
  datatype InHand = InHand(job: int, begun: nat)

  datatype Queue = Queue(
    jobs: map<int, Job>, idemp: map<string, int>, nextId: nat, runs: map<int, InHand>,
    keys: map<int, string>, revived: set<int>)

  const EMPTY := Queue(map[], map[], 0, map[], map[], {})

  // ---- Steps -------------------------------------------------------------------------------------------

  /** The nonterminal job that an Enqueue under this key returns instead of adding one. */
  function Existing(q: Queue, key: string): Option<int> {
    if |key| > 0 && key in q.idemp && q.idemp[key] in q.jobs && !Terminal(q.jobs[q.idemp[key]].state)
    then Some(q.idemp[key]) else None
  }

  /** A definition that allows no attempt is given one. */
  function Fresh(name: string, maxAttempts: int): Job {
    Job(name, Queued, 0, if maxAttempts <= 0 then 1 else maxAttempts)
  }

  function Enqueue(q: Queue, name: string, key: string, maxAttempts: int): Queue {
    if Existing(q, key).Some? then q
    else
      var id := q.nextId + 1;
      q.(nextId := id,
         idemp := if |key| > 0 then q.idemp[key := id] else q.idemp,
         jobs := q.jobs[id := Fresh(name, maxAttempts)],
         keys := if |key| > 0 then q.keys[id := key] else q.keys)
  }

  function SetState(q: Queue, id: int, s: State): Queue
    requires id in q.jobs
  {
    q.(jobs := q.jobs[id := q.jobs[id].(state := s)])
  }

  datatype Step =
    | EnqueueStep(name: string, key: string, maxAttempts: int)
    | CancelStep(id: int)
    | Pick(run: int, id: int)
    | Begin(run: int)
    | Finish(run: int, ok: bool)

  /** The run may begin another attempt. */
  predicate HasLeft(q: Queue, run: int)
    requires run in q.runs
  {
    q.runs[run].job in q.jobs && q.runs[run].begun < q.jobs[q.runs[run].job].maxAttempts
  }

  /**
   * Whether the code can take the step: an unknown or terminal job is refused, only a run in flight goes on, it begins
   * no more attempts than the job allows, and it succeeds only by an attempt.
   */
  predicate Enabled(q: Queue, s: Step) {
    match s
    case EnqueueStep(_, _, _) => true
    case CancelStep(id) => id in q.jobs && !Terminal(q.jobs[id].state)
    case Pick(run, id) => run !in q.runs && id in q.jobs && !Terminal(q.jobs[id].state)
    case Begin(run) => run in q.runs && HasLeft(q, run)
    case Finish(run, ok) => run in q.runs && q.runs[run].job in q.jobs && (ok ==> q.runs[run].begun > 0)
  }

  function Apply(q: Queue, s: Step): Queue
    requires Enabled(q, s)
  {
    match s
    case EnqueueStep(name, key, max) => Enqueue(q, name, key, max)
    case CancelStep(id) => SetState(q, id, Cancelled)
    case Pick(run, id) => q.(runs := q.runs[run := InHand(id, 0)])
    case Begin(run) =>
      var id, n := q.runs[run].job, q.runs[run].begun + 1;
      q.(jobs := q.jobs[id := q.jobs[id].(state := Running, attempt := n)],
         runs := q.runs[run := InHand(id, n)],
         revived := if Terminal(q.jobs[id].state) then q.revived + {id} else q.revived)
    case Finish(run, ok) => SetState(q, q.runs[run].job, if ok then Succeeded else Failed).(runs := q.runs - {run})
  }

  /** What each step that a run or a caller takes does to the job it names, and that other jobs are left alone. */
  lemma StepEffect(q: Queue, s: Step)
    requires Enabled(q, s) && !s.EnqueueStep?
    ensures var q' := Apply(q, s);
      var id := if s.CancelStep? || s.Pick? then s.id else q.runs[s.run].job;
      && id in q.jobs && q'.jobs.Keys == q.jobs.Keys && (forall x <- q.jobs | x != id :: q'.jobs[x] == q.jobs[x])
      && (match s
          case CancelStep(_) => q'.jobs[id] == q.jobs[id].(state := Cancelled) && q'.runs == q.runs
          case Pick(r, _) => q'.jobs[id] == q.jobs[id] && q'.runs == q.runs[r := InHand(id, 0)]
          case Begin(r) =>
            var n := q.runs[r].begun + 1;
            q'.jobs[id] == q.jobs[id].(state := Running, attempt := n) && q'.runs == q.runs[r := InHand(id, n)]
          case Finish(r, ok) =>
            q'.jobs[id] == q.jobs[id].(state := if ok then Succeeded else Failed) && q'.runs == q.runs - {r})
      && q'.idemp == q.idemp && q'.keys == q.keys && q'.nextId == q.nextId
  {
  }

  /** A refused step changes nothing. */
  function Next(q: Queue, s: Step): Queue { if Enabled(q, s) then Apply(q, s) else q }

  /** The queue after a run of steps. */
  function After(steps: seq<Step>): Queue {
    if steps == [] then EMPTY else Next(After(steps[..|steps| - 1]), steps[|steps| - 1])
  }

  // ---- One live job per key -------------------------------------------------------------------------------

  /** The index points at the live job of every key, except at jobs an attempt brought back. */
  ghost predicate Indexed(q: Queue) {
    forall id <- q.keys | id !in q.revived && id in q.jobs && !Terminal(q.jobs[id].state) ::
      q.keys[id] in q.idemp && q.idemp[q.keys[id]] == id
  }

  ghost predicate Numbered(q: Queue) {
    && (forall id <- q.jobs :: id <= q.nextId)
    && (forall id <- q.keys :: id in q.jobs && |q.keys[id]| > 0)
    && (forall k <- q.idemp :: q.idemp[k] in q.keys && q.keys[q.idemp[k]] == k)
    && (forall r <- q.runs :: q.runs[r].job in q.jobs)
    && (forall id <- q.jobs :: q.jobs[id].maxAttempts >= 1)
    && (forall id <- q.revived :: id in q.jobs)
  }

  lemma StepKeepsNumbered(q: Queue, s: Step)
    requires Numbered(q)
    ensures Numbered(Next(q, s))
  {
  }

  lemma StepKeepsIndexed(q: Queue, s: Step)
    requires Numbered(q) && Indexed(q)
    ensures Indexed(Next(q, s))
  {
  }

  lemma {:induction false} RunsAreIndexed(steps: seq<Step>)
    ensures Numbered(After(steps)) && Indexed(After(steps))
    decreases |steps|
  {
    if steps != [] {
      var n := |steps| - 1;
      RunsAreIndexed(steps[..n]);
      StepKeepsNumbered(After(steps[..n]), steps[n]);
      StepKeepsIndexed(After(steps[..n]), steps[n]);
    }
  }

  predicate Live(q: Queue, id: int) { id in q.jobs && id in q.keys && !Terminal(q.jobs[id].state) }

  /**
   * In every interleaving, if two different jobs of one key are live at once then an attempt brought one of them
   * back after it had ended. Nothing else in the code can make a second one.
   */
  lemma TwoLiveMeansRevived(steps: seq<Step>, a: int, b: int)
    requires var q := After(steps); a != b && Live(q, a) && Live(q, b) && q.keys[a] == q.keys[b]
    ensures a in After(steps).revived || b in After(steps).revived
  {
    RunsAreIndexed(steps);
  }

  // ---- The discipline that rules revival out --------------------------------------------------------------

  /** Some run has the job in hand; with `left`, one that may begin another attempt. */
  predicate Held(q: Queue, id: int, left: bool) {
    exists r <- q.runs :: q.runs[r].job == id && (left ==> HasLeft(q, r))
  }

  /**
   * A keyed job is cancelled only when no run that may begin another attempt has it in hand, and picked up only when
   * no run has.
   */
  predicate Orderly(q: Queue, s: Step) {
    Enabled(q, s) ==>
      && (s.CancelStep? && s.id in q.keys ==> !Held(q, s.id, true))
      && (s.Pick? && s.id in q.keys ==> !Held(q, s.id, false))
  }

  ghost predicate OrderlyRun(steps: seq<Step>) {
    forall i :: 0 <= i < |steps| ==> Orderly(After(steps[..i]), steps[i])
  }

  /** A keyed job in hand is under a single run, and live unless that run has begun its last attempt. */
  ghost predicate Undisturbed(q: Queue) {
    && (forall r <- q.runs | q.runs[r].job in q.keys && HasLeft(q, r) :: !Terminal(q.jobs[q.runs[r].job].state))
    && (forall r, r' | r in q.runs && r' in q.runs && r != r' && q.runs[r].job in q.keys :: q.runs[r].job != q.runs[r'].job)
    && (forall id <- q.revived :: id !in q.keys)
  }

  lemma StepKeepsUndisturbed(q: Queue, s: Step)
    requires Numbered(q) && Undisturbed(q) && Orderly(q, s)
    ensures Undisturbed(Next(q, s))
  {
    if s.Pick? && Enabled(q, s) { assert s.id in q.keys ==> forall r <- q.runs :: q.runs[r].job != s.id; }
    if s.CancelStep? && Enabled(q, s) {
      assert s.id in q.keys ==> forall r <- q.runs | q.runs[r].job == s.id :: !HasLeft(q, r);
    }
  }

  lemma {:induction false} OrderlyRuns(steps: seq<Step>)
    requires OrderlyRun(steps)
    ensures Undisturbed(After(steps))
    decreases |steps|
  {
    if steps != [] {
      var n := |steps| - 1;
      assert forall i :: 0 <= i < n ==> steps[..n][..i] == steps[..i];
      OrderlyRuns(steps[..n]);
      RunsAreIndexed(steps[..n]);
      StepKeepsUndisturbed(After(steps[..n]), steps[n]);
    }
  }

  lemma Added(q: Queue, name: string, key: string, max: int)
    requires Existing(q, key).None?
    ensures var id := q.nextId + 1;
      Next(q, EnqueueStep(name, key, max)) == Queue(
        q.jobs[id := Fresh(name, max)], if |key| > 0 then q.idemp[key := id] else q.idemp, id, q.runs,
        if |key| > 0 then q.keys[id := key] else q.keys, q.revived)
  {
  }

  /** Under that discipline there is never more than one live job per name and key. */
  lemma OneLivePerKey(steps: seq<Step>, a: int, b: int)
    requires OrderlyRun(steps)
    requires var q := After(steps); Live(q, a) && Live(q, b) && q.keys[a] == q.keys[b]
    ensures a == b
  {
    OrderlyRuns(steps);
    if a != b { TwoLiveMeansRevived(steps, a, b); }
  }

  // ---- The discipline is exact ------------------------------------------------------------------------------

  /** Two different live jobs of one key. */
  ghost predicate Doubled(q: Queue) {
    exists a, b :: a != b && Live(q, a) && Live(q, b) && q.keys[a] == q.keys[b]
  }

  lemma Snoc(steps: seq<Step>, s: Step)
    ensures After(steps + [s]) == Next(After(steps), s)
  {
    assert (steps + [s])[..|steps|] == steps;
  }

  /** Once a job has ended that a run with an attempt left still has in hand, an Enqueue and that attempt double it. */
  lemma RevivalDoubles(q: Queue, id: int, r: int)
    requires Numbered(q) && id in q.keys && Terminal(q.jobs[id].state) && Existing(q, q.keys[id]).None?
    requires r in q.runs && q.runs[r].job == id && HasLeft(q, r)
    ensures Doubled(Next(Next(q, EnqueueStep(q.jobs[id].name, q.keys[id], 1)), Begin(r)))
  {
    var key, fresh' := q.keys[id], q.nextId + 1;
    var q1 := Next(q, EnqueueStep(q.jobs[id].name, key, 1));
    Added(q, q.jobs[id].name, key, 1);
    assert id != fresh' && q1.jobs[id] == q.jobs[id] && q1.runs == q.runs;
    var q2 := Next(q1, Begin(r));
    assert Live(q2, id) && Live(q2, fresh') && q2.keys[id] == q2.keys[fresh'];
  }

  lemma CancelDoubles(q: Queue, id: int, r: int)
    requires Numbered(q) && Indexed(q) && id in q.keys && id !in q.revived && Enabled(q, CancelStep(id))
    requires r in q.runs && q.runs[r].job == id && HasLeft(q, r)
    ensures var q1 := Next(q, CancelStep(id)); Doubled(Next(Next(q1, EnqueueStep(q.jobs[id].name, q.keys[id], 1)), Begin(r)))
  {
    StepKeepsNumbered(q, CancelStep(id));
    RevivalDoubles(Next(q, CancelStep(id)), id, r);
  }

  lemma PickDoubles(q: Queue, id: int, r: int, first: int)
    requires Numbered(q) && Indexed(q) && id in q.keys && id !in q.revived && Enabled(q, Pick(r, id))
    requires first in q.runs && q.runs[first].job == id
    ensures var q1 := Next(Next(q, Pick(r, id)), Finish(first, false));
      Doubled(Next(Next(q1, EnqueueStep(q.jobs[id].name, q.keys[id], 1)), Begin(r)))
  {
    var p := Next(q, Pick(r, id));
    var q1 := Next(p, Finish(first, false));
    StepKeepsNumbered(q, Pick(r, id));
    StepKeepsNumbered(p, Finish(first, false));
    RevivalDoubles(q1, id, r);
  }

  /** Nobody cancels or picks up anything any more. */
  predicate Tame(rest: seq<Step>) { forall s <- rest :: s.EnqueueStep? || s.Begin? || s.Finish? }

  lemma TameIsOrderly(steps: seq<Step>, rest: seq<Step>)
    requires OrderlyRun(steps) && Tame(rest)
    ensures OrderlyRun(steps + rest)
  {
    forall i | 0 <= i < |steps + rest| ensures Orderly(After((steps + rest)[..i]), (steps + rest)[i]) {
      if i < |steps| {
        assert (steps + rest)[..i] == steps[..i];
      } else {
        assert (steps + rest)[i] in rest;
      }
    }
  }

  lemma OrderlyNext(steps: seq<Step>, s: Step)
    requires OrderlyRun(steps) && Orderly(After(steps), s)
    ensures OrderlyRun(steps + [s])
  {
    assert (steps + [s])[..|steps|] == steps;
    assert forall i :: 0 <= i < |steps| ==> (steps + [s])[..i] == steps[..i];
  }

  lemma CancelLeadsToDouble(steps: seq<Step>, id: int, r: int) returns (rest: seq<Step>)
    requires var q := After(steps);
      && Numbered(q) && Indexed(q) && id in q.keys && id !in q.revived
      && Enabled(q, CancelStep(id)) && r in q.runs && q.runs[r].job == id && HasLeft(q, r)
    ensures Tame(rest) && Doubled(After(steps + [CancelStep(id)] + rest))
  {
    var q, s := After(steps), CancelStep(id);
    var e := EnqueueStep(q.jobs[id].name, q.keys[id], 1);
    CancelDoubles(q, id, r);
    Snoc(steps, s);
    Snoc(steps + [s], e);
    Snoc(steps + [s] + [e], Begin(r));
    rest := [e, Begin(r)];
    assert steps + [s] + rest == steps + [s] + [e] + [Begin(r)];
  }

  lemma PickLeadsToDouble(steps: seq<Step>, id: int, r: int, first: int) returns (rest: seq<Step>)
    requires var q := After(steps);
      && Numbered(q) && Indexed(q) && id in q.keys && id !in q.revived
      && Enabled(q, Pick(r, id)) && first in q.runs && q.runs[first].job == id
    ensures Tame(rest) && Doubled(After(steps + [Pick(r, id)] + rest))
  {
    var q, s, f := After(steps), Pick(r, id), Finish(first, false);
    var e := EnqueueStep(q.jobs[id].name, q.keys[id], 1);
    PickDoubles(q, id, r, first);
    Snoc(steps, s);
    Snoc(steps + [s], f);
    Snoc(steps + [s] + [f], e);
    Snoc(steps + [s] + [f] + [e], Begin(r));
    rest := [f, e, Begin(r)];
    assert steps + [s] + rest == steps + [s] + [f] + [e] + [Begin(r)];
  }

  lemma DisorderDoubles(steps: seq<Step>, s: Step) returns (rest: seq<Step>)
    requires OrderlyRun(steps) && !Orderly(After(steps), s)
    ensures Tame(rest) && Doubled(After(steps + [s] + rest))
  {
    var q := After(steps);
    RunsAreIndexed(steps);
    OrderlyRuns(steps);
    if s.CancelStep? {
      var r :| r in q.runs && q.runs[r].job == s.id && HasLeft(q, r);
      rest := CancelLeadsToDouble(steps, s.id, r);
    } else {
      var first :| first in q.runs && q.runs[first].job == s.id;
      rest := PickLeadsToDouble(steps, s.id, s.run, first);
    }
  }

  /**
   * After an orderly run, any next step is safe, in that no enqueueing, beginning and finishing after it can double a
   * key, exactly when it is orderly: a Cancel of a keyed job that no run with an attempt left has in
   * hand, a Pick of one that no run has, or any other step.
   */
  lemma SafeIff(steps: seq<Step>, s: Step)
    requires OrderlyRun(steps)
    ensures Orderly(After(steps), s) <==> forall rest | Tame(rest) :: !Doubled(After(steps + [s] + rest))
  {
    if Orderly(After(steps), s) {
      OrderlyNext(steps, s);
      forall rest | Tame(rest) ensures !Doubled(After(steps + [s] + rest)) {
        TameIsOrderly(steps + [s], rest);
        NeverDoubled(steps + [s] + rest);
      }
    } else {
      var rest := DisorderDoubles(steps, s);
    }
  }

  lemma NeverDoubled(steps: seq<Step>)
    requires OrderlyRun(steps)
    ensures !Doubled(After(steps))
  {
    var q := After(steps);
    forall a, b | Live(q, a) && Live(q, b) && q.keys[a] == q.keys[b] ensures a == b { OneLivePerKey(steps, a, b); }
  }

  // ---- Both kinds of disorder happen -------------------------------------------------------------------------

  /** A job with this key and attempts, picked up by run 0. */
  lemma Started(name: string, key: string, max: int)
    requires |key| > 0 && max >= 1
    ensures OrderlyRun([EnqueueStep(name, key, max), Pick(0, 1)])
    ensures After([EnqueueStep(name, key, max), Pick(0, 1)])
         == Queue(map[1 := Job(name, Queued, 0, max)], map[key := 1], 1, map[0 := InHand(1, 0)], map[1 := key], {})
  {
    var e := EnqueueStep(name, key, max);
    Snoc([], e);
    assert [] + [e] == [e];
    var q := Queue(map[1 := Job(name, Queued, 0, max)], map[key := 1], 1, map[], map[1 := key], {});
    assert Next(EMPTY, e) == q;
    Snoc([e], Pick(0, 1));
    assert [e] + [Pick(0, 1)] == [e, Pick(0, 1)];
    OrderlyNext([], e);
    OrderlyNext([e], Pick(0, 1));
  }

  /** Cancelling a job a run has picked up lets a second one in before the run's attempt revives the first. */
  lemma CancelInFlightDoubles(name: string, key: string) returns (rest: seq<Step>)
    requires |key| > 0
    ensures Tame(rest) && Doubled(After([EnqueueStep(name, key, 1), Pick(0, 1)] + [CancelStep(1)] + rest))
  {
    Started(name, key, 1);
    var steps := [EnqueueStep(name, key, 1), Pick(0, 1)];
    assert HasLeft(After(steps), 0);
    rest := DisorderDoubles(steps, CancelStep(1));
  }

  /** So does a second run of the same job that begins once the first has finished it. */
  lemma SecondRunDoubles(name: string, key: string) returns (rest: seq<Step>)
    requires |key| > 0
    ensures Tame(rest) && Doubled(After([EnqueueStep(name, key, 1), Pick(0, 1)] + [Pick(1, 1)] + rest))
  {
    Started(name, key, 1);
    var steps := [EnqueueStep(name, key, 1), Pick(0, 1)];
    assert After(steps).runs[0].job == 1;
    rest := DisorderDoubles(steps, Pick(1, 1));
  }

  /** But a Cancel during the last attempt, which is any attempt of a job allowed only one, is orderly. */
  lemma LastAttemptMayBeCancelled(name: string, key: string)
    requires |key| > 0
    ensures Enabled(After([EnqueueStep(name, key, 1), Pick(0, 1)] + [Begin(0)]), CancelStep(1))
    ensures Orderly(After([EnqueueStep(name, key, 1), Pick(0, 1)] + [Begin(0)]), CancelStep(1))
  {
    Started(name, key, 1);
    Snoc([EnqueueStep(name, key, 1), Pick(0, 1)], Begin(0));
  }
}
