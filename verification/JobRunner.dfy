/**
 * The queue of host/hosttest/jobs.go used one call at a time: Enqueue, Cancel and run, with the handler and the
 * plugin gate as given answers per attempt, and the clock that retries advance instead of sleeping.
 */
module JobRunner {
  import opened Common
  import opened Backoff
  import RJ = RetryJobs

  datatype Answer = Success | Failure(permanent: bool, retryAfter: Option<int64>)

  /** One turn of the retry loop: whether the gate is open, and what the handler answers if it is called. */
  datatype Turn = Turn(open: bool, answer: Answer)

  datatype Def = Def(maxAttempts: int, backoff: Policy)

  datatype Outcome = UnknownJob | AlreadyTerminal | UnknownDef | Disabled | Done | LastError(answer: Answer)

  /** Past the end of a script the plugin has been disabled. */
  function At(script: seq<Turn>, n: int): Turn {
    if 1 <= n <= |script| then script[n - 1] else Turn(false, Success)
  }

  // ---- What a run does ---------------------------------------------------------------------------------

  /** Attempt `n` is open to another one after it: it ran, failed, and did not fail for good. */
  predicate Retries(script: seq<Turn>, n: int) {
    At(script, n).open && At(script, n).answer.Failure? && !At(script, n).answer.permanent
  }

  predicate Retried(script: seq<Turn>, n: int) {
    forall j | 1 <= j < n :: Retries(script, j)
  }

  /** The run ends at attempt `n`: every earlier attempt is retried, and this one is not or is the last allowed. */
  predicate EndsAt(max: int, script: seq<Turn>, n: int) {
    1 <= n <= max && Retried(script, n) && (n == max || !Retries(script, n))
  }

  /** The attempt the loop ends at, counting on from attempt `n`. */
  function EndFrom(max: int, script: seq<Turn>, n: int): int
    decreases max - n
  {
    if n >= max || !Retries(script, n) then n else EndFrom(max, script, n + 1)
  }

  /** There is exactly one attempt a run can end at. */
  lemma {:induction false} EndIsUnique(max: int, script: seq<Turn>, n: int)
    requires 1 <= n <= max && Retried(script, n)
    ensures forall m :: EndsAt(max, script, m) <==> m == EndFrom(max, script, n)
    decreases max - n
  {
    if n < max && Retries(script, n) { EndIsUnique(max, script, n + 1); }
  }

  /** The time waited after the first `k` attempts. */
  function Waited(p: Policy, script: seq<Turn>, k: nat): int {
    if k == 0 then 0
    else Waited(p, script, k - 1) + DelayOf(p, k, if At(script, k).answer.Failure? then At(script, k).answer.retryAfter else None)
  }

  /** The sum over the first `k` waits of what the handler asked for, or else min(initial * 2^(n-1), maximum). */
  function CappedSum(p: Policy, script: seq<Turn>, k: nat): int
    requires k <= |script|
  {
    if k == 0 then 0
    else
      var n := k - 1;
      CappedSum(p, script, n) +
      match script[n].answer
      case Failure(_, Some(asked)) => asked
      case _ => Min(p.initial * Pow2(n), p.maximum)
  }

  /** A run under a sensible policy waits as long as the handler asked for, and otherwise the capped exponential series. */
  lemma {:induction false} WaitsAreCapped(p: Policy, script: seq<Turn>, k: nat)
    requires 0 < p.initial <= p.maximum <= TWO62 && p.initial < TWO62 && k <= |script|
    ensures Waited(p, script, k) == CappedSum(p, script, k)
    decreases k
  {
    if k > 0 {
      WaitsAreCapped(p, script, k - 1);
      SensiblePolicies(p);
      var n: nat := k;
      assert DelayOf(p, n, None) == Min(p.initial * Pow2(n - 1), p.maximum);
    }
  }

  function Attempts(k: nat): (r: seq<int>)
    ensures |r| == k && forall i :: 0 <= i < k ==> r[i] == i + 1
  {
    seq(k, i => i + 1)
  }

  lemma AttemptsMore(n: nat)
    requires n >= 1
    ensures Attempts(n) == Attempts(n - 1) + [n]
  {
  }

  /** Which attempt that is, read off the script. */
  lemma EndMeans(max: int, script: seq<Turn>, n: int)
    ensures EndsAt(max, script, n) <==>
      && 1 <= n <= max && |script| >= n - 1 && (forall j :: 0 <= j < n - 1 ==> AsksAgain(script[j]))
      && (n < max && n <= |script| ==> !AsksAgain(script[n - 1]))
  {
    if EndsAt(max, script, n) {
      assert n > 1 ==> Retries(script, n - 1);
      forall j | 0 <= j < n - 1 ensures AsksAgain(script[j]) { assert Retries(script, j + 1); }
    }
  }

  /** What a run reports: success only if the last attempt began and succeeded, otherwise why it stopped. */
  lemma VerdictMeans(max: int, script: seq<Turn>, n: int)
    requires EndsAt(max, script, n)
    ensures Verdict(script, n) == Done <==> 1 <= n <= |script| && script[n - 1] == Turn(true, Success)
    ensures Verdict(script, n) == Disabled <==> n > |script| || !script[n - 1].open
    ensures forall a :: Verdict(script, n) == LastError(a) <==>
      n <= |script| && script[n - 1] == Turn(true, a) && a.Failure? && (a.permanent || n == max)
  {
  }

  // ---- The queue ------------------------------------------------------------------------------------------

  class Jobs {
    var defs: map<string, Def>
    var jobs: map<int, RJ.Job>
    var idemp: map<string, int>
    var nextId: nat
    var now: int
    ghost var keys: map<int, string>

    ghost function Q(): RJ.Queue
      reads this
    {
      RJ.Queue(jobs, idemp, nextId, map[], keys, {})
    }

    /** Between calls: what every run of queue steps keeps. */
    ghost predicate Valid()
      reads this
    {
      RJ.Numbered(Q()) && RJ.Indexed(Q())
    }

    constructor (registered: map<string, Def>, start: int)
      ensures Valid() && defs == registered && now == start && jobs == map[]
    {
      defs, now := registered, start;
      jobs, idemp, nextId := map[], map[], 0;
      keys := map[];
    }

    method Add(name: string, k: string) returns (id: int)
      requires Valid() && name in defs && RJ.Existing(Q(), k).None?
      modifies this`jobs, this`idemp, this`nextId, this`keys
      ensures Valid() && Q() == RJ.Next(old(Q()), RJ.EnqueueStep(name, k, defs[name].maxAttempts))
      ensures id == old(nextId) + 1 && jobs == old(jobs)[id := RJ.Fresh(name, defs[name].maxAttempts)]
    {
      var max := defs[name].maxAttempts;
      AddedIsValid(Q(), name, k, max);
      RJ.Added(Q(), name, k, max);
      id := nextId + 1;
      nextId := id;
      idemp := Reindex(idemp, k, id);
      keys := if |k| > 0 then keys[id := k] else keys;
      jobs := jobs[id := RJ.Fresh(name, max)];
    }

    /** Idempotent among live jobs: the one with this key if there is one, otherwise a new queued job. */
    method Enqueue(open: bool, name: string, key: string) returns (r: Result<int, Outcome>)
      requires Valid()
      modifies this
      ensures Valid() && defs == old(defs) && now == old(now)
      ensures r.Err? <==> !open || name !in defs
      ensures r.Err? ==> jobs == old(jobs) && r.error == if open then UnknownDef else Disabled
      ensures r.Ok? && LiveWith(old(jobs), old(keys), IdempKey(name, key), r.value) ==> jobs == old(jobs)
      ensures r.Ok? && !LiveWith(old(jobs), old(keys), IdempKey(name, key), r.value) ==>
        && r.value !in old(jobs) && jobs == old(jobs)[r.value := RJ.Job(name, RJ.Queued, 0, AtLeastOne(defs[name].maxAttempts))]
        && forall id <- old(jobs) :: !LiveWith(old(jobs), old(keys), IdempKey(name, key), id)
    {
      if !open { return Err(Disabled); }
      if name !in defs { return Err(UnknownDef); }
      var k := IdempKey(name, key);
      LiveIsIndexed(Q(), k);
      if |k| > 0 && k in idemp {
        var id := idemp[k];
        if id in jobs && !RJ.Terminal(jobs[id].state) { return Ok(id); }
      }
      var id := Add(name, k);
      return Ok(id);
    }

    method Cancel(open: bool, id: int) returns (r: Outcome)
      requires Valid()
      modifies this`jobs
      ensures Valid()
      ensures r == if !open then Disabled else if id !in old(jobs) then UnknownJob
                   else if RJ.Terminal(old(jobs)[id].state) then AlreadyTerminal else Done
      ensures Q() == if r == Done then RJ.Next(old(Q()), RJ.CancelStep(id)) else old(Q())
      ensures jobs == if r == Done then old(jobs)[id := old(jobs)[id].(state := RJ.Cancelled)] else old(jobs)
    {
      if !open { return Disabled; }
      if id !in jobs { return UnknownJob; }
      if RJ.Terminal(jobs[id].state) { return AlreadyTerminal; }
      RJ.StepKeepsNumbered(Q(), RJ.CancelStep(id));
      RJ.StepKeepsIndexed(Q(), RJ.CancelStep(id));
      jobs := jobs[id := jobs[id].(state := RJ.Cancelled)];
      return Done;
    }

    /** begin */
    method Begin(id: int, attempt: nat)
      requires id in jobs
      modifies this`jobs
      ensures jobs == old(jobs)[id := old(jobs)[id].(state := RJ.Running, attempt := attempt)]
    {
      jobs := jobs[id := jobs[id].(state := RJ.Running, attempt := attempt)];
    }

    /** finish */
    method Finish(id: int, state: RJ.State)
      requires id in jobs
      modifies this`jobs
      ensures jobs == old(jobs)[id := old(jobs)[id].(state := state)]
    {
      jobs := jobs[id := jobs[id].(state := state)];
    }

    /**
     * One job to completion. The handler is called for attempts 1, 2, ... until it succeeds, fails for good, runs out
     * of attempts, or the gate closes; the clock moves by the waits between them and nothing else changes.
     */
    method Run(id: int, script: seq<Turn>) returns (out: Outcome, calls: seq<int>, n: nat)
      requires Valid()
      modifies this`jobs, this`now
      ensures Valid()
      ensures id !in old(jobs) ==> out == UnknownJob
      ensures id in old(jobs) && RJ.Terminal(old(jobs)[id].state) ==> out == AlreadyTerminal
      ensures id in old(jobs) && !RJ.Terminal(old(jobs)[id].state) && old(jobs)[id].name !in defs ==> out == UnknownDef
      ensures !Runnable(old(jobs), defs, id) ==> jobs == old(jobs) && now == old(now) && calls == []
      ensures Runnable(old(jobs), defs, id) ==>
        && Leads(old(Q()), StepsOf(0, id, |calls|, out == Done), Q())
        && Ran(old(jobs)[id], defs[old(jobs)[id].name].backoff, script, out, calls, n, now - old(now))
        && jobs == old(jobs)[id := old(jobs)[id].(
             state := if out == Done then RJ.Succeeded else RJ.Failed,
             attempt := if calls == [] then old(jobs)[id].attempt else |calls|)]
    {
      calls, n := [], 0;
      if id !in jobs { return UnknownJob, [], 0; }
      if RJ.Terminal(jobs[id].state) { return AlreadyTerminal, [], 0; }
      if jobs[id].name !in defs { return UnknownDef, [], 0; }
      out, calls, n := Complete(id, script);
      RunIsSteps(old(Q()), 0, id, |calls|, out == Done);
    }

    method Complete(id: int, script: seq<Turn>) returns (out: Outcome, calls: seq<int>, n: nat)
      requires Valid() && Runnable(jobs, defs, id)
      modifies this`jobs, this`now
      ensures Valid() && Q() == old(Q()).(jobs := jobs)
      ensures Ran(old(jobs)[id], defs[old(jobs)[id].name].backoff, script, out, calls, n, now - old(now))
      ensures jobs == old(jobs)[id := Tried(old(jobs)[id], if out == Done then RJ.Succeeded else RJ.Failed, |calls|)]
    {
      out, calls, n := Retry(id, script);
      EndIsUnique(old(jobs)[id].maxAttempts, script, 1);
      EndMeans(old(jobs)[id].maxAttempts, script, n);
      Finish(id, if out == Done then RJ.Succeeded else RJ.Failed);
      Ended(old(Q()), id, jobs[id]);
      assert Q() == old(Q()).(jobs := jobs);
    }

    method Wait(p: Policy, script: seq<Turn>, n: nat)
      requires n >= 1 && At(script, n).answer.Failure?
      modifies this`now
      ensures now - Waited(p, script, n) == old(now) - Waited(p, script, n - 1)
    {
      var delay := BackoffDelay(p, n, At(script, n).answer.retryAfter);
      now := now + delay;
    }

    /** The retry loop between picking the job up and finishing it. */
    method Retry(id: int, script: seq<Turn>) returns (out: Outcome, calls: seq<int>, n: nat)
      requires Runnable(jobs, defs, id) && jobs[id].maxAttempts >= 1
      modifies this`jobs, this`now
      ensures n >= 1 && n == EndFrom(old(jobs)[id].maxAttempts, script, 1) && out == Verdict(script, n)
      ensures calls == Attempts(Calls(script, n))
      ensures out == Done <==> n <= |script| && script[n - 1] == Turn(true, Success)
      ensures now == old(now) + Waited(defs[old(jobs)[id].name].backoff, script, n - 1)
      ensures id in jobs && jobs == old(jobs)[id := Tried(old(jobs)[id], jobs[id].state, |calls|)]
    {
      var max, p := jobs[id].maxAttempts, defs[jobs[id].name].backoff;
      n, calls := 1, [];
      ghost var st := jobs[id].state;
      while true
        invariant 1 <= n <= max && EndFrom(max, script, n) == EndFrom(max, script, 1)
        invariant calls == Attempts(n - 1) && now == old(now) + Waited(p, script, n - 1)
        invariant jobs == old(jobs)[id := Tried(old(jobs)[id], st, n - 1)]
        decreases max - n
      {
        if !At(script, n).open { return Disabled, calls, n; }
        Begin(id, n);
        st := RJ.Running;
        AttemptsMore(n);
        calls := calls + [n];
        if At(script, n).answer.Success? || At(script, n).answer.permanent || n == max { break; }
        Wait(p, script, n);
        n := n + 1;
      }
      out := if At(script, n).answer.Success? then Done else LastError(At(script, n).answer);
    }
  }

  /** The handler ran and failed, but not for good. */
  predicate AsksAgain(t: Turn) { match t case Turn(true, Failure(false, _)) => true case _ => false }

  /** A whole run of the job: where it ended, the attempts the handler saw, the time it waited, and what it reports. */
  predicate Ran(job: RJ.Job, p: Policy, script: seq<Turn>, out: Outcome, calls: seq<int>, n: nat, waited: int) {
    && 1 <= n <= job.maxAttempts && |script| >= n - 1
    && (forall j :: 0 <= j < n - 1 ==> AsksAgain(script[j]))
    && (n < job.maxAttempts && n <= |script| ==> !AsksAgain(script[n - 1]))
    && |calls| == (if n <= |script| && script[n - 1].open then n else n - 1)
    && (forall i :: 0 <= i < |calls| ==> calls[i] == i + 1)
    && waited == Waited(p, script, n - 1)
    && out == Verdict(script, n)
    && (out == Done <==> n <= |script| && script[n - 1] == Turn(true, Success))
  }

  /** The attempts the handler saw when the run ends at attempt `n`. */
  function Calls(script: seq<Turn>, n: int): nat
    requires n >= 1
  {
    if At(script, n).open then n else n - 1
  }

  predicate Runnable(jobs: map<int, RJ.Job>, defs: map<string, Def>, id: int) {
    id in jobs && !RJ.Terminal(jobs[id].state) && jobs[id].name in defs
  }

  function Verdict(script: seq<Turn>, n: int): Outcome {
    if !At(script, n).open then Disabled else if At(script, n).answer.Success? then Done else LastError(At(script, n).answer)
  }

  /** The job after `k` attempts. */
  function Tried(job: RJ.Job, s: RJ.State, k: nat): RJ.Job {
    job.(state := s, attempt := if k == 0 then job.attempt else k)
  }

  // ---- A run is a run of the queue's steps -----------------------------------------------------------------

  /** A run's steps: pick the job up, begin `k` attempts, finish it. */
  function StepsOf(r: int, id: int, k: nat, ok: bool): seq<RJ.Step> {
    [RJ.Pick(r, id)] + seq(k, _ => RJ.Begin(r)) + [RJ.Finish(r, ok)]
  }

  /** The queue allows every one of the steps, and they lead to `q'`. */
  ghost predicate Leads(q: RJ.Queue, steps: seq<RJ.Step>, q': RJ.Queue)
    decreases |steps|
  {
    if steps == [] then q' == q
    else RJ.Enabled(q, steps[0]) && Leads(RJ.Apply(q, steps[0]), steps[1..], q')
  }

  lemma {:induction false} BeginsLead(q: RJ.Queue, r: int, id: int, k: nat, ok: bool)
    requires r in q.runs && q.runs[r].job == id && id in q.jobs && q.runs[r].begun + k <= q.jobs[id].maxAttempts
    requires q.runs[r].begun > 0 ==> q.jobs[id] == Tried(q.jobs[id], RJ.Running, q.runs[r].begun)
    requires !RJ.Terminal(q.jobs[id].state) && (ok ==> q.runs[r].begun + k > 0)
    ensures var job := Tried(q.jobs[id], if ok then RJ.Succeeded else RJ.Failed, q.runs[r].begun + k);
      Leads(q, seq(k, _ => RJ.Begin(r)) + [RJ.Finish(r, ok)], q.(jobs := q.jobs[id := job], runs := q.runs - {r}))
    decreases k
  {
    var steps := seq(k, _ => RJ.Begin(r)) + [RJ.Finish(r, ok)];
    var job := Tried(q.jobs[id], if ok then RJ.Succeeded else RJ.Failed, q.runs[r].begun + k);
    var end := q.(jobs := q.jobs[id := job], runs := q.runs - {r});
    var q1 := RJ.Apply(q, steps[0]);
    if k == 0 {
      assert q1 == end;
      assert Leads(q1, steps[1..], end);
    } else {
      BeginsLead(q1, r, id, k - 1, ok);
      assert steps[1..] == seq(k - 1, _ => RJ.Begin(r)) + [RJ.Finish(r, ok)];
      assert q1.jobs[id := job] == q.jobs[id := job] && q1.runs - {r} == q.runs - {r};
    }
  }

  /** What `Run` leaves is what those steps leave, and the queue allows every one of them. */
  lemma RunIsSteps(q: RJ.Queue, r: int, id: int, k: nat, ok: bool)
    requires r !in q.runs && id in q.jobs && !RJ.Terminal(q.jobs[id].state) && k <= q.jobs[id].maxAttempts && (ok ==> k > 0)
    ensures Leads(q, StepsOf(r, id, k, ok), q.(jobs := q.jobs[id := Tried(q.jobs[id], if ok then RJ.Succeeded else RJ.Failed, k)]))
  {
    var q1 := RJ.Apply(q, RJ.Pick(r, id));
    BeginsLead(q1, r, id, k, ok);
    assert StepsOf(r, id, k, ok)[1..] == seq(k, _ => RJ.Begin(r)) + [RJ.Finish(r, ok)];
    assert q1.runs - {r} == q.runs;
  }

  function AtLeastOne(n: int): int { if n <= 0 then 1 else n }

  /** A stale entry is dropped and the new one written; nothing is left of the old. */
  function Reindex(idemp: map<string, int>, k: string, id: int): (r: map<string, int>)
    ensures r == if |k| > 0 then idemp[k := id] else idemp
  {
    if |k| == 0 then idemp else if k in idemp then (idemp - {k})[k := id] else idemp[k := id]
  }

  lemma AddedIsValid(q: RJ.Queue, name: string, k: string, max: int)
    requires RJ.Numbered(q) && RJ.Indexed(q)
    ensures var q' := RJ.Next(q, RJ.EnqueueStep(name, k, max)); RJ.Numbered(q') && RJ.Indexed(q')
  {
    RJ.StepKeepsNumbered(q, RJ.EnqueueStep(name, k, max));
    RJ.StepKeepsIndexed(q, RJ.EnqueueStep(name, k, max));
  }

  /** The index key: the name, a zero byte and the caller's key; empty when the caller gave none. */
  function IdempKey(name: string, key: string): string { if |key| == 0 then [] else name + ['\0'] + key }

  /** The first part runs on over a zero byte into the second pair's name. */
  ghost predicate Slides(name: string, key: string, name': string, key': string) {
    exists x :: name' == name + ['\0'] + x && key == x + ['\0'] + key'
  }

  lemma SlidesWhen(name: string, key: string, name': string, key': string)
    requires name + ['\0'] + key == name' + ['\0'] + key' && |name| < |name'|
    ensures Slides(name, key, name', key')
  {
    var k, n, n' := name + ['\0'] + key, |name|, |name'|;
    var x := k[n + 1..n'];
    assert name' == k[..n'] && k[..n'] == name + ['\0'] + x;
    assert key == k[n + 1..] && key' == k[n' + 1..] && k[n'] == '\0';
    assert k[n + 1..] == x + [k[n']] + k[n' + 1..];
  }

  lemma SlidesJoin(name: string, key: string, name': string, key': string)
    requires Slides(name, key, name', key')
    ensures name + ['\0'] + key == name' + ['\0'] + key'
  {
    var x :| name' == name + ['\0'] + x && key == x + ['\0'] + key';
    assert name + ['\0'] + (x + ['\0'] + key') == (name + ['\0'] + x) + ['\0'] + key';
  }

  /** Two keyed jobs share an index entry exactly when they agree, or a zero byte in one name hides the boundary. */
  lemma IdempKeyIff(name: string, key: string, name': string, key': string)
    requires key != "" && key' != ""
    ensures IdempKey(name, key) == IdempKey(name', key') <==>
      (name == name' && key == key') || Slides(name, key, name', key') || Slides(name', key', name, key)
  {
    if Slides(name, key, name', key') { SlidesJoin(name, key, name', key'); }
    if Slides(name', key', name, key) { SlidesJoin(name', key', name, key); }
    if IdempKey(name, key) == IdempKey(name', key') {
      var k, n, n' := IdempKey(name, key), |name|, |name'|;
      if n < n' {
        SlidesWhen(name, key, name', key');
      } else if n' < n {
        SlidesWhen(name', key', name, key);
      } else {
        assert name == k[..n] && name' == k[..n'] && key == k[n + 1..] && key' == k[n' + 1..];
      }
    }
  }

  predicate LiveWith(jobs: map<int, RJ.Job>, keys: map<int, string>, k: string, id: int) {
    id in jobs && id in keys && keys[id] == k && !RJ.Terminal(jobs[id].state)
  }

  /** The index knows the live job of a key, if there is one. */
  lemma LiveIsIndexed(q: RJ.Queue, k: string)
    requires RJ.Numbered(q) && RJ.Indexed(q) && q.revived == {}
    ensures forall id <- q.jobs :: id <= q.nextId
    ensures k in q.idemp ==> q.idemp[k] in q.keys && q.keys[q.idemp[k]] == k
    ensures forall id <- q.jobs | LiveWith(q.jobs, q.keys, k, id) :: |k| > 0 && k in q.idemp && q.idemp[k] == id
  {
  }

  /** A live job that ends leaves the index right. */
  lemma Ended(q: RJ.Queue, id: int, job: RJ.Job)
    requires RJ.Numbered(q) && RJ.Indexed(q) && id in q.jobs && RJ.Terminal(job.state) && job.maxAttempts >= 1
    ensures RJ.Numbered(q.(jobs := q.jobs[id := job])) && RJ.Indexed(q.(jobs := q.jobs[id := job]))
  {
  }
}
