/**
 * Browser session slots under concurrency: internal/core/browser/browser.go and the teardown in
 * internal/core/browser/session.go.
 *
 * The service holds one slice per plugin. The model keeps the backing arrays apart from the slice headers,
 * so that two headers over one array really would see each other's edits. Each critical
 * section is one step; Opens, session Closes and ClosePlugins interleave freely.
 */
module BrowserSlots {
  import opened Common
  import opened SlotLists

  // ---- Slices over shared arrays ---------------------------------------------------------------

  /** A Go slice header: which backing array, and how much of it. */
  datatype Slice = Slice(arr: nat, len: nat)

  datatype Memory = Memory(limit: nat, lists: map<string, Slice>, heap: map<nat, seq<Slot>>)

  /** What one critical section does to the lists. */
  datatype Edit =
    | NoEdit
    | Append(plugin: string, arr: nat, room: nat)   // `arr` and `room` serve if the array must grow
    | Replace(plugin: string, list: seq<Slot>)      // in place, over the front of the list's own array
    | Detach(plugin: string)

  predicate Readable(m: Memory, l: Slice) { l.arr in m.heap && l.len <= |m.heap[l.arr]| }

  function View(m: Memory, p: string): seq<Slot> {
    if p in m.lists && Readable(m, m.lists[p]) then m.heap[m.lists[p].arr][..m.lists[p].len] else []
  }

  /** `append(list, nil)`: in place while the backing array has room, else into a new array. */
  function AppendNil(m: Memory, p: string, arr: nat, room: nat): Memory {
    var v := View(m, p);
    if p in m.lists && Readable(m, m.lists[p]) && |v| < |m.heap[m.lists[p].arr]| then
      var a := m.lists[p].arr;
      m.(heap := m.heap[a := m.heap[a][|v| := Placeholder]], lists := m.lists[p := Slice(a, |v| + 1)])
    else
      m.(heap := m.heap[arr := v + [Placeholder] + seq(room, _ => Placeholder)], lists := m.lists[p := Slice(arr, |v| + 1)])
  }

  /** The cells beyond the new length keep their old values; an empty list is deleted from the map. */
  function Overwrite(m: Memory, p: string, v: seq<Slot>): Memory {
    if p !in m.lists || !Readable(m, m.lists[p]) || |v| > m.lists[p].len then m
    else
      var a := m.lists[p].arr;
      m.(heap := m.heap[a := v + m.heap[a][|v|..]],
         lists := if v == [] then m.lists - {p} else m.lists[p := Slice(a, |v|)])
  }

  function ApplyEdit(m: Memory, e: Edit): Memory {
    match e
    case NoEdit => m
    case Append(p, arr, room) => AppendNil(m, p, arr, room)
    case Replace(p, v) => Overwrite(m, p, v)
    case Detach(p) => m.(lists := m.lists - {p})
  }

  /** The same edit with the arrays abstracted away. */
  function EditView(m: Memory, e: Edit, q: string): seq<Slot> {
    match e
    case NoEdit => View(m, q)
    case Append(p, _, _) => if q == p then View(m, q) + [Placeholder] else View(m, q)
    case Replace(p, v) => if q == p then v else View(m, q)
    case Detach(p) => if q == p then [] else View(m, q)
  }

  predicate Allowed(m: Memory, e: Edit) {
    match e
    case Append(p, arr, _) => arr !in m.heap && |View(m, p)| < m.limit
    case Replace(p, v) => |v| <= |View(m, p)|
    case _ => true
  }

  /** Every list is readable, nonempty, within the limit, and alone on its array. */
  ghost predicate ListsOk(m: Memory) {
    && (forall p <- m.lists :: Readable(m, m.lists[p]) && 1 <= m.lists[p].len <= m.limit)
    && (forall p, q :: p in m.lists && q in m.lists && p != q ==> m.lists[p].arr != m.lists[q].arr)
  }

  /** `l` is a detached slice: it reads as `taken`, and no list shares its array. */
  ghost predicate Private(m: Memory, l: Slice, taken: seq<Slot>) {
    l.len == |taken| && (taken != [] ==>
      Readable(m, l) && m.heap[l.arr][..l.len] == taken && forall p <- m.lists :: m.lists[p].arr != l.arr)
  }

  lemma AppendFrame(m: Memory, p: string, arr: nat, room: nat)
    requires ListsOk(m) && Allowed(m, Append(p, arr, room))
    ensures ListsOk(AppendNil(m, p, arr, room)) && AppendNil(m, p, arr, room).limit == m.limit
    ensures forall q :: View(AppendNil(m, p, arr, room), q) == EditView(m, Append(p, arr, room), q)
  {
    AppendShape(m, p, arr, room);
  }

  /** Either way the list grows by one placeholder, on an array no other list uses. */
  lemma AppendShape(m: Memory, p: string, arr: nat, room: nat)
    requires ListsOk(m) && Allowed(m, Append(p, arr, room))
    ensures var m' := AppendNil(m, p, arr, room); var v := View(m, p); var a := m'.lists[p].arr;
      && m' == m.(heap := m.heap[a := m'.heap[a]], lists := m.lists[p := Slice(a, |v| + 1)])
      && |v| < |m'.heap[a]| && m'.heap[a][..|v| + 1] == v + [Placeholder]
      && forall q <- m.lists | q != p :: m.lists[q].arr != a
  {
    var m' := AppendNil(m, p, arr, room);
    var a := m'.lists[p].arr;
    assert m'.heap[a][..|View(m, p)| + 1] == View(m, p) + [Placeholder];
  }

  lemma OverwriteFrame(m: Memory, p: string, v: seq<Slot>)
    requires ListsOk(m) && Allowed(m, Replace(p, v))
    ensures ListsOk(Overwrite(m, p, v)) && Overwrite(m, p, v).limit == m.limit
    ensures forall q :: View(Overwrite(m, p, v), q) == EditView(m, Replace(p, v), q)
  {
    if p in m.lists {
      var m' := Overwrite(m, p, v);
      var a := m.lists[p].arr;
      assert |m'.heap[a]| == |m.heap[a]| && m'.heap[a][..|v|] == v;
    }
  }

  lemma EditFrame(m: Memory, e: Edit)
    requires ListsOk(m) && Allowed(m, e)
    ensures ListsOk(ApplyEdit(m, e)) && ApplyEdit(m, e).limit == m.limit
    ensures forall q :: View(ApplyEdit(m, e), q) == EditView(m, e, q)
  {
    match e
    case Append(p, arr, room) => AppendFrame(m, p, arr, room);
    case Replace(p, v) => OverwriteFrame(m, p, v);
    case _ =>
  }

  /** No later edit of any list can reach a detached slice. */
  lemma PrivateStays(m: Memory, e: Edit, l: Slice, taken: seq<Slot>)
    requires ListsOk(m) && Allowed(m, e) && Private(m, l, taken)
    ensures Private(ApplyEdit(m, e), l, taken)
  {
    if taken != [] && (e.Append? || e.Replace?) && e.plugin in m.lists { assert m.lists[e.plugin].arr != l.arr; }
  }

  // ---- The system --------------------------------------------------------------------------------

  datatype Thread =
    | Opening(plugin: string)                  // Open, between reserveSlot and commit or release
    | Dropping(plugin: string, id: nat)        // Session.Close, between the closed flag and dropSession
    | Sweeping(plugin: string, list: Slice, i: nat, dropping: Option<nat>, taken: seq<Slot>, before: set<nat>)

  /** `taken` and `before` record what ClosePlugin detached and which sessions were committed by then. */
  datatype State = State(mem: Memory, owner: map<nat, string>, closed: set<nat>, threads: map<nat, Thread>)

  datatype Step =
    | Reserve(t: nat, plugin: string, arr: nat, room: nat)
    | ReleaseOpen(t: nat)
    | CommitOpen(t: nat, id: nat)
    | CloseSession(t: nat, id: nat)
    | DropSession(t: nat)
    | StartClose(t: nat, plugin: string)
    | SweepNext(t: nat)
    | SweepDrop(t: nat)
    | SweepEnd(t: nat)

  function Init(limit: nat): State { State(Memory(limit, map[], map[]), map[], {}, map[]) }

  predicate Enabled(s: State, step: Step) {
    match step
    case Reserve(t, p, arr, room) => t !in s.threads && arr !in s.mem.heap && |View(s.mem, p)| < s.mem.limit
    case ReleaseOpen(t) => t in s.threads && s.threads[t].Opening?
    case CommitOpen(t, id) => t in s.threads && s.threads[t].Opening? && id !in s.owner
    case CloseSession(t, id) => t !in s.threads && id in s.owner && id !in s.closed
    case DropSession(t) => t in s.threads && s.threads[t].Dropping?
    case StartClose(t, p) => t !in s.threads
    case SweepNext(t) =>
      && t in s.threads && s.threads[t].Sweeping? && s.threads[t].dropping.None?
      && s.threads[t].i < s.threads[t].list.len && Readable(s.mem, s.threads[t].list)
    case SweepDrop(t) => t in s.threads && s.threads[t].Sweeping? && s.threads[t].dropping.Some?
    case SweepEnd(t) =>
      t in s.threads && s.threads[t].Sweeping? && s.threads[t].dropping.None? && s.threads[t].i >= s.threads[t].list.len
  }

  function EditOf(s: State, step: Step): Edit
    requires Enabled(s, step)
  {
    match step
    case Reserve(_, p, arr, room) => Append(p, arr, room)
    case ReleaseOpen(t) =>
      var p := s.threads[t].plugin;
      if LastPlaceholder(View(s.mem, p)) < 0 then NoEdit else Replace(p, Released(View(s.mem, p)))
    case CommitOpen(t, id) =>
      var p := s.threads[t].plugin;
      var v := Committed(View(s.mem, p), id);
      if v.None? then NoEdit else Replace(p, v.value)
    case DropSession(t) => Replace(s.threads[t].plugin, Dropped(View(s.mem, s.threads[t].plugin), s.threads[t].id))
    case StartClose(_, p) => Detach(p)
    case SweepDrop(t) => Replace(s.threads[t].plugin, Dropped(View(s.mem, s.threads[t].plugin), s.threads[t].dropping.value))
    case _ => NoEdit
  }

  /** The entry a ClosePlugin reads next, straight from the array. */
  function Entry(s: State, w: Thread): Slot
    requires w.Sweeping? && w.i < w.list.len && Readable(s.mem, w.list)
  {
    s.mem.heap[w.list.arr][w.i]
  }

  function Owned(s: State, p: string): set<nat> { set id | id in s.owner && s.owner[id] == p }

  /** Where the step's own goroutine is afterwards; None when it is gone. */
  function ThreadAfter(s: State, step: Step): Option<Thread>
    requires Enabled(s, step)
  {
    match step
    case Reserve(_, p, _, _) => Some(Opening(p))
    case CloseSession(_, id) => Some(Dropping(s.owner[id], id))
    case StartClose(_, p) =>
      Some(Sweeping(p, if p in s.mem.lists then s.mem.lists[p] else Slice(0, 0), 0, None, View(s.mem, p), Owned(s, p)))
    case SweepNext(t) =>
      var w := s.threads[t];
      var x := Entry(s, w);
      if x.Placeholder? || x.id in s.closed then Some(w.(i := w.i + 1)) else Some(w.(dropping := Some(x.id)))
    case SweepDrop(t) => Some(s.threads[t].(i := s.threads[t].i + 1, dropping := None))
    case _ => None
  }

  function ClosedAfter(s: State, step: Step): set<nat>
    requires Enabled(s, step)
  {
    match step
    case CloseSession(_, id) => s.closed + {id}
    case SweepNext(t) =>
      var x := Entry(s, s.threads[t]);
      if x.Placeholder? then s.closed else s.closed + {x.id}
    case _ => s.closed
  }

  function Apply(s: State, step: Step): State
    requires Enabled(s, step)
  {
    var e := EditOf(s, step);
    var th := ThreadAfter(s, step);
    State(
      ApplyEdit(s.mem, e),
      if step.CommitOpen? && e.Replace? then s.owner[step.id := e.plugin] else s.owner,
      ClosedAfter(s, step),
      if th.Some? then s.threads[step.t := th.value] else s.threads - {step.t})
  }

  function Run(s: State, steps: seq<Step>): Option<State> {
    if steps == [] then Some(s)
    else
      var before := Run(s, steps[..|steps| - 1]);
      if before.None? || !Enabled(before.value, steps[|steps| - 1]) then None
      else Some(Apply(before.value, steps[|steps| - 1]))
  }

  // ---- The arrays never alias ---------------------------------------------------------------------

  ghost predicate SweepOk(m: Memory, w: Thread)
    requires w.Sweeping?
  {
    && Private(m, w.list, w.taken) && w.i <= |w.taken|
    && (w.dropping.Some? ==> w.i < |w.taken| && w.taken[w.i] == Session(w.dropping.value))
  }

  ghost predicate SweepsOk(s: State) {
    forall t <- s.threads :: s.threads[t].Sweeping? ==> SweepOk(s.mem, s.threads[t])
  }

  lemma EditsAllowed(s: State, step: Step)
    requires Enabled(s, step)
    ensures Allowed(s.mem, EditOf(s, step))
  {
    if step.ReleaseOpen? { ReleasedEntries(View(s.mem, s.threads[step.t].plugin)); }
    if step.CommitOpen? { CommittedEntries(View(s.mem, s.threads[step.t].plugin), step.id); }
    if step.DropSession? { DroppedEntries(View(s.mem, s.threads[step.t].plugin), s.threads[step.t].id); }
    if step.SweepDrop? { DroppedEntries(View(s.mem, s.threads[step.t].plugin), s.threads[step.t].dropping.value); }
  }

  lemma StepKeepsSweeps(s: State, step: Step)
    requires ListsOk(s.mem) && SweepsOk(s) && Enabled(s, step)
    ensures SweepsOk(Apply(s, step))
  {
    var s', e := Apply(s, step), EditOf(s, step);
    EditsAllowed(s, step);
    forall t | t in s'.threads && s'.threads[t].Sweeping? ensures SweepOk(s'.mem, s'.threads[t]) {
      if t != step.t {
        PrivateStays(s.mem, e, s.threads[t].list, s.threads[t].taken);
      } else {
        OwnSweep(s, step);
      }
    }
  }

  lemma OwnSweep(s: State, step: Step)
    requires ListsOk(s.mem) && SweepsOk(s) && Enabled(s, step) && ThreadAfter(s, step).Some? && ThreadAfter(s, step).value.Sweeping?
    ensures SweepOk(Apply(s, step).mem, ThreadAfter(s, step).value)
  {
    EditsAllowed(s, step);
    if !step.StartClose? {
      var w := s.threads[step.t];
      assert SweepOk(s.mem, w);
      PrivateStays(s.mem, EditOf(s, step), w.list, w.taken);
    }
  }

  // ---- Placeholders ---------------------------------------------------------------------------------

  function Opens(s: State, p: string): set<nat> { set t | t in s.threads && s.threads[t] == Opening(p) }

  ghost predicate PlaceholdersCovered(s: State) {
    forall p :: Placeholders(View(s.mem, p)) <= |Opens(s, p)|
  }

  lemma EditPlaceholders(s: State, step: Step, p: string)
    requires Enabled(s, step)
    ensures var n, n' := Placeholders(View(s.mem, p)), Placeholders(EditView(s.mem, EditOf(s, step), p));
      if step.Reserve? && step.plugin == p then n' == n + 1
      else if (step.ReleaseOpen? || step.CommitOpen?) && s.threads[step.t].plugin == p then n' == if n == 0 then 0 else n - 1
      else n' <= n
  {
    var v := View(s.mem, p);
    match step
    case Reserve(_, _, _, _) => AppendedEntries(v);
    case ReleaseOpen(t) => if s.threads[t].plugin == p { ReleasedEntries(v); }
    case CommitOpen(t, id) => if s.threads[t].plugin == p { CommittedEntries(v, id); }
    case DropSession(t) => if s.threads[t].plugin == p { DroppedEntries(v, s.threads[t].id); }
    case SweepDrop(t) => if s.threads[t].plugin == p { DroppedEntries(v, s.threads[t].dropping.value); }
    case _ =>
  }

  lemma OpensAfter(s: State, step: Step, p: string)
    requires Enabled(s, step)
    ensures var n, n' := |Opens(s, p)|, |Opens(Apply(s, step), p)|;
      if step.Reserve? && step.plugin == p then n' == n + 1
      else if (step.ReleaseOpen? || step.CommitOpen?) && s.threads[step.t].plugin == p then n' == n - 1
      else n' == n
  {
    var s', t := Apply(s, step), step.t;
    if step.Reserve? && step.plugin == p {
      assert Opens(s', p) == Opens(s, p) + {t} && t !in Opens(s, p);
    } else if (step.ReleaseOpen? || step.CommitOpen?) && s.threads[t].plugin == p {
      assert Opens(s', p) == Opens(s, p) - {t} && t in Opens(s, p);
    } else {
      assert Opens(s', p) == Opens(s, p);
    }
  }

  lemma StepKeepsPlaceholders(s: State, step: Step)
    requires ListsOk(s.mem) && PlaceholdersCovered(s) && Enabled(s, step)
    ensures PlaceholdersCovered(Apply(s, step))
  {
    var s' := Apply(s, step);
    EditsAllowed(s, step);
    EditFrame(s.mem, EditOf(s, step));
    forall p ensures Placeholders(View(s'.mem, p)) <= |Opens(s', p)| {
      assert View(s'.mem, p) == EditView(s.mem, EditOf(s, step), p);
      assert Placeholders(View(s.mem, p)) <= |Opens(s, p)|;
      EditPlaceholders(s, step, p);
      OpensAfter(s, step, p);
    }
  }

  // ---- Where an open session is ------------------------------------------------------------------------

  ghost predicate In(m: Memory, p: string, id: nat) { Session(id) in View(m, p) }

  /** Sessions sit only in their own plugin's list. */
  ghost predicate OwnersOk(s: State) {
    forall p, id :: In(s.mem, p, id) ==> id in s.owner && s.owner[id] == p
  }

  /** The sessions a ClosePlugin took, and those it answers for, are its plugin's own. */
  ghost predicate SweepOwns(s: State, w: Thread) {
    w.Sweeping? ==>
      && (forall id <- w.before :: id in s.owner && s.owner[id] == w.plugin)
      && (forall x <- w.taken | x.Session? :: x.id in s.owner && s.owner[x.id] == w.plugin)
  }

  ghost predicate SweepsOwn(s: State) { forall t <- s.threads :: SweepOwns(s, s.threads[t]) }

  /** ClosePlugin still has this session ahead of it. */
  ghost predicate Ahead(w: Thread, id: nat) { w.Sweeping? && w.i <= |w.taken| && Session(id) in w.taken[w.i..] }

  /** A committed session that nobody closed is in its list or ahead of some ClosePlugin. */
  ghost predicate Located(s: State) {
    forall id <- s.owner :: id !in s.closed ==>
      In(s.mem, s.owner[id], id) || exists t :: t in s.threads && Ahead(s.threads[t], id)
  }

  /** What was committed before a ClosePlugin never comes back into the plugin's list. */
  ghost predicate Detached(s: State) {
    forall t <- s.threads :: s.threads[t].Sweeping? ==>
      forall id <- s.threads[t].before :: !In(s.mem, s.threads[t].plugin, id)
  }

  /** Only closed sessions are ever dropped. */
  ghost predicate DropsClosed(s: State) {
    forall t <- s.threads ::
      && (s.threads[t].Dropping? ==> s.threads[t].id in s.closed)
      && (s.threads[t].Sweeping? && s.threads[t].dropping.Some? ==> s.threads[t].dropping.value in s.closed)
  }

  /** How one step changes membership of one session in one list. */
  lemma MembersAfter(s: State, step: Step, p: string, id: nat)
    requires ListsOk(s.mem) && DropsClosed(s) && Enabled(s, step)
    ensures var s' := Apply(s, step);
      && (In(s'.mem, p, id) && !In(s.mem, p, id) ==> id !in s.owner && id in s'.owner && s'.owner[id] == p)
      && (In(s.mem, p, id) && !In(s'.mem, p, id) ==> id in s.closed || (step.StartClose? && step.plugin == p))
      && (id in s'.owner && id !in s.owner ==> In(s'.mem, s'.owner[id], id))
      && (step.StartClose? && step.plugin == p ==> !In(s'.mem, p, id))
  {
    EditsAllowed(s, step);
    EditFrame(s.mem, EditOf(s, step));
    var s', v := Apply(s, step), View(s.mem, p);
    assert View(s'.mem, p) == EditView(s.mem, EditOf(s, step), p);
    if step.Reserve? { AppendedEntries(v); }
    if step.ReleaseOpen? { ReleasedEntries(v); }
    if step.CommitOpen? { CommittedEntries(View(s.mem, s.threads[step.t].plugin), step.id); }
    if step.DropSession? { DroppedEntries(v, s.threads[step.t].id); }
    if step.SweepDrop? { DroppedEntries(v, s.threads[step.t].dropping.value); }
  }

  lemma StepKeepsOwners(s: State, step: Step)
    requires ListsOk(s.mem) && DropsClosed(s) && OwnersOk(s) && Enabled(s, step)
    ensures OwnersOk(Apply(s, step))
  {
    var s' := Apply(s, step);
    forall p, id | In(s'.mem, p, id) ensures id in s'.owner && s'.owner[id] == p { MembersAfter(s, step, p, id); }
  }

  lemma StepKeepsSweepOwners(s: State, step: Step)
    requires OwnersOk(s) && SweepsOwn(s) && Enabled(s, step)
    ensures SweepsOwn(Apply(s, step))
  {
    var s' := Apply(s, step);
    assert forall id <- s.owner :: id in s'.owner && s'.owner[id] == s.owner[id];
    forall t <- s'.threads ensures SweepOwns(s', s'.threads[t]) {
      if t in s.threads { assert SweepOwns(s, s.threads[t]); }
      if step.StartClose? && t == step.t {
        forall x <- View(s.mem, step.plugin) | x.Session? ensures x.id in s.owner && s.owner[x.id] == step.plugin {
          assert In(s.mem, step.plugin, x.id);
        }
      }
    }
  }

  lemma StepKeepsDetached(s: State, step: Step)
    requires ListsOk(s.mem) && DropsClosed(s) && SweepsOwn(s) && Detached(s) && Enabled(s, step)
    ensures Detached(Apply(s, step))
  {
    var s' := Apply(s, step);
    forall t, id | t in s'.threads && s'.threads[t].Sweeping? && id in s'.threads[t].before
      ensures !In(s'.mem, s'.threads[t].plugin, id)
    {
      MembersAfter(s, step, s'.threads[t].plugin, id);
      if t in s.threads { assert SweepOwns(s, s.threads[t]); }
    }
  }

  lemma StepKeepsDrops(s: State, step: Step)
    requires DropsClosed(s) && Enabled(s, step)
    ensures DropsClosed(Apply(s, step)) && s.closed <= Apply(s, step).closed
  {
  }

  /** A step either keeps a session ahead of a ClosePlugin or finds it closed. */
  lemma AheadStep(s: State, step: Step, t: nat, id: nat)
    requires SweepsOk(s) && DropsClosed(s) && Enabled(s, step) && t in s.threads && Ahead(s.threads[t], id)
    ensures var s' := Apply(s, step); id in s'.closed || (t in s'.threads && Ahead(s'.threads[t], id))
  {
    StepKeepsDrops(s, step);
    var w := s.threads[t];
    assert SweepOk(s.mem, w);
    if step.t == t { assert w.taken[w.i..] == [w.taken[w.i]] + w.taken[w.i + 1..]; }
  }

  lemma StepKeepsLocated(s: State, step: Step)
    requires ListsOk(s.mem) && SweepsOk(s) && Located(s) && DropsClosed(s) && Enabled(s, step)
    ensures Located(Apply(s, step))
  {
    var s' := Apply(s, step);
    StepKeepsDrops(s, step);
    forall id | id in s'.owner && id !in s'.closed
      ensures In(s'.mem, s'.owner[id], id) || exists t :: t in s'.threads && Ahead(s'.threads[t], id)
    {
      MembersAfter(s, step, s'.owner[id], id);
      if id in s.owner && In(s.mem, s.owner[id], id) {
        if step.StartClose? && step.plugin == s.owner[id] {
          assert s'.threads[step.t].taken[0..] == View(s.mem, s.owner[id]);
          assert Ahead(s'.threads[step.t], id);
        }
      } else if id in s.owner {
        var t :| t in s.threads && Ahead(s.threads[t], id);
        AheadStep(s, step, t, id);
      }
    }
  }

  ghost predicate Inv(s: State) {
    ListsOk(s.mem) && SweepsOk(s) && PlaceholdersCovered(s) && OwnersOk(s) && SweepsOwn(s)
    && Located(s) && Detached(s) && DropsClosed(s)
  }

  lemma StepKeepsInv(s: State, step: Step)
    requires Inv(s) && Enabled(s, step)
    ensures Inv(Apply(s, step)) && Apply(s, step).mem.limit == s.mem.limit
  {
    EditsAllowed(s, step);
    EditFrame(s.mem, EditOf(s, step));
    StepKeepsSweeps(s, step);
    StepKeepsPlaceholders(s, step);
    StepKeepsOwners(s, step);
    StepKeepsSweepOwners(s, step);
    StepKeepsLocated(s, step);
    StepKeepsDetached(s, step);
    StepKeepsDrops(s, step);
  }

  lemma {:induction false} Reachable(limit: nat, steps: seq<Step>)
    requires Run(Init(limit), steps).Some?
    ensures Inv(Run(Init(limit), steps).value) && Run(Init(limit), steps).value.mem.limit == limit
    decreases |steps|
  {
    if steps != [] {
      Reachable(limit, steps[..|steps| - 1]);
      StepKeepsInv(Run(Init(limit), steps[..|steps| - 1]).value, steps[|steps| - 1]);
    }
  }

  // ---- What follows for every interleaving ----------------------------------------------------------------

  /**
   * A plugin's list never exceeds its limit; its placeholders never outnumber the Opens in
   * flight, so once those have finished none is left behind.
   */
  lemma SlotsBounded(limit: nat, steps: seq<Step>, p: string)
    requires Run(Init(limit), steps).Some?
    ensures var s := Run(Init(limit), steps).value;
      && |View(s.mem, p)| <= limit
      && Placeholders(View(s.mem, p)) <= |Opens(s, p)|
      && (Opens(s, p) == {} ==> Placeholder !in View(s.mem, p))
  {
    Reachable(limit, steps);
    var s := Run(Init(limit), steps).value;
    assert Placeholders(View(s.mem, p)) <= |Opens(s, p)|;
    assert Placeholder in View(s.mem, p) <==> Placeholder in multiset(View(s.mem, p));
  }

  /** Another ClosePlugin of the same plugin has the session ahead of it. */
  ghost predicate LeftToAnother(s: State, t: nat, p: string, id: nat) {
    exists u :: u in s.threads && u != t && Ahead(s.threads[u], id) && s.threads[u].plugin == p
  }

  /**
   * A detached list reads as it did when ClosePlugin took it, however the plugin's lists were edited since;
   * and when ClosePlugin is done, every session of its plugin committed before it started is
   * closed or still ahead of another ClosePlugin of that plugin.
   */
  lemma ClosePluginCloses(limit: nat, steps: seq<Step>, t: nat)
    requires Run(Init(limit), steps).Some?
    requires t in Run(Init(limit), steps).value.threads && Run(Init(limit), steps).value.threads[t].Sweeping?
    ensures var s := Run(Init(limit), steps).value; var w := s.threads[t];
      && (w.taken != [] ==> Readable(s.mem, w.list) && s.mem.heap[w.list.arr][..w.list.len] == w.taken)
      && (forall id <- w.before :: id in s.owner && s.owner[id] == w.plugin)
      && (Enabled(s, SweepEnd(t)) ==> forall id <- w.before :: id in s.closed || LeftToAnother(s, t, w.plugin, id))
      && (Enabled(s, SweepEnd(t)) && OnlySweep(s, t, w.plugin) ==> w.before <= s.closed)
  {
    Reachable(limit, steps);
    var s := Run(Init(limit), steps).value;
    var w := s.threads[t];
    assert SweepOk(s.mem, w) && SweepOwns(s, w);
    if Enabled(s, SweepEnd(t)) {
      forall id | id in w.before && id !in s.closed ensures LeftToAnother(s, t, w.plugin, id) {
        WhoHasIt(s, t, id);
      }
    }
  }

  lemma WhoHasIt(s: State, t: nat, id: nat)
    requires Inv(s) && t in s.threads && s.threads[t].Sweeping? && Enabled(s, SweepEnd(t))
    requires id in s.threads[t].before && id !in s.closed
    ensures LeftToAnother(s, t, s.threads[t].plugin, id)
  {
    var w := s.threads[t];
    assert SweepOk(s.mem, w) && SweepOwns(s, w);
    AheadIsOwned(s, id);
    assert w.taken[w.i..] == [];
  }

  lemma AheadIsOwned(s: State, id: nat)
    requires SweepsOwn(s)
    ensures forall u <- s.threads | Ahead(s.threads[u], id) :: id in s.owner && s.threads[u].plugin == s.owner[id]
  {
    forall u <- s.threads | Ahead(s.threads[u], id) ensures id in s.owner && s.threads[u].plugin == s.owner[id] {
      assert SweepOwns(s, s.threads[u]);
      assert Session(id) in s.threads[u].taken;
    }
  }

  // ---- When ClosePlugin closes everything, exactly --------------------------------------------------------

  lemma RunNext(limit: nat, steps: seq<Step>, s: State, step: Step)
    requires Run(Init(limit), steps) == Some(s) && Enabled(s, step)
    ensures Run(Init(limit), steps + [step]) == Some(Apply(s, step))
  {
    assert (steps + [step])[..|steps|] == steps;
  }

  /** Every session the sweep answers for is closed or still ahead of that same sweep. */
  ghost predicate OnTrack(s: State, t: nat, before: set<nat>) {
    && t in s.threads && s.threads[t].Sweeping? && s.threads[t].before == before
    && forall id <- before :: id in s.closed || Ahead(s.threads[t], id)
  }

  lemma StepStaysOnTrack(s: State, step: Step, t: nat, before: set<nat>)
    requires Inv(s) && Enabled(s, step) && OnTrack(s, t, before) && step != SweepEnd(t)
    ensures OnTrack(Apply(s, step), t, before)
  {
    var s' := Apply(s, step);
    StepKeepsDrops(s, step);
    assert step.t == t ==> step.SweepNext? || step.SweepDrop?;
    forall id <- before ensures id in s'.closed || Ahead(s'.threads[t], id) {
      if id !in s.closed { AheadStep(s, step, t, id); }
    }
  }

  lemma {:induction false} StaysOnTrack(limit: nat, steps: seq<Step>, s: State, t: nat, before: set<nat>, rest: seq<Step>)
    requires Run(Init(limit), steps) == Some(s) && OnTrack(s, t, before)
    requires Run(Init(limit), steps + rest).Some? && SweepEnd(t) !in rest
    ensures OnTrack(Run(Init(limit), steps + rest).value, t, before)
    decreases |rest|
  {
    if rest == [] {
      assert steps + rest == steps;
    } else {
      var n := |rest| - 1;
      assert (steps + rest)[..|steps + rest| - 1] == steps + rest[..n];
      assert forall x <- rest[..n] :: x in rest;
      assert rest[n] in rest;
      StaysOnTrack(limit, steps, s, t, before, rest[..n]);
      Reachable(limit, steps + rest[..n]);
      StepStaysOnTrack(Run(Init(limit), steps + rest[..n]).value, rest[n], t, before);
    }
  }

  /** How far a sweep is from its end. */
  function Left(w: Thread): int
    requires w.Sweeping?
  {
    2 * (|w.taken| - w.i) - if w.dropping.Some? then 1 else 0
  }

  /** What was closed between two states is among these entries. */
  predicate ClosedOnly(s: State, s': State, taken: seq<Slot>) {
    forall id | id in s'.closed && id !in s.closed :: Session(id) in taken
  }

  /** Left alone, a sweep runs to its end, closing nothing but what it took. */
  lemma {:induction false} RunsToItsEnd(limit: nat, steps: seq<Step>, s: State, t: nat) returns (rest: seq<Step>, s': State)
    requires Run(Init(limit), steps) == Some(s) && t in s.threads && s.threads[t].Sweeping?
    ensures Run(Init(limit), steps + rest) == Some(s') && SweepEnd(t) !in rest && Enabled(s', SweepEnd(t))
    ensures ClosedOnly(s, s', s.threads[t].taken)
    decreases Left(s.threads[t])
  {
    if Enabled(s, SweepEnd(t)) {
      rest, s' := [], s;
      assert steps + [] == steps;
    } else {
      var step, s1 := SweepGoesOn(limit, steps, s, t);
      var more;
      more, s' := RunsToItsEnd(limit, steps + [step], s1, t);
      rest := [step] + more;
      Regroup(steps, step, more);
    }
  }

  lemma Regroup(steps: seq<Step>, step: Step, more: seq<Step>)
    ensures steps + ([step] + more) == steps + [step] + more
    ensures forall x :: x in [step] + more <==> x == step || x in more
  {
  }

  /** A sweep that is not done has a step of its own, which brings it closer to its end. */
  lemma SweepGoesOn(limit: nat, steps: seq<Step>, s: State, t: nat) returns (step: Step, s': State)
    requires Run(Init(limit), steps) == Some(s) && t in s.threads && s.threads[t].Sweeping? && !Enabled(s, SweepEnd(t))
    ensures step != SweepEnd(t) && Run(Init(limit), steps + [step]) == Some(s')
    ensures t in s'.threads && s'.threads[t].Sweeping? && s'.threads[t].taken == s.threads[t].taken
    ensures 0 <= Left(s'.threads[t]) < Left(s.threads[t]) && ClosedOnly(s, s', s.threads[t].taken)
  {
    Reachable(limit, steps);
    var w := s.threads[t];
    assert SweepOk(s.mem, w);
    step := SweepStep(s, t);
    s' := Apply(s, step);
    RunNext(limit, steps, s, step);
    Reachable(limit, steps + [step]);
    assert SweepOk(s'.mem, s'.threads[t]);
  }

  lemma SweepStep(s: State, t: nat) returns (step: Step)
    requires t in s.threads && s.threads[t].Sweeping? && SweepOk(s.mem, s.threads[t]) && !Enabled(s, SweepEnd(t))
    ensures step != SweepEnd(t) && Enabled(s, step)
    ensures ThreadAfter(s, step).Some? && ThreadAfter(s, step).value.Sweeping? && step.t == t
    ensures ThreadAfter(s, step).value.taken == s.threads[t].taken && Left(ThreadAfter(s, step).value) < Left(s.threads[t])
    ensures ClosedOnly(s, Apply(s, step), s.threads[t].taken)
  {
    var w := s.threads[t];
    if w.dropping.Some? {
      step := SweepDrop(t);
    } else {
      step := SweepNext(t);
      assert s.mem.heap[w.list.arr][..w.list.len][w.i] == w.taken[w.i];
      assert Entry(s, w) == w.taken[w.i] && w.taken[w.i] in w.taken;
    }
  }

  /** Every session of the plugin is closed already or still in its list. */
  predicate AllListed(s: State, p: string) { forall id <- Owned(s, p) :: id in s.closed || Session(id) in View(s.mem, p) }

  /** However the run goes on, once this ClosePlugin is done the plugin's sessions of its start are closed. */
  ghost predicate WillClose(limit: nat, steps: seq<Step>, t: nat, ids: set<nat>) {
    forall rest: seq<Step> | SweepEnd(t) !in rest && EndsSweep(limit, steps + rest, t) ::
      ids <= Run(Init(limit), steps + rest).value.closed
  }

  predicate EndsSweep(limit: nat, steps: seq<Step>, t: nat) {
    Run(Init(limit), steps).Some? && Enabled(Run(Init(limit), steps).value, SweepEnd(t))
  }

  /**
   * A ClosePlugin closes every session its plugin had when it started, whatever runs beside it, exactly when each
   * of them is then closed or still in the plugin's list, rather than on a list an earlier ClosePlugin detached.
   */
  lemma ClosesAllIff(limit: nat, steps: seq<Step>, s: State, t: nat, p: string)
    requires Run(Init(limit), steps) == Some(s) && t !in s.threads
    ensures AllListed(s, p) <==> WillClose(limit, steps + [StartClose(t, p)], t, Owned(s, p))
  {
    var step, ids := StartClose(t, p), Owned(s, p);
    var s1, now := Apply(s, step), steps + [step];
    RunNext(limit, steps, s, step);
    assert s1.threads[t].taken == View(s.mem, p) && s1.threads[t].before == ids;
    if AllListed(s, p) {
      assert s1.threads[t].taken[0..] == View(s.mem, p);
      assert OnTrack(s1, t, ids);
      forall rest: seq<Step> | SweepEnd(t) !in rest && EndsSweep(limit, now + rest, t)
        ensures ids <= Run(Init(limit), now + rest).value.closed
      {
        StaysOnTrack(limit, now, s1, t, ids, rest);
        Reachable(limit, now + rest);
        NothingAhead(Run(Init(limit), now + rest).value, t, ids);
      }
    } else {
      var id :| id in ids && id !in s.closed && Session(id) !in View(s.mem, p);
      var rest, s2 := RunsToItsEnd(limit, now, s1, t);
      assert EndsSweep(limit, now + rest, t) && id !in s2.closed;
    }
  }

  lemma NothingAhead(s: State, t: nat, ids: set<nat>)
    requires Inv(s) && OnTrack(s, t, ids) && Enabled(s, SweepEnd(t))
    ensures ids <= s.closed
  {
    var w := s.threads[t];
    assert SweepOk(s.mem, w);
    assert w.taken[w.i..] == [];
  }

  /** No other ClosePlugin of this plugin is under way. */
  predicate OnlySweep(s: State, t: nat, p: string) {
    forall u <- s.threads | u != t :: s.threads[u].Sweeping? ==> s.threads[u].plugin != p
  }

  /** In particular if no other ClosePlugin of the plugin is under way when it starts; a later one does no harm. */
  lemma LoneCloseIsComplete(limit: nat, steps: seq<Step>, s: State, t: nat, p: string)
    requires Run(Init(limit), steps) == Some(s) && t !in s.threads && OnlySweep(s, t, p)
    ensures WillClose(limit, steps + [StartClose(t, p)], t, Owned(s, p))
  {
    Reachable(limit, steps);
    forall id <- Owned(s, p) | id !in s.closed ensures Session(id) in View(s.mem, p) {
      AheadIsOwned(s, id);
      assert In(s.mem, p, id);
    }
    ClosesAllIff(limit, steps, s, t, p);
  }

  /**
   * The exception is real: two overlapping ClosePlugins on one plugin, where the second finds nothing to detach
   * and returns while the first has not yet closed the session.
   */
  lemma SecondCloseReturnsEarly(p: string) returns (steps: seq<Step>, s: State)
    ensures Run(Init(1), steps) == Some(s) && Enabled(s, SweepEnd(2))
    ensures s.threads[2].Sweeping? && s.threads[2].before == {5} && 5 !in s.closed
  {
    steps, s := OneSession(p);
    steps, s := Then(steps, s, StartClose(1, p));
    assert s.owner == map[5 := p] && View(s.mem, p) == [];
    steps, s := Then(steps, s, StartClose(2, p));
    assert Owned(s, p) == {5};
  }

  lemma OneSession(p: string) returns (steps: seq<Step>, s: State)
    ensures Run(Init(1), steps) == Some(s) && s.owner == map[5 := p] && s.closed == {} && s.threads == map[]
    ensures p in s.mem.lists && View(s.mem, p) == [Session(5)]
  {
    steps, s := Then([], Init(1), Reserve(0, p, 0, 0));
    assert View(s.mem, p) == [Placeholder];
    assert s.threads == map[0 := Opening(p)];
    steps, s := Then(steps, s, CommitOpen(0, 5));
    assert View(s.mem, p) == [Session(5)];
  }

  lemma Then(steps: seq<Step>, s: State, step: Step) returns (steps': seq<Step>, s': State)
    requires Run(Init(1), steps) == Some(s) && Enabled(s, step)
    ensures steps' == steps + [step] && s' == Apply(s, step) && Run(Init(1), steps') == Some(s')
  {
    steps', s' := steps + [step], Apply(s, step);
    assert steps'[..|steps|] == steps;
  }
}
