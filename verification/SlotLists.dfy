/**
 * The per-plugin session lists of internal/core/browser/browser.go, edited in place in their backing arrays.
 *
 * The functions say what each edit does to a list; the methods are the edits as the program makes them,
 * on arrays that are shared with every other holder of the slice.
 */
module SlotLists {
  import opened Common

  /** One list entry: the nil placeholder of an Open in progress, or a committed session. */
  datatype Slot = Placeholder | Session(id: nat)

  // ---- The edits as functions on the list --------------------------------------------------

  function FirstPlaceholder(s: seq<Slot>): (i: nat)
    ensures i <= |s| && (i < |s| ==> s[i] == Placeholder)
    ensures forall j :: 0 <= j < i ==> s[j] != Placeholder
  {
    if s == [] || s[0] == Placeholder then 0 else 1 + FirstPlaceholder(s[1..])
  }

  /** The index of the last placeholder, or -1. */
  function LastPlaceholder(s: seq<Slot>): (i: int)
    ensures -1 <= i < |s| && (i >= 0 ==> s[i] == Placeholder)
    ensures forall j :: i < j < |s| ==> s[j] != Placeholder
  {
    if s == [] then -1
    else if s[|s| - 1] == Placeholder then |s| - 1
    else LastPlaceholder(s[..|s| - 1])
  }

  function Remove(s: seq<Slot>, i: nat): seq<Slot>
    requires i < |s|
  {
    s[..i] + s[i + 1..]
  }

  function Released(s: seq<Slot>): seq<Slot> {
    var i := LastPlaceholder(s);
    if i < 0 then s else Remove(s, i)
  }

  function Committed(s: seq<Slot>, id: nat): Option<seq<Slot>> {
    var i := FirstPlaceholder(s);
    if i == |s| then None else Some(s[i := Session(id)])
  }

  function Dropped(s: seq<Slot>, id: nat): seq<Slot> {
    if s == [] then []
    else
      var n := |s| - 1;
      if s[n] == Session(id) then Dropped(s[..n], id) else Dropped(s[..n], id) + [s[n]]
  }

  function Placeholders(s: seq<Slot>): nat { multiset(s)[Placeholder] }

  // ---- What the edits mean --------------------------------------------------------------------

  lemma RemoveExact(s: seq<Slot>, i: nat)
    requires i < |s|
    ensures multiset(Remove(s, i)) == multiset(s) - multiset{s[i]}
  {
    assert s == s[..i] + [s[i]] + s[i + 1..];
  }

  /** A release gives back exactly one placeholder if there is one and never touches a session. */
  lemma ReleasedExact(s: seq<Slot>)
    ensures multiset(Released(s)) == multiset(s) - multiset{Placeholder}
    ensures |Released(s)| <= |s|
  {
    var i := LastPlaceholder(s);
    if i >= 0 { RemoveExact(s, i); }
  }

  /** A commit turns one placeholder into the session, and fails exactly when there is none. */
  lemma CommittedExact(s: seq<Slot>, id: nat)
    ensures Committed(s, id).None? <==> Placeholder !in s
    ensures Committed(s, id).Some? ==>
      multiset(Committed(s, id).value) == multiset(s) - multiset{Placeholder} + multiset{Session(id)}
  {
    var i := FirstPlaceholder(s);
    if i < |s| { assert s[i] in s; }
  }

  /** A drop removes every copy of its session and nothing else. */
  lemma {:induction false} DroppedExact(s: seq<Slot>, id: nat)
    ensures multiset(Dropped(s, id)) == multiset(s)[Session(id) := 0]
    ensures |Dropped(s, id)| <= |s|
    decreases |s|
  {
    if s != [] {
      var n := |s| - 1;
      DroppedExact(s[..n], id);
      assert s == s[..n] + [s[n]];
    }
  }

  /** The session takes the place of the first placeholder; every other entry stays where it was. */
  lemma CommittedInPlace(s: seq<Slot>, id: nat, i: nat)
    requires i < |s| && s[i] == Placeholder && Placeholder !in s[..i]
    ensures Committed(s, id) == Some(s[..i] + [Session(id)] + s[i + 1..])
  {
    var k := FirstPlaceholder(s);
    assert forall j :: 0 <= j < i ==> s[..i][j] == s[j];
    assert k == i;
    assert s[i := Session(id)] == s[..i] + [Session(id)] + s[i + 1..];
  }

  /** The last placeholder goes; the entries before and after it keep their order. */
  lemma ReleasedFromTheEnd(s: seq<Slot>, i: nat)
    requires i < |s| && s[i] == Placeholder && Placeholder !in s[i + 1..]
    ensures Released(s) == s[..i] + s[i + 1..]
  {
    assert forall j :: i < j < |s| ==> s[i + 1..][j - i - 1] == s[j];
    assert LastPlaceholder(s) == i;
  }

  /** A drop closes the gap around its session, wherever that is. */
  lemma {:induction false} DroppedAround(before: seq<Slot>, id: nat, after: seq<Slot>)
    requires Session(id) !in before && Session(id) !in after
    ensures Dropped(before + [Session(id)] + after, id) == before + after && Dropped(before + after, id) == before + after
    decreases |after|
  {
    var s := before + [Session(id)] + after;
    if after == [] {
      assert s[..|before|] == before && before + after == before;
      DropNothing(before, id);
    } else {
      var n := |after| - 1;
      assert s[..|s| - 1] == before + [Session(id)] + after[..n];
      assert (before + after)[..|before + after| - 1] == before + after[..n];
      DroppedAround(before, id, after[..n]);
      assert after[n] in after && before + after == before + after[..n] + [after[n]];
    }
  }

  lemma {:induction false} DropNothing(s: seq<Slot>, id: nat)
    requires Session(id) !in s
    ensures Dropped(s, id) == s
    decreases |s|
  {
    if s != [] {
      assert s[|s| - 1] in s && s == s[..|s| - 1] + [s[|s| - 1]];
      DropNothing(s[..|s| - 1], id);
    }
  }

  // ---- The same facts, one entry at a time ---------------------------------------------------------

  lemma AppendedEntries(s: seq<Slot>)
    ensures Placeholders(s + [Placeholder]) == Placeholders(s) + 1
    ensures forall id :: Session(id) in s + [Placeholder] <==> Session(id) in s
  {
  }

  lemma ReleasedEntries(s: seq<Slot>)
    ensures Placeholders(Released(s)) == if Placeholders(s) == 0 then 0 else Placeholders(s) - 1
    ensures forall id :: Session(id) in Released(s) <==> Session(id) in s
    ensures |Released(s)| <= |s|
  {
    ReleasedExact(s);
    forall id ensures Session(id) in Released(s) <==> Session(id) in s {
      assert Session(id) in multiset(Released(s)) <==> Session(id) in multiset(s);
    }
  }

  lemma CommittedEntries(s: seq<Slot>, id: nat)
    ensures Committed(s, id).None? <==> Placeholders(s) == 0
    ensures Committed(s, id).Some? ==> |Committed(s, id).value| == |s| && Placeholders(Committed(s, id).value) == Placeholders(s) - 1
    ensures Committed(s, id).Some? ==> forall k :: Session(k) in Committed(s, id).value <==> k == id || Session(k) in s
  {
    CommittedExact(s, id);
    if Committed(s, id).Some? {
      var v := Committed(s, id).value;
      forall k ensures Session(k) in v <==> k == id || Session(k) in s {
        assert Session(k) in multiset(v) <==> k == id || Session(k) in multiset(s);
      }
    }
  }

  lemma DroppedEntries(s: seq<Slot>, id: nat)
    ensures Placeholders(Dropped(s, id)) == Placeholders(s) && |Dropped(s, id)| <= |s|
    ensures forall k :: Session(k) in Dropped(s, id) <==> k != id && Session(k) in s
  {
    DroppedExact(s, id);
    var v := Dropped(s, id);
    forall k ensures Session(k) in v <==> k != id && Session(k) in s {
      assert Session(k) in multiset(v) <==> k != id && Session(k) in multiset(s);
    }
  }

  // ---- The edits as the program makes them -------------------------------------------------------

  /** commitSession's search and overwrite. */
  method CommitInPlace(a: array<Slot>, len: nat, id: nat) returns (ok: bool)
    requires len <= a.Length
    modifies a
    ensures ok <==> Committed(old(a[..len]), id).Some?
    ensures ok ==> a[..len] == Committed(old(a[..len]), id).value
    ensures !ok ==> a[..len] == old(a[..len])
    ensures a[len..] == old(a[len..])
  {
    for i := 0 to len
      invariant forall j :: 0 <= j < i ==> a[j] != Placeholder
      invariant a[..] == old(a[..])
    {
      if a[i] == Placeholder {
        assert a[..len][i] == Placeholder && forall j :: 0 <= j < i ==> a[..len][j] == a[j];
        assert FirstPlaceholder(a[..len]) == i;
        a[i] := Session(id);
        return true;
      }
    }
    assert FirstPlaceholder(a[..len]) == len;
    return false;
  }

  /** `append(list[:i], list[i+1:]...)`: the tail moves left; the last cell keeps its old value. */
  method RemoveInPlace(a: array<Slot>, len: nat, i: nat)
    requires i < len <= a.Length
    modifies a
    ensures a[..len - 1] == Remove(old(a[..len]), i)
    ensures a[len - 1..] == old(a[len - 1..])
  {
    for k := i to len - 1
      invariant forall j :: 0 <= j < a.Length ==> a[j] == if i <= j < k then old(a[j + 1]) else old(a[j])
    {
      a[k] := a[k + 1];
    }
  }

  /** releaseReservation's search from the end. */
  method ReleaseInPlace(a: array<Slot>, len: nat) returns (len': nat)
    requires len <= a.Length
    modifies a
    ensures len' <= len && a[..len'] == Released(old(a[..len]))
    ensures a[len'..] == old(a[len'..])
  {
    var i := len;
    while i > 0
      invariant 0 <= i <= len
      invariant forall j :: i <= j < len ==> a[j] != Placeholder
      invariant a[..] == old(a[..])
    {
      i := i - 1;
      if a[i] == Placeholder {
        assert LastPlaceholder(a[..len]) == i;
        RemoveInPlace(a, len, i);
        return len - 1;
      }
    }
    assert LastPlaceholder(a[..len]) == -1;
    return len;
  }

  /** dropSession's compaction, writing the kept entries over the list it is reading. */
  method DropInPlace(a: array<Slot>, len: nat, id: nat) returns (m: nat)
    requires len <= a.Length
    modifies a
    ensures m <= len && a[..m] == Dropped(old(a[..len]), id)
    ensures a[m..] == old(a[m..])
  {
    m := 0;
    for i := 0 to len
      invariant m <= i
      invariant a[..m] == Dropped(old(a[..i]), id)
      invariant forall j :: m <= j < a.Length ==> a[j] == old(a[j])
    {
      var x := a[i];
      assert old(a[..i + 1])[..i] == old(a[..i]);
      if x != Session(id) {
        a[m] := x;
        m := m + 1;
      }
    }
  }
}
