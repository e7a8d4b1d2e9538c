/**
 * The slot methods of the browser service as they are written, over real arrays: internal/core/browser/browser.go.
 *
 * Each method changes at most the array of the plugin it is called for, which is what lets ClosePlugin walk
 * its detached list after it has released the mutex.
 */
module SlotService {
  import opened Common
  import opened SlotLists

  datatype Header = Header(arr: array<Slot>, len: nat)

  class Service {
    const limit: nat
    var sessions: map<string, Header>

    ghost function Arrays(): set<object>
      reads this
    {
      set p | p in sessions :: sessions[p].arr as object
    }

    ghost predicate Valid()
      reads this, Arrays()
    {
      && (forall p <- sessions :: 1 <= sessions[p].len <= sessions[p].arr.Length && sessions[p].len <= limit)
      && (forall p, q :: p in sessions && q in sessions && p != q ==> sessions[p].arr != sessions[q].arr)
    }

    ghost function List(p: string): seq<Slot>
      requires Valid()
      reads this, Arrays()
    {
      if p in sessions then sessions[p].arr[..sessions[p].len] else []
    }

    constructor (limit: nat)
      ensures Valid() && this.limit == limit && sessions == map[]
    {
      this.limit := limit;
      sessions := map[];
    }

    /** reserveSlot; `pagesFull` is the host-wide page limit, checked in the same section. */
    method ReserveSlot(p: string, pagesFull: bool, room: nat) returns (ok: bool)
      requires Valid()
      modifies this, if p in sessions then {sessions[p].arr} else {}
      ensures Valid() && (ok <==> |old(List(p))| < limit && !pagesFull)
      ensures List(p) == old(List(p)) + if ok then [Placeholder] else []
      ensures forall q :: q != p ==> List(q) == old(List(q))
      ensures p in sessions ==> sessions[p].arr in old(Arrays()) || fresh(sessions[p].arr)
    {
      var len := if p in sessions then sessions[p].len else 0;
      if len >= limit || pagesFull { return false; }
      if p in sessions && len < sessions[p].arr.Length {
        var a := sessions[p].arr;
        a[len] := Placeholder;
        sessions := sessions[p := Header(a, len + 1)];
      } else {
        ghost var was := List(p);
        var grown := Grow(p, len, room);
        sessions := sessions[p := Header(grown, len + 1)];
        assert grown[..len + 1] == was + [Placeholder];
      }
      return true;
    }

    /** The reallocation inside `append` when the backing array is full. */
    method Grow(p: string, len: nat, room: nat) returns (grown: array<Slot>)
      requires Valid() && len == |List(p)|
      ensures fresh(grown) && grown.Length == len + 1 + room && grown[..len + 1] == List(p) + [Placeholder]
    {
      grown := new Slot[len + 1 + room](_ => Placeholder);
      if p in sessions {
        forall i | 0 <= i < len { grown[i] := sessions[p].arr[i]; }
      }
    }

    method ReleaseReservation(p: string)
      requires Valid()
      modifies this, if p in sessions then {sessions[p].arr} else {}
      ensures Valid() && List(p) == Released(old(List(p)))
      ensures forall q :: q != p ==> List(q) == old(List(q))
    {
      ghost var released := Released(List(p));
      if p !in sessions {
        assert released == [];
        return;
      }
      var a := sessions[p].arr;
      var len' := ReleaseInPlace(a, sessions[p].len);
      assert a[..len'] == released;
      Shorten(p, len');
    }

    /** `sessions[p] = list[:n]`, or its removal when nothing is left. */
    method Shorten(p: string, n: nat)
      requires Valid() && p in sessions && n <= sessions[p].len
      modifies this
      ensures Valid() && List(p) == old(List(p))[..n]
      ensures forall q :: q != p ==> List(q) == old(List(q))
    {
      if n == 0 {
        sessions := sessions - {p};
      } else {
        sessions := sessions[p := Header(sessions[p].arr, n)];
      }
    }

    method CommitSession(p: string, id: nat) returns (ok: bool)
      requires Valid()
      modifies if p in sessions then {sessions[p].arr} else {}
      ensures Valid() && (ok <==> Committed(old(List(p)), id).Some?)
      ensures List(p) == if ok then Committed(old(List(p)), id).value else old(List(p))
      ensures forall q :: q != p ==> List(q) == old(List(q))
    {
      if p !in sessions { return false; }
      ok := CommitInPlace(sessions[p].arr, sessions[p].len, id);
    }

    method DropSession(p: string, id: nat)
      requires Valid()
      modifies this, if p in sessions then {sessions[p].arr} else {}
      ensures Valid() && List(p) == Dropped(old(List(p)), id)
      ensures forall q :: q != p ==> List(q) == old(List(q))
    {
      if p !in sessions { return; }
      var a := sessions[p].arr;
      var m := DropInPlace(a, sessions[p].len, id);
      Shorten(p, m);
    }

    /** The locked half of ClosePlugin. Afterwards no list can write to the array it hands back. */
    method DetachList(p: string) returns (list: Option<Header>)
      requires Valid()
      modifies this
      ensures Valid() && List(p) == [] && (list.Some? <==> p in old(sessions))
      ensures list.Some? ==> list.value.arr !in Arrays() && list.value.len <= list.value.arr.Length
      ensures list.Some? ==> list.value.arr[..list.value.len] == old(List(p))
      ensures forall q :: q != p ==> List(q) == old(List(q))
    {
      if p !in sessions { return None; }
      list := Some(sessions[p]);
      sessions := sessions - {p};
    }
  }
}
