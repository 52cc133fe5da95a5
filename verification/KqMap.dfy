/** The descriptor map of src/common/map.c, one slot per descriptor, and the
    registry that src/common/kqueue.c keeps with it under kq_mtx.  Each slot
    operation is one atomic compare-and-swap, swap or load. */
module KqMap {
  import opened Lifecycle
  import opened Lists

  /** What map_delete returns: (void *)-1 for a bad index, else the old slot. */
  datatype Deleted = BadIndex | Was(slot: Option<nat>)

  class Map {
    const data: array<Option<nat>>

    constructor (len: nat)
      ensures fresh(data) && data.Length == len && Slots() == map[]
    {
      data := new Option<nat>[len](_ => None);
    }

    predicate InRange(idx: int) {
      0 <= idx < data.Length
    }

    ghost function Slots(): map<int, nat>
      reads data
    {
      map i | 0 <= i < data.Length && data[i].Some? :: data[i].value
    }

    method Insert(idx: int, ptr: nat) returns (rv: int)
      modifies data
      ensures rv in {0, -1} && (rv == 0 <==> InRange(idx) && idx !in old(Slots()))
      ensures Slots() == if rv == 0 then old(Slots())[idx := ptr] else old(Slots())
    {
      if !InRange(idx) || data[idx] != None {
        return -1;
      }
      data[idx] := Some(ptr);
      return 0;
    }

    method Remove(idx: int, ptr: nat) returns (rv: int)
      modifies data
      ensures rv in {0, -1} && (rv == 0 <==> idx in old(Slots()) && old(Slots())[idx] == ptr)
      ensures Slots() == MapRemove(old(Slots()), idx, ptr)
    {
      if !InRange(idx) || data[idx] != Some(ptr) {
        return -1;
      }
      data[idx] := None;
      return 0;
    }

    method Lookup(idx: int) returns (r: Option<nat>)
      ensures r == if idx in Slots() then Some(Slots()[idx]) else None
    {
      if !InRange(idx) {
        return None;
      }
      return data[idx];
    }

    method Delete(idx: int) returns (r: Deleted)
      modifies data
      ensures r.BadIndex? <==> !InRange(idx)
      ensures r.Was? ==> r.slot == if idx in old(Slots()) then Some(old(Slots())[idx]) else None
      ensures Slots() == old(Slots()) - {idx}
    {
      if !InRange(idx) {
        return BadIndex;
      }
      r := Was(data[idx]);
      data[idx] := None;
    }
  }

  class Registry {
    const kqmap: Map
    var list: seq<nat>
    var cnt: int

    constructor (len: nat)
      ensures fresh(kqmap) && fresh(kqmap.data) && kqmap.data.Length == len
      ensures kqmap.Slots() == START.slots && list == START.list && cnt == START.cnt
    {
      kqmap := new Map(len);
      list, cnt := [], 0;
    }

    /** kqueue() under kq_mtx: evict a stale owner of the number, take the slot,
        join the list.  The evicted kqueue stays listed. */
    method Publish(k: nat, id: int) returns (rv: int)
      modifies this, kqmap.data
      ensures rv == 0 <==> kqmap.InRange(id)
      ensures rv == 0 ==> kqmap.Slots() == old(kqmap.Slots())[id := k] && list == [k] + old(list) && cnt == old(cnt) + 1
      ensures rv != 0 ==> kqmap.Slots() == old(kqmap.Slots()) && list == old(list) && cnt == old(cnt)
    {
      ghost var m := kqmap.Slots();
      var stale := kqmap.Delete(id);
      assert (m - {id})[id := k] == m[id := k];
      rv := kqmap.Insert(id, k);
      if rv < 0 {
        return -1;
      }
      list := [k] + list;
      cnt := cnt + 1;
      return 0;
    }

    /** kqueue_free() under kq_mtx. */
    method Unlink(k: nat, id: int)
      modifies this, kqmap.data
      ensures cnt == old(cnt) - 1 && list == Drop(old(list), k)
      ensures kqmap.Slots() == MapRemove(old(kqmap.Slots()), id, k)
    {
      cnt := cnt - 1;
      list := Drop(list, k);
      var rv := kqmap.Remove(id, k);
    }
  }
}
