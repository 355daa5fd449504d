/** Runs of requests of one thread: how many fit a region, in numbers. */
module AllocRuns {
  import opened Regions
  import opened RegionHeap
  import RegionList = Heap

  /** What requests of these sizes take up, each with its header. */
  function Total(sizes: seq<nat>): nat {
    if sizes == [] then 0 else Total(sizes[..|sizes| - 1]) + sizes[|sizes| - 1] + 16
  }

  lemma {:induction false} TotalPrefix(sizes: seq<nat>, k: nat)
    requires k < |sizes|
    ensures Total(sizes[..k]) + sizes[k] + 16 <= Total(sizes)
    decreases |sizes|
  {
    var n := |sizes| - 1;
    if k < n {
      TotalPrefix(sizes[..n], k);
      assert sizes[..n][..k] == sizes[..k];
    } else {
      assert sizes[..k] == sizes[..n];
    }
  }

  /** The records that requests of these sizes leave in a fresh region, one behind the other. */
  function Laid(sizes: seq<nat>, kind: Kind): seq<Rec> {
    if sizes == [] then []
    else Laid(sizes[..|sizes| - 1], kind) + [Rec(Total(sizes[..|sizes| - 1]), sizes[|sizes| - 1], kind)]
  }

  /** One request, in numbers. */
  method AllocateNext(heap: RegionList.PupHeap, tid: nat, size: nat, kind: Kind)
    requires heap.Valid() && tid in heap.locals && size <= 0x1000
    modifies heap, heap.All, heap.Mems
    ensures heap.Valid() && tid in heap.locals && fresh(heap.All - old(heap.All)) && fresh(heap.Mems - old(heap.Mems))
    ensures old(heap.locals[tid].used) + size + 16 <= 0x10_0000 ==>
      && heap.locals[tid] == old(heap.locals[tid]) && heap.list == old(heap.list)
      && heap.locals[tid].used == old(heap.locals[tid].used) + size + 16
      && heap.locals[tid].recs == old(heap.locals[tid].recs) + [Rec(old(heap.locals[tid].used), size, kind)]
    ensures old(heap.locals[tid].used) + size + 16 > 0x10_0000 ==>
      && fresh(heap.locals[tid]) && heap.list == [old(heap.locals[tid])] + old(heap.list)
      && heap.locals[tid].used == size + 16 && heap.locals[tid].recs == [Rec(0, size, kind)]
      && old(heap.locals[tid]).used == old(heap.locals[tid].used) && old(heap.locals[tid]).recs == old(heap.locals[tid].recs)
  {
    hide Tiled, RegionList.Apart, MarkOf, HasMark;
    RegionList.LocalIsOwned(heap.locals, heap.list, heap.All, tid);
    ghost var region0 := heap.locals[tid];
    ghost var view, used := region0.View(), region0.used;
    var region, data, inside := heap.ThreadLocalAlloc(tid, size, kind);
    RegionList.LocalIsOwned(heap.locals, heap.list, heap.All, tid);
    assert region.Valid();
    assert region.View().recs == region.recs && view.recs == old(region0.recs);
    LastEnds(region.mem[..], region.recs, 0, region.used);
    assert used + size + 16 > 0x10_0000 ==> region0.View() == view;
  }

  /** Requests that together take up no more than 0x100000 bytes all land in the thread's empty
      region, one behind the other, and the list of full regions stays as it was. */
  method AllocateInTurn(heap: RegionList.PupHeap, tid: nat, sizes: seq<nat>, kind: Kind)
    requires heap.Valid() && tid in heap.locals && heap.locals[tid].used == 0 && heap.locals[tid].recs == []
    requires (forall k :: 0 <= k < |sizes| ==> sizes[k] <= 0x1000) && Total(sizes) <= 0x10_0000
    modifies heap, heap.All, heap.Mems
    ensures heap.Valid() && tid in heap.locals && heap.locals[tid] == old(heap.locals[tid]) && heap.list == old(heap.list)
    ensures fresh(heap.All - old(heap.All)) && fresh(heap.Mems - old(heap.Mems))
    ensures heap.locals[tid].recs == Laid(sizes, kind) && heap.locals[tid].used == Total(sizes)
  {
    hide heap.Valid;
    var k := 0;
    assert sizes[..0] == [];
    while k < |sizes|
      invariant k <= |sizes| && heap.Valid() && tid in heap.locals && heap.locals[tid] == old(heap.locals[tid])
      invariant heap.list == old(heap.list) && fresh(heap.All - old(heap.All)) && fresh(heap.Mems - old(heap.Mems))
      invariant heap.locals[tid].recs == Laid(sizes[..k], kind) && heap.locals[tid].used == Total(sizes[..k])
    {
      TotalPrefix(sizes, k);
      assert sizes[..k + 1][..k] == sizes[..k];
      AllocateNext(heap, tid, sizes[k], kind);
      k := k + 1;
    }
    assert sizes[..k] == sizes;
  }

  /** The first request beyond that lands in a new region, and the full one goes to the list. */
  method AllocateBeyond(heap: RegionList.PupHeap, tid: nat, sizes: seq<nat>, kind: Kind, last: nat)
    requires heap.Valid() && tid in heap.locals && heap.locals[tid].used == 0 && heap.locals[tid].recs == []
    requires (forall k :: 0 <= k < |sizes| ==> sizes[k] <= 0x1000) && last <= 0x1000
    requires Total(sizes) <= 0x10_0000 < Total(sizes) + last + 16
    modifies heap, heap.All, heap.Mems
    ensures heap.Valid() && tid in heap.locals && fresh(heap.locals[tid])
    ensures heap.list == [old(heap.locals[tid])] + old(heap.list)
    ensures old(heap.locals[tid]).recs == Laid(sizes, kind) && old(heap.locals[tid]).used == Total(sizes)
    ensures heap.locals[tid].recs == [Rec(0, last, kind)] && heap.locals[tid].used == last + 16
  {
    hide heap.Valid;
    AllocateInTurn(heap, tid, sizes, kind);
    AllocateNext(heap, tid, last, kind);
  }
}
