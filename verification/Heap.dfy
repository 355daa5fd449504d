/** The heap: one region per thread to allocate from, a global list of full regions, and the
    sweep over that list. */
module Heap {
  import opened Bytes
  import opened Regions
  import opened RegionHeap
  import opened Sweep

  /** A request is refused, or its mark would be written outside the region, or it succeeds. */
  datatype Allocation = Aborted | WritesOutside | Allocated(region: Region, data: nat)

  class PupHeap {
    var locals: map<nat, Region>  // the local region of each thread
    var marks: map<nat, bool>     // the mark each thread gives to what it allocates
    var list: seq<Region>         // the global region list, head first
    ghost var All: set<Region>
    ghost var Mems: set<array<byte>>

    constructor ()
      ensures Valid() && All == {} && Mems == {} && locals == map[] && list == []
    {
      locals, marks, list := map[], map[], [];
      All, Mems := {}, {};
    }

    /** Every region is tiled and is either one thread's own or on the list, once. */
    ghost predicate Valid()
      reads this, All, Mems
    {
      && marks.Keys == locals.Keys
      && Owned(locals, list, All)
      && Apart(All, Mems)
      && forall r <- All :: r.Valid()
    }

    /** A new thread gets a region of its own. */
    method ThreadInit(tid: nat, mark: bool)
      requires Valid() && tid !in locals
      modifies this
      ensures Valid() && fresh(All - old(All)) && fresh(Mems - old(Mems)) && old(All) <= All
      ensures tid in locals && locals == old(locals)[tid := locals[tid]] && marks == old(marks)[tid := mark]
      ensures locals[tid].recs == [] && list == old(list)
    {
      hide Owned, Tiled;
      var region := new Region();
      LocalAdded(locals, list, All, tid, region);
      locals, marks := locals[tid := region], marks[tid := mark];
      All, Mems := All + {region}, Mems + {region.mem};
    }

    method AddToGlobalHeap(region: Region)
      modifies this`list
      ensures list == [region] + old(list)
    {
      list := [region] + list;
    }

    /** A region of the thread's own with room for the request: its present one, or else a
        new one, the old one going to the global list. */
    method RegionFor(tid: nat, size: nat) returns (region: Region)
      requires Valid() && tid in locals && size <= MAX_REGION_ALLOCATION
      modifies this
      ensures Valid() && fresh(All - old(All)) && fresh(Mems - old(Mems)) && old(All) <= All
      ensures locals == old(locals)[tid := region] && marks == old(marks) && region.HaveRoomFor(size)
      ensures old(locals[tid].used) + size + 16 <= 0x10_0000 ==> region == old(locals[tid]) && list == old(list)
      ensures old(locals[tid].used) + size + 16 > 0x10_0000 ==>
        && fresh(region) && region.recs == [] && region.used == 0 && list == [old(locals[tid])] + old(list)
    {
      hide Tiled, Owned;
      LocalIsOwned(locals, list, All, tid);
      region := locals[tid];
      if !region.HaveRoomFor(size) {
        var oldRegion := region;
        region := new Region();
        LocalReplaced(locals, list, All, tid, region);
        locals := locals[tid := region];
        All, Mems := All + {region}, Mems + {region.mem};
        AddToGlobalHeap(oldRegion);
      }
    }

    /** The record goes behind the others in the thread's region, with the thread's mark;
        every other record stays as it was. */
    method ThreadLocalAlloc(tid: nat, size: nat, kind: Kind)
      returns (region: Region, data: nat, inside: bool)
      requires Valid() && tid in locals && size <= MAX_REGION_ALLOCATION
      modifies this, All, Mems
      ensures Valid() && fresh(All - old(All)) && fresh(Mems - old(Mems)) && old(All) <= All
      ensures locals == old(locals)[tid := region] && marks == old(marks) && data >= 9
      ensures inside == (data + 16 < 0x10_0000) && (HasMark(Rec(0, size, kind)) ==> inside)
      ensures old(locals[tid].used) + size + 16 <= 0x10_0000 ==>
        && region == old(locals[tid]) && list == old(list)
        && Appended(old(locals[tid].View()), region.View(), Rec(data - 9, size, kind), marks[tid])
      ensures old(locals[tid].used) + size + 16 > 0x10_0000 ==>
        && fresh(region) && list == [old(locals[tid])] + old(list)
        && Appended(Image([], []), region.View(), Rec(data - 9, size, kind), marks[tid])
      ensures region.used == (if region == old(locals[tid]) then old(locals[tid].used) else 0) + size + 16
      ensures forall q :: q in old(All) && q != region ==> q.View() == old(q.View()) && q.used == old(q.used)
    {
      hide Tiled, HeaderAt, Owned, Appended, AllocSizeFor, HasMark;
      region := RegionFor(tid, size);
      LocalIsOwned(locals, list, All, tid);
      ghost var before := region.View();
      data, inside := region.Allocate(size, kind, marks[tid]);
      if before.recs == [] {
        AppendedToNone(before, region.View(), Rec(data - DATA_OFFSET, size, kind), marks[tid]);
      }
    }

    /** Large requests abort; the others get a record, and any that is large enough to hold a
        mark gets its mark too. */
    method Alloc(tid: nat, size: nat, kind: Kind) returns (r: Allocation)
      requires Valid() && tid in locals
      modifies this, All, Mems
      ensures Valid() && r.Aborted? == (size > 0x1000)
      ensures !r.Aborted? ==>
        && tid in locals && locals[tid].recs != []
        && var rec := locals[tid].recs[|locals[tid].recs| - 1];
        && rec.size == size && rec.kind == kind
        && r.WritesOutside? == (rec.at + 9 + 16 >= 0x10_0000)
        && (HasMark(Rec(0, size, kind)) ==> r.Allocated?)
      ensures r.Aborted? ==> unchanged(this) && unchanged(old(All)) && unchanged(old(Mems))
      ensures r.Allocated? ==>
        && tid in locals && locals[tid] == r.region && r.data >= 9 && marks == old(marks)
        && Appended(if old(locals[tid].used) + size + 16 <= 0x10_0000 then old(locals[tid].View()) else Image([], []), r.region.View(),
                    Rec(r.data - 9, size, kind), marks[tid])
    {
      hide Tiled, Owned, MarkOf, HasMark, Apart;
      if size > MAX_REGION_ALLOCATION {
        return Aborted;
      }
      var region, data, inside := ThreadLocalAlloc(tid, size, kind);
      r := if inside then Allocated(region, data) else WritesOutside;
    }

    /** A mutator writes one byte of a record's data. */
    method WriteData(region: Region, data: nat, offset: nat, b: byte, ghost k: nat)
      requires Valid() && region in All && k < |region.recs| && data + offset < REGION_SIZE
      requires data == region.recs[k].at + DATA_OFFSET && InData(region.recs[k], data + offset)
      modifies region.mem
      ensures Valid() && region.mem[..] == old(region.mem[..])[data + offset := b]
      ensures forall j :: 0 <= j < |region.recs| && j != k && HasMark(region.recs[j]) ==>
        MarkOf(region.mem[..], region.recs[j]) == old(MarkOf(region.mem[..], region.recs[j]))
    {
      hide Tiled, Owned, MarkOf;
      region.WriteByte(data + offset, b, k);
    }

    // ----- the sweep

    ghost function Images(): (s: seq<Image>)
      reads this, list, set r | r in list :: r.mem
    {
      ImagesOf(list)
    }

    method StealRegion() returns (r: Region?)
      modifies this`list
      ensures old(list) == [] ==> r == null && list == []
      ensures old(list) != [] ==> r == old(list)[0] && list == old(list)[1..]
    {
      if list == [] {
        return null;
      }
      r, list := list[0], list[1..];
    }

    /** Step over a region's bytes, counting its objects by their marks. */
    method CollectRegion(region: Region, live: bool) returns (liveCount: nat, garbageCount: nat)
      requires region.Valid()
      ensures liveCount == CountMarked(region.mem[..], region.recs, live)
      ensures liveCount + garbageCount == CountObjects(region.recs)
    {
      var addr := 0;
      ghost var i := 0;
      liveCount, garbageCount := 0, 0;
      while addr < region.used
        invariant i <= |region.recs| && Tiled(region.mem[..], region.recs[i..], addr, region.used)
        invariant liveCount + CountMarked(region.mem[..], region.recs[i..], live) == CountMarked(region.mem[..], region.recs, live)
        invariant liveCount + garbageCount + CountObjects(region.recs[i..]) == CountObjects(region.recs)
        decreases region.used - addr
      {
        var rec := HeaderAt(region.mem[..], addr);
        assert region.recs[i..][0] == rec && region.recs[i..][1..] == region.recs[i + 1..];
        if rec.kind == KindObj {
          if MarkOf(region.mem[..], rec) == live {
            liveCount := liveCount + 1;
          } else {
            garbageCount := garbageCount + 1;
          }
        }
        addr := addr + AllocSizeFor(rec.size);
        TiledReaches(region.mem[..], region.recs[i + 1..], addr, region.used);
        i := i + 1;
      }
      assert region.recs[i..] == [];
    }

    /** Take one region off the list, account for its objects and give it up. */
    method SweepRegion(live: bool) returns (liveCount: nat, garbageCount: nat)
      requires Valid() && list != []
      modifies this`list, this`All, list[0]
      ensures Valid() && list == old(list)[1..] && All == old(All) - {old(list)[0]} && Images() == old(Images())[1..]
      ensures liveCount == old(CountMarked(list[0].mem[..], list[0].recs, live))
      ensures liveCount + garbageCount == old(CountObjects(list[0].recs))
    {
      hide Tiled, CountMarked, CountObjects, Owned;
      HeadTaken(locals, list, All);
      TailDiffers(locals, list, All);
      var region := StealRegion();
      liveCount, garbageCount := CollectRegion(region, live);
      region.Reset();
      All := All - {region};
      assert forall r <- All :: r.Valid();
    }

    /** The sweep empties the list, leaves the threads' own regions alone and accounts for
        every object on the list. */
    method CollectUnmarked(live: bool) returns (liveCount: nat, garbageCount: nat)
      requires Valid()
      modifies this`list, this`All, list
      ensures Valid() && list == [] && All == locals.Values
      ensures liveCount == SumMarked(old(Images()), live)
      ensures liveCount + garbageCount == SumObjects(old(Images()))
    {
      hide Tiled, CountMarked, CountObjects, Apart;
      liveCount, garbageCount := 0, 0;
      while list != []
        invariant Valid() && |list| <= |old(list)| && list == old(list)[|old(list)| - |list|..]
        invariant liveCount + SumMarked(Images(), live) == SumMarked(old(Images()), live)
        invariant liveCount + garbageCount + SumObjects(Images()) == SumObjects(old(Images()))
        decreases |list|
      {
        var l, g := SweepRegion(live);
        liveCount, garbageCount := liveCount + l, garbageCount + g;
      }
    }
  }

  /** Each region is one thread's own or is on the list, and not twice. */
  ghost predicate Owned(locals: map<nat, Region>, list: seq<Region>, all: set<Region>) {
    && all == locals.Values + (set r | r in list)
    && (forall t <- locals :: locals[t] !in list)
    && (forall s <- locals, t <- locals :: locals[s] == locals[t] ==> s == t)
    && (forall i, j :: 0 <= i < j < |list| ==> list[i] != list[j])
  }

  /** No two regions share memory. */
  ghost predicate Apart(all: set<Region>, mems: set<array<byte>>) {
    && (forall r <- all :: r.mem in mems)
    && (forall r <- all, q <- all :: r.mem == q.mem ==> r == q)
  }

  lemma LocalIsOwned(locals: map<nat, Region>, list: seq<Region>, all: set<Region>, tid: nat)
    requires Owned(locals, list, all) && tid in locals
    ensures locals[tid] in all
  {
  }

  lemma LocalAdded(locals: map<nat, Region>, list: seq<Region>, all: set<Region>, tid: nat, r: Region)
    requires Owned(locals, list, all) && tid !in locals && r !in all
    ensures Owned(locals[tid := r], list, all + {r})
  {
    NewValue(locals, tid, r);
    assert forall t <- locals :: locals[t] in locals.Values;
  }

  lemma LocalReplaced(locals: map<nat, Region>, list: seq<Region>, all: set<Region>, tid: nat, r: Region)
    requires Owned(locals, list, all) && tid in locals && r !in all
    ensures Owned(locals[tid := r], [locals[tid]] + list, all + {r})
  {
    var list' := [locals[tid]] + list;
    NewValue(locals, tid, r);
    assert forall t <- locals :: locals[t] in locals.Values;
    assert forall x :: x in list' <==> x == locals[tid] || x in list;
    assert locals[tid := r].Values + (set x | x in list') == all + {r};
    forall i, j | 0 <= i < j < |list'| ensures list'[i] != list'[j] {
      assert list'[j] == list[j - 1] && list'[j] in list;
    }
  }

  lemma TailDiffers(locals: map<nat, Region>, list: seq<Region>, all: set<Region>)
    requires Owned(locals, list, all) && list != []
    ensures forall r <- list[1..] :: r != list[0] && r in all
  {
  }

  lemma HeadTaken(locals: map<nat, Region>, list: seq<Region>, all: set<Region>)
    requires Owned(locals, list, all) && list != []
    ensures list[0] in all && Owned(locals, list[1..], all - {list[0]})
  {
    var rest := list[1..];
    assert forall x :: x in list <==> x == list[0] || x in rest;
    assert forall t <- locals :: locals[t] in locals.Values && locals[t] != list[0];
    assert list[0] !in locals.Values && list[0] !in rest;
    assert locals.Values + (set x | x in rest) == all - {list[0]};
  }

  ghost function ImagesOf(regions: seq<Region>): (s: seq<Image>)
    reads regions, set r | r in regions :: r.mem
    ensures |s| == |regions| && forall i :: 0 <= i < |s| ==> s[i] == regions[i].View()
  {
    if regions == [] then [] else [regions[0].View()] + ImagesOf(regions[1..])
  }

  lemma NewValue(m: map<nat, Region>, k: nat, r: Region)
    ensures forall v :: v in m[k := r].Values ==> v == r || v in m.Values
    ensures r in m[k := r].Values
    ensures forall v :: v in m.Values && !(k in m && m[k] == v) ==> v in m[k := r].Values
  {
    var m' := m[k := r];
    assert m'[k] == r;
    forall v | v in m'.Values ensures v == r || v in m.Values {
      var x :| x in m' && m'[x] == v;
    }
    forall v | v in m.Values && !(k in m && m[k] == v) ensures v in m'.Values {
      var x :| x in m && m[x] == v;
      assert m'[x] == v;
    }
  }
}
