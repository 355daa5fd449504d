/** Regions as the allocator and the sweep use them, in place. */
module RegionHeap {
  import opened Bytes
  import opened Regions

  /** A region's bytes, and the records laid down in it. */
  datatype Image = Image(mem: seq<byte>, recs: seq<Rec>)

  class Region {
    const mem: array<byte>
    var used: nat       // offset of the first free byte
    ghost var recs: seq<Rec>

    /** A fresh region: zeroed memory, nothing used. */
    constructor ()
      ensures Valid() && recs == [] && used == 0 && fresh(mem)
    {
      mem := new byte[REGION_SIZE](_ => 0);
      used, recs := 0, [];
    }

    ghost predicate Valid()
      reads this, mem
    {
      mem.Length == REGION_SIZE && Tiled(mem[..], recs, 0, used) && used <= REGION_SIZE
    }

    ghost function View(): Image
      reads this, mem
    {
      Image(mem[..], recs)
    }

    predicate HaveRoomFor(size: nat)
      reads this`used
    {
      used + AllocSizeFor(size) <= REGION_SIZE
    }

    /** Lay down a record's header; the result is the offset of its data. */
    method MakeRoomFor(size: nat, kind: Kind) returns (data: nat)
      requires Valid() && HaveRoomFor(size)
      modifies this, mem
      ensures Valid() && recs == old(recs) + [Rec(old(used), size, kind)]
      ensures used == old(used) + size + 16 && data == old(used) + 9
      ensures forall k :: 0 <= k < REGION_SIZE && !(old(used) <= k <= old(used) + KIND_OFFSET) ==> mem[k] == old(mem[k])
    {
      var tmp := used;
      WriteHeader(tmp, size, kind);
      ghost var r := Rec(tmp, size, kind);
      assert HeaderAt(mem[..], tmp) == r;
      HeaderKeepsTiling(old(mem[..]), mem[..], recs, tmp);
      TilingGrows(mem[..], recs, 0, tmp, r);
      used := tmp + AllocSizeFor(size);
      recs := recs + [r];
      data := tmp + DATA_OFFSET;
    }

    method WriteHeader(p: nat, size: nat, kind: Kind)
      requires mem.Length == REGION_SIZE && p + HEADER_SIZE + size <= REGION_SIZE
      modifies mem
      ensures HeaderAt(mem[..], p) == Rec(p, size, kind)
      ensures forall k :: 0 <= k < REGION_SIZE && !(p <= k <= p + KIND_OFFSET) ==> mem[k] == old(mem[k])
    {
      var i := 0;
      while i < 8
        invariant i <= 8
        invariant forall j :: 0 <= j < i ==> mem[p + j] == ByteOf(size, j)
        invariant forall k :: 0 <= k < REGION_SIZE && !(p <= k < p + 8) ==> mem[k] == old(mem[k])
      {
        mem[p + i] := ByteOf(size, i);
        i := i + 1;
      }
      // the kind is the low bit of its byte; the other bits keep what they held
      var b := mem[p + KIND_OFFSET];
      mem[p + KIND_OFFSET] := b - b % 2 + (if kind == KindObj then 0 else 1);
      SizeFits(size);
      ReadBack(mem[..], p, 8, size);
    }

    /** Write one byte of a record's data, or of the free space behind all records. */
    method WriteByte(p: nat, b: byte, ghost k: nat)
      requires Valid() && k < |recs| && (InData(recs[k], p) || used <= p) && p < REGION_SIZE
      modifies mem
      ensures Valid() && mem[..] == old(mem[..])[p := b]
      ensures forall j :: 0 <= j < |recs| && j != k && HasMark(recs[j]) ==> MarkOf(mem[..], recs[j]) == MarkOf(old(mem[..]), recs[j])
    {
      hide Tiled, HeaderAt, Walk;
      ghost var before := mem[..];
      mem[p] := b;
      assert mem[..] == before[p := b];
      if InData(recs[k], p) {
        DataWriteKeepsTiling(before, recs, used, k, p, b);
      } else {
        FreeWriteKeepsTiling(before, recs, used, p, b);
      }
      forall j | 0 <= j < |recs| && j != k && HasMark(recs[j]) ensures MarkOf(mem[..], recs[j]) == MarkOf(before, recs[j]) {
        assert InData(recs[j], recs[j].at + DATA_OFFSET + MARK_OFFSET);
      }
    }

    /** Write the mark of the object whose data starts at the given offset. For a record too
        small to hold it, the write hits the free space behind the last record. */
    method SetMark(data: nat, mark: bool, ghost k: nat)
      requires Valid() && k < |recs| && data == recs[k].at + DATA_OFFSET && data + MARK_OFFSET < REGION_SIZE
      requires HasMark(recs[k]) || k == |recs| - 1
      modifies mem
      ensures Valid() && MarkOf(mem[..], recs[k]) == mark
      ensures forall j :: 0 <= j < |recs| && j != k && HasMark(recs[j]) ==> MarkOf(mem[..], recs[j]) == MarkOf(old(mem[..]), recs[j])
    {
      hide Tiled, HeaderAt, Walk;
      if !HasMark(recs[k]) {
        LastEnds(mem[..], recs, 0, used);
      }
      var p := data + MARK_OFFSET;
      var b := mem[p];
      WriteByte(p, b - b % 2 + (if mark then 1 else 0), k);
    }

    /** Lay down a marked record behind the others; the second result says whether its mark lies
        inside the region, as it does unless a tiny record ends at the region's end. */
    method Allocate(size: nat, kind: Kind, mark: bool) returns (data: nat, inside: bool)
      requires Valid() && HaveRoomFor(size)
      modifies this, mem
      ensures Valid() && used == old(used) + size + 16 && data == old(used) + 9
      ensures inside == (data + 16 < 0x10_0000) && (HasMark(Rec(0, size, kind)) ==> inside)
      ensures Appended(old(View()), View(), Rec(data - DATA_OFFSET, size, kind), mark)
    {
      hide Tiled, HeaderAt;
      ghost var before, was := mem[..], recs;
      forall k | 0 <= k < |was| && HasMark(was[k]) ensures was[k].at + DATA_OFFSET + MARK_OFFSET < used {
        RecordsApart(mem[..], recs, 0, used, k, k);
      }
      data := MakeRoomFor(size, kind);
      ghost var middle := mem[..];
      inside := data + MARK_OFFSET < REGION_SIZE;
      if inside {
        SetMark(data, mark, |recs| - 1);
      }
      forall k | 0 <= k < |was| && HasMark(was[k]) ensures MarkOf(mem[..], was[k]) == MarkOf(before, was[k]) {
        assert recs[k] == was[k];
        assert MarkOf(mem[..], recs[k]) == MarkOf(middle, recs[k]);
      }
    }

    /** Forget every record. */
    method Reset()
      requires Valid()
      modifies this
      ensures Valid() && recs == [] && used == 0
    {
      used, recs := 0, [];
    }
  }

  /** The records before, then this one with this mark, if the region reaches that far; the
      earlier ones keep their marks. */
  ghost predicate Appended(before: Image, after: Image, rec: Rec, mark: bool) {
    && after.recs == before.recs + [rec]
    && (rec.at + DATA_OFFSET + MARK_OFFSET < REGION_SIZE ==> MarkOf(after.mem, rec) == mark)
    && forall k :: 0 <= k < |before.recs| && HasMark(before.recs[k]) ==>
      MarkOf(after.mem, before.recs[k]) == MarkOf(before.mem, before.recs[k])
  }

  lemma AppendedToNone(before: Image, after: Image, rec: Rec, mark: bool)
    requires Appended(before, after, rec, mark) && before.recs == []
    ensures Appended(Image([], []), after, rec, mark)
  {
  }

  /** The record is big enough to hold an object's mark. */
  predicate HasMark(r: Rec) {
    InData(r, r.at + DATA_OFFSET + MARK_OFFSET)
  }

  function MarkOf(m: seq<byte>, r: Rec): bool {
    var p := r.at + DATA_OFFSET + MARK_OFFSET;
    p < |m| && m[p] % 2 == 1
  }

  /** Where things are, in numbers: a header's size in its first eight bytes and its kind in the low
      bit of the ninth, and an object's mark in the low bit of the byte 25 behind its header. */
  lemma Layout(m: seq<byte>, p: nat)
    requires p + 26 <= |m|
    ensures HeaderAt(m, p).size == ReadLE(m, p, 8) && HeaderAt(m, p).at == p
    ensures HeaderAt(m, p).kind == KindObj <==> m[p + 8] % 2 == 0
    ensures MarkOf(m, HeaderAt(m, p)) <==> m[p + 25] % 2 == 1
    ensures AllocSizeFor(HeaderAt(m, p).size) == ReadLE(m, p, 8) + 16
    ensures HasMark(HeaderAt(m, p)) <==> ReadLE(m, p, 8) >= 10
  {
    hide ReadLE;
  }

  lemma {:induction false} LastEnds(m: seq<byte>, recs: seq<Rec>, p: nat, end: nat)
    requires Tiled(m, recs, p, end) && recs != []
    ensures var r := recs[|recs| - 1]; r.at + AllocSizeFor(r.size) == end
    decreases |recs|
  {
    if |recs| > 1 {
      LastEnds(m, recs[1..], p + AllocSizeFor(recs[0].size), end);
    } else {
      assert recs[1..] == [];
    }
  }

  lemma FreeWriteKeepsTiling(m: seq<byte>, recs: seq<Rec>, end: nat, p: nat, b: byte)
    requires Tiled(m, recs, 0, end) && end <= p < |m|
    ensures Tiled(m[p := b], recs, 0, end)
    ensures forall j, x :: 0 <= j < |recs| && InData(recs[j], x) ==> x != p
  {
    forall j | 0 <= j < |recs| ensures recs[j].at + AllocSizeFor(recs[j].size) <= end {
      RecordsApart(m, recs, 0, end, j, j);
    }
    TilingKept(m, m[p := b], recs, 0, end);
  }

  lemma SizeFits(size: nat)
    requires size <= REGION_SIZE
    ensures size < Pow256(8)
  {
    assert Pow256(3) == 0x1000000;
    assert Pow256(8) == 256 * Pow256(7) && Pow256(7) == 256 * Pow256(6) && Pow256(6) == 256 * Pow256(5)
        && Pow256(5) == 256 * Pow256(4) && Pow256(4) == 256 * Pow256(3);
  }

  lemma HeaderKeepsTiling(m: seq<byte>, m': seq<byte>, recs: seq<Rec>, end: nat)
    requires Tiled(m, recs, 0, end) && |m'| == |m|
    requires forall k :: 0 <= k < |m| && !(end <= k <= end + KIND_OFFSET) ==> m'[k] == m[k]
    ensures Tiled(m', recs, 0, end)
  {
    forall i | 0 <= i < |recs| ensures recs[i].at + AllocSizeFor(recs[i].size) <= end {
      RecordsApart(m, recs, 0, end, i, i);
    }
    TilingKept(m, m', recs, 0, end);
  }
}
