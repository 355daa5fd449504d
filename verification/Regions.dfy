/** Heap regions: a bump allocator over raw bytes, whose records are found again later by
    stepping over the sizes stored in their headers. */
module Regions {
  import opened Bytes

  const REGION_SIZE: nat := 0x100000
  const MAX_REGION_ALLOCATION: nat := 0x1000
  const HEADER_SIZE: nat := 16  // an 8-byte size, a 1-bit kind and padding
  const KIND_OFFSET: nat := 8
  const DATA_OFFSET: nat := 9   // a flexible array of char starts right behind the bit-field
  const MARK_OFFSET: nat := 16  // of an object's mark bit, in its data

  datatype Kind = KindObj | KindAttr

  /** A record: where its header is, the size that was requested, and its kind. */
  datatype Rec = Rec(at: nat, size: nat, kind: Kind)

  function AllocSizeFor(size: nat): nat {
    size + HEADER_SIZE
  }

  // ----- headers and walks

  function HeaderAt(m: seq<byte>, p: nat): Rec
    requires p + HEADER_SIZE <= |m|
  {
    Rec(p, ReadLE(m, p, 8), if m[p + KIND_OFFSET] % 2 == 0 then KindObj else KindAttr)
  }

  /** The records met by stepping from p by the stored sizes until reaching end. */
  function Walk(m: seq<byte>, p: nat, end: nat): seq<Rec>
    decreases end - p
  {
    if p >= end || p + HEADER_SIZE > |m| then []
    else
      var r := HeaderAt(m, p);
      [r] + Walk(m, p + AllocSizeFor(r.size), end)
  }

  /** The records lie end to end from p to end, each with its header in memory. */
  ghost predicate Tiled(m: seq<byte>, recs: seq<Rec>, p: nat, end: nat)
    decreases |recs|
  {
    if recs == [] then p == end
    else
      && p + AllocSizeFor(recs[0].size) <= end <= |m|
      && HeaderAt(m, p) == recs[0]
      && Tiled(m, recs[1..], p + AllocSizeFor(recs[0].size), end)
  }

  /** Walking a tiled region visits each allocated record once, in order, and stops at the end. */
  lemma {:induction false} WalkVisitsEach(m: seq<byte>, recs: seq<Rec>, p: nat, end: nat)
    requires Tiled(m, recs, p, end)
    ensures Walk(m, p, end) == recs
    decreases |recs|
  {
    if recs != [] {
      WalkVisitsEach(m, recs[1..], p + AllocSizeFor(recs[0].size), end);
    }
  }

  /** Where each record lies: in order, without overlap, before the end. */
  lemma {:induction false} RecordsApart(m: seq<byte>, recs: seq<Rec>, p: nat, end: nat, i: nat, j: nat)
    requires Tiled(m, recs, p, end) && i < |recs|
    ensures p <= recs[i].at && recs[i].at + AllocSizeFor(recs[i].size) <= end
    ensures i < j < |recs| ==> recs[i].at + AllocSizeFor(recs[i].size) <= recs[j].at
    decreases |recs|
  {
    var q := p + AllocSizeFor(recs[0].size);
    if i > 0 {
      RecordsApart(m, recs[1..], q, end, i - 1, if j > 0 then j - 1 else 0);
    } else {
      TiledReaches(m, recs[1..], q, end);
      if 0 < j < |recs| {
        RecordsApart(m, recs[1..], q, end, j - 1, 0);
      }
    }
  }

  lemma {:induction false} TiledReaches(m: seq<byte>, recs: seq<Rec>, p: nat, end: nat)
    requires Tiled(m, recs, p, end)
    ensures p <= end
    decreases |recs|
  {
    if recs != [] {
      TiledReaches(m, recs[1..], p + AllocSizeFor(recs[0].size), end);
    }
  }

  /** The bytes that say what a record is. */
  predicate InHeader(r: Rec, k: nat) {
    r.at <= k <= r.at + KIND_OFFSET
  }

  predicate InData(r: Rec, k: nat) {
    r.at + DATA_OFFSET <= k < r.at + AllocSizeFor(r.size)
  }

  lemma HeaderSame(m: seq<byte>, m': seq<byte>, p: nat)
    requires |m'| == |m| && p + HEADER_SIZE <= |m|
    requires forall k :: p <= k <= p + KIND_OFFSET ==> m'[k] == m[k]
    ensures HeaderAt(m', p) == HeaderAt(m, p)
  {
    hide ReadLE;
    assert m[p..p + 8] == m'[p..p + 8];
    ReadSame(m, m', p, 8);
  }

  /** Memory may change anywhere but in headers. */
  lemma {:induction false} TilingKept(m: seq<byte>, m': seq<byte>, recs: seq<Rec>, p: nat, end: nat)
    requires Tiled(m, recs, p, end) && |m'| == |m|
    requires forall i, k :: 0 <= i < |recs| && 0 <= k < |m| && InHeader(recs[i], k) ==> m'[k] == m[k]
    ensures Tiled(m', recs, p, end)
    decreases |recs|
  {
    hide ReadLE;
    if recs != [] {
      var r := recs[0];
      assert forall k :: p <= k <= p + KIND_OFFSET ==> InHeader(r, k);
      HeaderSame(m, m', p);
      forall i, k | 0 <= i < |recs[1..]| && 0 <= k < |m| && InHeader(recs[1..][i], k) ensures m'[k] == m[k] {
        assert recs[1..][i] == recs[i + 1];
      }
      TilingKept(m, m', recs[1..], p + AllocSizeFor(r.size), end);
    }
  }

  /** A write into the data of one record leaves every record as it was. */
  lemma DataWriteKeepsTiling(m: seq<byte>, recs: seq<Rec>, end: nat, i: nat, k: nat, b: byte)
    requires Tiled(m, recs, 0, end) && i < |recs| && InData(recs[i], k) && k < |m|
    ensures Tiled(m[k := b], recs, 0, end) && Walk(m[k := b], 0, end) == Walk(m, 0, end)
    ensures forall j, x :: 0 <= j < |recs| && j != i && InData(recs[j], x) ==> x != k
  {
    forall j | 0 <= j < |recs| ensures !InHeader(recs[j], k) && (j != i ==> !InData(recs[j], k)) {
      RecordsApart(m, recs, 0, end, i, j);
      RecordsApart(m, recs, 0, end, j, i);
    }
    TilingKept(m, m[k := b], recs, 0, end);
    WalkVisitsEach(m, recs, 0, end);
    WalkVisitsEach(m[k := b], recs, 0, end);
  }

  /** A record laid down at the end extends the tiling. */
  lemma {:induction false} TilingGrows(m: seq<byte>, recs: seq<Rec>, p: nat, end: nat, r: Rec)
    requires Tiled(m, recs, p, end) && r.at == end && end + AllocSizeFor(r.size) <= |m| && HeaderAt(m, end) == r
    ensures Tiled(m, recs + [r], p, end + AllocSizeFor(r.size))
    decreases |recs|
  {
    var end' := end + AllocSizeFor(r.size);
    if recs == [] {
      assert ([] + [r])[1..] == [];
      assert Tiled(m, [], end', end');
      assert recs + [r] == [r];
    } else {
      TiledReaches(m, recs[1..], p + AllocSizeFor(recs[0].size), end);
      TilingGrows(m, recs[1..], p + AllocSizeFor(recs[0].size), end, r);
      assert (recs + [r])[1..] == recs[1..] + [r];
    }
  }
}
