/** Where the printer puts each safe point, where the reader looks for it, and when these are
    the same place. */
module StackMapProof {
  import opened Bytes
  import opened StackMap
  import opened Words

  function Up8(n: nat): nat {
    n + Padding(n)
  }

  /** Where the k-th point is, counted from the map's symbol. */
  function PointOffset(points: seq<Point>, k: nat): (r: nat)
    requires k <= |points|
    ensures r % 8 == 0
  {
    if k == 0 then POINTS_OFFSET else Up8(PointOffset(points, k - 1) + POINT_SIZE + 4 * |points[k - 1].live|)
  }

  predicate Odd(pt: Point) {
    |pt.live| % 2 == 1
  }

  /** The reader's stride over a point is the printer's exactly when its live count is odd. */
  lemma StrideAgrees(pos: nat, pt: Point)
    requires pos % 8 == 0
    ensures pos + Stride(|pt.live|) == Up8(pos + POINT_SIZE + 4 * |pt.live|) <==> Odd(pt)
    ensures !Odd(pt) ==> pos + Stride(|pt.live|) == Up8(pos + POINT_SIZE + 4 * |pt.live|) + 4
  {
  }

  // ----- where things are printed

  lemma {:induction false} PrefixOfPoints(out: seq<byte>, frameSize: int, points: seq<Point>, k: nat)
    requires k <= |points|
    ensures WithPoints(out, frameSize, points[..k]) <= WithPoints(out, frameSize, points)
    decreases |points|
  {
    hide PointBytes;
    if k < |points| {
      var init := points[..|points| - 1];
      assert init[..k] == points[..k];
      PrefixOfPoints(out, frameSize, init, k);
    } else {
      assert points[..k] == points;
    }
  }

  /** The start of a printed map, up to its first point. */
  function MapHead(before: seq<byte>, f: Function): seq<byte> {
    Aligned(before) + Int32(|f.points|)
  }

  lemma {:induction false} PointPlace(before: seq<byte>, f: Function, k: nat)
    requires k <= |f.points|
    ensures |Aligned(WithPoints(MapHead(before, f), f.frameSize, f.points[..k]))| == |Aligned(before)| + PointOffset(f.points, k)
    ensures |Aligned(before)| % 8 == 0
    decreases k
  {
    hide PointBytes, Aligned, Padding, Int32, Up8, MapHead;
    AlignedLength(before);
    if k > 0 {
      PointPlace(before, f, k - 1);
      assert f.points[..k][..k - 1] == f.points[..k - 1];
      var part := WithPoints(MapHead(before, f), f.frameSize, f.points[..k]);
      AlignedLength(part);
      Up8Adds(|Aligned(before)|, PointOffset(f.points, k - 1) + POINT_SIZE + 4 * |f.points[k - 1].live|);
    } else {
      HeadLength(before, f);
    }
  }

  lemma AlignedLength(out: seq<byte>)
    ensures |Aligned(out)| == Up8(|out|) && Up8(|out|) % 8 == 0
  {
  }

  lemma Up8Adds(base: nat, n: nat)
    requires base % 8 == 0
    ensures Up8(base + n) == base + Up8(n)
  {
  }

  lemma HeadLength(before: seq<byte>, f: Function)
    ensures |Aligned(before)| % 8 == 0 && |Aligned(MapHead(before, f))| == |Aligned(before)| + 8
  {
    AlignedLength(before);
    AlignedLength(MapHead(before, f));
    FourBytes(|f.points|);
  }

  /** A point's bytes are where they should be, whatever is printed later. */
  lemma PointPrinted(before: seq<byte>, f: Function, k: nat, mem: seq<byte>)
    requires k < |f.points| && WithMap(before, f) <= mem
    ensures var at := |Aligned(before)| + PointOffset(f.points, k);
      var bytes := PointBytes(f.frameSize, f.points[k]);
      at + |bytes| <= |mem| && mem[at..at + |bytes|] == bytes
  {
    hide PointBytes, PointOffset;
    var head := MapHead(before, f);
    PointPlace(before, f, k);
    PrefixOfPoints(head, f.frameSize, f.points, k + 1);
    var part := WithPoints(head, f.frameSize, f.points[..k + 1]);
    assert f.points[..k + 1][..k] == f.points[..k];
    assert part == Aligned(WithPoints(head, f.frameSize, f.points[..k])) + PointBytes(f.frameSize, f.points[k]);
    assert part <= mem;
    var at := |Aligned(before)| + PointOffset(f.points, k);
    assert mem[at..|part|] == part[at..];
  }

  lemma CountPrinted(before: seq<byte>, f: Function, mem: seq<byte>)
    requires WithMap(before, f) <= mem
    ensures var at := |Aligned(before)|; at + 4 <= |mem| && mem[at..at + 4] == Int32(|f.points|)
  {
    var head := MapHead(before, f);
    PrefixOfPoints(head, f.frameSize, f.points, 0);
    assert f.points[..0] == [];
    assert head <= mem;
    var at := |Aligned(before)|;
    assert mem[at..at + 4] == head[at..];
  }

  // ----- reading them

  lemma ReadsInt32(mem: seq<byte>, p: nat, x: int)
    requires IsInt32(x) && p + 4 <= |mem| && mem[p..p + 4] == Int32(x)
    ensures ReadInt32(mem, p) == x
  {
    hide ReadLE, LE;
    ReadsLE(mem, p, x % TWO_32, 4);
    Widths();
  }

  lemma {:induction false} IntsAt(xs: seq<int>, i: nat)
    requires i < |xs|
    ensures Ints(xs)[4 * i..4 * i + 4] == Int32(xs[i])
    decreases |xs|
  {
    hide Int32;
    var init := xs[..|xs| - 1];
    FourBytes(xs[|xs| - 1]);
    assert Ints(xs) == Ints(init) + Int32(xs[|xs| - 1]);
    if i < |init| {
      IntsAt(init, i);
      assert Ints(xs)[4 * i..4 * i + 4] == Ints(init)[4 * i..4 * i + 4];
    }
  }

  lemma FourBytes(x: int)
    ensures |Int32(x)| == 4
  {
  }

  lemma SliceOf(mem: seq<byte>, at: nat, bytes: seq<byte>, i: nat, n: nat)
    requires at + |bytes| <= |mem| && mem[at..at + |bytes|] == bytes && i + n <= |bytes|
    ensures mem[at + i..at + i + n] == bytes[i..i + n]
  {
    var a, b := mem[at + i..at + i + n], bytes[i..i + n];
    forall k | 0 <= k < n ensures a[k] == b[k] {
      assert bytes[i + k] == mem[at..at + |bytes|][i + k];
    }
  }

  /** The fields of a point, as the reader sees them. */
  ghost predicate Reads(mem: seq<byte>, at: nat, frameSize: int, pt: Point) {
    && HasPoint(mem, at) && AddrAt(mem, at) == pt.addr && CountAt(mem, at) == |pt.live|
    && at + POINT_SIZE + 4 * |pt.live| <= |mem|
    && ReadInt32(mem, at + 8) == frameSize
    && OffsetsAt(mem, at) == pt.live
  }

  lemma PointReads(mem: seq<byte>, at: nat, frameSize: int, pt: Point)
    requires PointOk(pt) && IsInt32(frameSize)
    requires var bytes := PointBytes(frameSize, pt); at + |bytes| <= |mem| && mem[at..at + |bytes|] == bytes
    ensures Reads(mem, at, frameSize, pt)
  {
    hide LE, Int32, ReadLE, ReadInt32;
    var bytes := PointBytes(frameSize, pt);
    FourBytes(frameSize);
    FourBytes(|pt.live|);
    SliceOf(mem, at, bytes, 0, 8);
    SliceOf(mem, at, bytes, 8, 4);
    SliceOf(mem, at, bytes, 12, 4);
    assert bytes[0..8] == LE(pt.addr, 8) && bytes[8..12] == Int32(frameSize) && bytes[12..16] == Int32(|pt.live|);
    ReadsLE(mem, at, pt.addr, 8);
    Widths();
    ReadsInt32(mem, at + 8, frameSize);
    ReadsInt32(mem, at + 12, |pt.live|);
    forall i | 0 <= i < |pt.live| ensures ReadInt32(mem, at + POINT_SIZE + 4 * i) == pt.live[i] {
      IntsAt(pt.live, i);
      assert bytes[16..] == Ints(pt.live);
      assert bytes[16 + 4 * i..16 + 4 * i + 4] == bytes[16..][4 * i..4 * i + 4];
      SliceOf(mem, at, bytes, 16 + 4 * i, 4);
      ReadsInt32(mem, at + POINT_SIZE + 4 * i, pt.live[i]);
    }
  }

  lemma PrintedReads(before: seq<byte>, f: Function, k: nat, mem: seq<byte>)
    requires FunctionOk(f) && k < |f.points| && WithMap(before, f) <= mem
    ensures Reads(mem, |Aligned(before)| + PointOffset(f.points, k), f.frameSize, f.points[k])
  {
    hide PointBytes, PointOffset, Reads, WithMap, PointOk;
    PointPrinted(before, f, k, mem);
    PointReads(mem, |Aligned(before)| + PointOffset(f.points, k), f.frameSize, f.points[k]);
  }

  /** Where the reader looks for the j-th point, when none before it matches. */
  function Cursor(mem: seq<byte>, gcMap: nat, j: nat): int {
    if j == 0 then gcMap + POINTS_OFFSET
    else
      var at := Cursor(mem, gcMap, j - 1);
      if HasPoint(mem, at) then at + Stride(CountAt(mem, at)) else at
  }

  /** Where the reader goes from a point in its place. */
  lemma NextPlace(base: nat, points: seq<Point>, k: nat, mem: seq<byte>)
    requires k < |points|
    requires HasPoint(mem, base + PointOffset(points, k)) && CountAt(mem, base + PointOffset(points, k)) == |points[k].live|
    ensures var at := base + PointOffset(points, k);
      at + Stride(CountAt(mem, at)) == base + PointOffset(points, k + 1) + (if Odd(points[k]) then 0 else 4)
  {
    hide CountAt;
    StrideAgrees(PointOffset(points, k), points[k]);
  }

  lemma {:induction false} OddKeepsTrack(before: seq<byte>, f: Function, mem: seq<byte>, k: nat)
    requires FunctionOk(f) && WithMap(before, f) <= mem && k <= |f.points|
    requires forall j :: 0 <= j < k ==> Odd(f.points[j])
    ensures forall j :: 0 <= j <= k ==> Cursor(mem, |Aligned(before)|, j) == |Aligned(before)| + PointOffset(f.points, j)
    decreases k
  {
    hide WithMap, FunctionOk, AddrAt, CountAt, Aligned, Up8, Odd, PointOffset, Stride;
    FirstPlace(f.points);
    if k > 0 {
      OddKeepsTrack(before, f, mem, k - 1);
      PrintedReads(before, f, k - 1, mem);
      NextPlace(|Aligned(before)|, f.points, k - 1, mem);
    }
  }

  lemma FirstPlace(points: seq<Point>)
    ensures PointOffset(points, 0) == POINTS_OFFSET
  {
  }

  /** The reader comes to each point's own place, up to the k-th, exactly when every point
      before that has an odd live count. */
  lemma OnTrackIffOdd(before: seq<byte>, f: Function, mem: seq<byte>, k: nat)
    requires FunctionOk(f) && WithMap(before, f) <= mem && k <= |f.points|
    ensures (forall j :: 0 <= j <= k ==> Cursor(mem, |Aligned(before)|, j) == |Aligned(before)| + PointOffset(f.points, j))
       <==> (forall j :: 0 <= j < k ==> Odd(f.points[j]))
  {
    hide WithMap, FunctionOk, AddrAt, CountAt, Odd, Aligned, PointOffset, Stride;
    if forall j :: 0 <= j < k ==> Odd(f.points[j]) {
      OddKeepsTrack(before, f, mem, k);
    } else {
      var j := FirstEven(f.points, k);
      OddKeepsTrack(before, f, mem, j);
      PrintedReads(before, f, j, mem);
      NextPlace(|Aligned(before)|, f.points, j, mem);
      assert Cursor(mem, |Aligned(before)|, j + 1) == |Aligned(before)| + PointOffset(f.points, j + 1) + 4;
    }
  }

  lemma {:induction false} FirstEven(points: seq<Point>, k: nat) returns (j: nat)
    requires k <= |points| && !forall i :: 0 <= i < k ==> Odd(points[i])
    ensures j < k && !Odd(points[j]) && forall i :: 0 <= i < j ==> Odd(points[i])
  {
    hide Odd;
    j := 0;
    while Odd(points[j])
      invariant j < k && forall i :: 0 <= i < j ==> Odd(points[i])
      decreases k - j
    {
      if j == k - 1 {
        assert forall i :: 0 <= i < k ==> Odd(points[i]);
        assert false;
      }
      j := j + 1;
    }
  }

  /** Stepping over points that do not match. */
  lemma {:induction false} FindFrom(before: seq<byte>, f: Function, mem: seq<byte>, ip: nat, j: nat)
    requires FunctionOk(f) && WithMap(before, f) <= mem && j <= |f.points|
    requires forall i :: 0 <= i < j ==> f.points[i].addr != ip && (i < |f.points| - 1 ==> Odd(f.points[i]))
    ensures j < |f.points| ==>
      FindIn(mem, |Aligned(before)|, ip) == Find(mem, |Aligned(before)| + PointOffset(f.points, j), |f.points| - j, ip)
    ensures j == |f.points| ==> FindIn(mem, |Aligned(before)|, ip) == NoSafepoint
    decreases j
  {
    hide WithMap, AddrAt, CountAt, Odd, ReadInt32, PointOk, Aligned, PointOffset, Stride;
    var base := |Aligned(before)|;
    FirstPlace(f.points);
    if j == 0 {
      CountPrinted(before, f, mem);
      ReadsInt32(mem, base, |f.points|);
    } else {
      FindFrom(before, f, mem, ip, j - 1);
      PrintedReads(before, f, j - 1, mem);
      if j < |f.points| {
        NextPlace(base, f.points, j - 1, mem);
      }
    }
  }

  /** When the points before the first one with the sought address have odd live counts, that
      point is found, with its frame size and its whole list of offsets. */
  lemma StackMapRoundTrip(before: seq<byte>, f: Function, mem: seq<byte>, ip: nat, k: nat)
    requires FunctionOk(f) && WithMap(before, f) <= mem && k < |f.points| && f.points[k].addr == ip
    requires forall i :: 0 <= i < k ==> f.points[i].addr != ip && Odd(f.points[i])
    ensures FindIn(mem, |Aligned(before)|, ip) == Found(|Aligned(before)| + PointOffset(f.points, k))
    ensures Reads(mem, |Aligned(before)| + PointOffset(f.points, k), f.frameSize, f.points[k])
  {
    hide WithMap, AddrAt, CountAt, FindIn, Odd, FunctionOk;
    FindFrom(before, f, mem, ip, k);
    PrintedReads(before, f, k, mem);
  }

  /** When no point has the address, and all but perhaps the last have odd counts, none is found. */
  lemma AbsentIsNotFound(before: seq<byte>, f: Function, mem: seq<byte>, ip: nat)
    requires FunctionOk(f) && WithMap(before, f) <= mem
    requires forall i :: 0 <= i < |f.points| ==> f.points[i].addr != ip && (i < |f.points| - 1 ==> Odd(f.points[i]))
    ensures FindIn(mem, |Aligned(before)|, ip) == NoSafepoint
  {
    hide WithMap, FindIn, Odd, FunctionOk;
    FindFrom(before, f, mem, ip, |f.points|);
  }

  /** The second of two points is found in its place exactly when the first has an odd count. */
  lemma SecondPoint(before: seq<byte>, f: Function, mem: seq<byte>)
    requires FunctionOk(f) && WithMap(before, f) <= mem && |f.points| == 2
    requires f.points[0].addr != f.points[1].addr
    ensures FindIn(mem, |Aligned(before)|, f.points[1].addr) == Found(|Aligned(before)| + PointOffset(f.points, 1)) <==> Odd(f.points[0])
  {
    hide WithMap, AddrAt, CountAt, Odd, PointOk, ReadInt32, PointBytes;
    var base, ip := |Aligned(before)|, f.points[1].addr;
    if Odd(f.points[0]) {
      StackMapRoundTrip(before, f, mem, ip, 1);
    } else {
      FindFrom(before, f, mem, ip, 0);
      PrintedReads(before, f, 0, mem);
      StrideAgrees(PointOffset(f.points, 0), f.points[0]);
      var at := base + PointOffset(f.points, 1) + 4;
      assert FindIn(mem, base, ip) == Find(mem, at, 1, ip);
    }
  }

  // ----- whole assemblies

  lemma {:induction false} MapsGrow(out: seq<byte>, f: Function)
    ensures out <= WithMap(out, f)
  {
    var head := MapHead(out, f);
    PrefixOfPoints(head, f.frameSize, f.points, 0);
    assert f.points[..0] == [];
  }

  lemma {:induction false} MapInAssembly(section: seq<byte>, fs: seq<Function>, i: nat)
    requires i < |fs|
    ensures WithMap(WithMaps(section, fs[..i]), fs[i]) <= WithMaps(section, fs)
    decreases |fs|
  {
    hide WithMap;
    var init := fs[..|fs| - 1];
    if i < |init| {
      assert init[..i] == fs[..i];
      MapInAssembly(section, init, i);
      MapsGrow(WithMaps(section, init), fs[|fs| - 1]);
    }
  }

  /** Every function of an assembly finds its own points, whatever the others are. */
  lemma AssemblyRoundTrip(section: seq<byte>, fs: seq<Function>, i: nat, ip: nat, k: nat)
    requires i < |fs| && FunctionOk(fs[i]) && k < |fs[i].points| && fs[i].points[k].addr == ip
    requires forall j :: 0 <= j < k ==> fs[i].points[j].addr != ip && Odd(fs[i].points[j])
    ensures var symbol, mem := |Aligned(WithMaps(section, fs[..i]))|, WithMaps(section, fs);
      && FindIn(mem, symbol, ip) == Found(symbol + PointOffset(fs[i].points, k))
      && Reads(mem, symbol + PointOffset(fs[i].points, k), fs[i].frameSize, fs[i].points[k])
  {
    hide WithMap, WithMaps, FindIn, Reads, PointOffset, FunctionOk, Aligned, Odd;
    MapInAssembly(section, fs, i);
    StackMapRoundTrip(WithMaps(section, fs[..i]), fs[i], WithMaps(section, fs), ip, k);
  }
}
