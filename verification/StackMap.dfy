/** The stack maps: the printer that lays out each function's safe points, and the reader that
    steps over them to find the one of a given address. */
module StackMap {
  import opened Bytes
  import opened Words

  const POINT_SIZE: nat := 16    // address, frame size and live count
  const POINTS_OFFSET: nat := 8  // of the first point in a map, behind the count and padding

  datatype Point = Point(addr: nat, live: seq<int>)

  datatype Function = Function(frameSize: int, points: seq<Point>)

  predicate IsInt32(x: int) {
    -TWO_31 <= x < TWO_31
  }

  predicate PointOk(pt: Point) {
    pt.addr < TWO_64 && |pt.live| < TWO_31 && forall i :: 0 <= i < |pt.live| ==> IsInt32(pt.live[i])
  }

  predicate FunctionOk(f: Function) {
    IsInt32(f.frameSize) && |f.points| < TWO_31 && forall i :: 0 <= i < |f.points| ==> PointOk(f.points[i])
  }

  // ----- what is printed

  function Padding(n: nat): nat {
    (8 - n % 8) % 8
  }

  function Aligned(out: seq<byte>): seq<byte> {
    out + Zeros(Padding(|out|))
  }

  function Zeros(n: nat): (r: seq<byte>)
    ensures |r| == n
  {
    if n == 0 then [] else Zeros(n - 1) + [0]
  }

  function Int32(x: int): seq<byte> {
    LE(x % TWO_32, 4)
  }

  function Ints(xs: seq<int>): (r: seq<byte>)
    ensures |r| == 4 * |xs|
  {
    if xs == [] then [] else Ints(xs[..|xs| - 1]) + Int32(xs[|xs| - 1])
  }

  function PointBytes(frameSize: int, pt: Point): (r: seq<byte>)
    ensures |r| == POINT_SIZE + 4 * |pt.live|
  {
    LE(pt.addr, 8) + Int32(frameSize) + Int32(|pt.live|) + Ints(pt.live)
  }

  function WithPoints(out: seq<byte>, frameSize: int, points: seq<Point>): seq<byte> {
    if points == [] then out
    else Aligned(WithPoints(out, frameSize, points[..|points| - 1])) + PointBytes(frameSize, points[|points| - 1])
  }

  function WithMap(out: seq<byte>, f: Function): seq<byte> {
    WithPoints(Aligned(out) + Int32(|f.points|), f.frameSize, f.points)
  }

  function WithMaps(out: seq<byte>, fs: seq<Function>): seq<byte> {
    if fs == [] then out else WithMap(WithMaps(out, fs[..|fs| - 1]), fs[|fs| - 1])
  }

  /** An assembly output stream. */
  class Streamer {
    var out: seq<byte>

    constructor (section: seq<byte>)
      ensures out == section
    {
      out := section;
    }

    method EmitAlignment()
      modifies this
      ensures out == Aligned(old(out))
    {
      ghost var n, k := |out|, 0;
      while |out| % 8 != 0
        invariant k <= Padding(n) && out == old(out) + Zeros(k)
        decreases Padding(n) - k
      {
        PaddingLeft(n, k);
        out := out + [0];
        k := k + 1;
      }
      PaddingLeft(n, k);
    }

    method EmitInt32(x: int)
      modifies this
      ensures out == old(out) + Int32(x)
    {
      out := out + Int32(x);
    }

    method EmitSymbolValue(addr: nat)
      modifies this
      ensures out == old(out) + LE(addr, 8)
    {
      out := out + LE(addr, 8);
    }

    method EmitPoint(frameSize: int, pt: Point)
      modifies this
      ensures out == Aligned(old(out)) + PointBytes(frameSize, pt)
    {
      hide LE, Aligned, Int32;
      EmitAlignment();
      ghost var start := out;
      EmitSymbolValue(pt.addr);
      EmitInt32(frameSize);
      EmitInt32(|pt.live|);
      ghost var head := out;
      var i := 0;
      while i < |pt.live|
        invariant i <= |pt.live| && out == head + Ints(pt.live[..i])
      {
        EmitInt32(pt.live[i]);
        assert pt.live[..i + 1][..i] == pt.live[..i];
        i := i + 1;
      }
      assert pt.live[..i] == pt.live;
      assert out == start + (LE(pt.addr, 8) + Int32(frameSize) + Int32(|pt.live|) + Ints(pt.live));
    }

    /** Print one map; the result is where its symbol is. */
    method EmitMap(f: Function) returns (symbol: nat)
      modifies this
      ensures symbol == |Aligned(old(out))| && out == WithMap(old(out), f)
    {
      EmitAlignment();
      symbol := |out|;
      EmitInt32(|f.points|);
      ghost var head := out;
      var i := 0;
      while i < |f.points|
        invariant i <= |f.points| && out == WithPoints(head, f.frameSize, f.points[..i])
      {
        EmitPoint(f.frameSize, f.points[i]);
        assert f.points[..i + 1][..i] == f.points[..i];
        i := i + 1;
      }
      assert f.points[..i] == f.points;
    }

    method FinishAssembly(fs: seq<Function>) returns (symbols: seq<nat>)
      modifies this
      ensures out == WithMaps(old(out), fs) && |symbols| == |fs|
      ensures forall i :: 0 <= i < |fs| ==> symbols[i] == |Aligned(WithMaps(old(out), fs[..i]))|
    {
      symbols := [];
      var i := 0;
      while i < |fs|
        invariant i <= |fs| == |fs| && out == WithMaps(old(out), fs[..i]) && |symbols| == i
        invariant forall j :: 0 <= j < i ==> symbols[j] == |Aligned(WithMaps(old(out), fs[..j]))|
      {
        var symbol := EmitMap(fs[i]);
        assert fs[..i + 1][..i] == fs[..i];
        symbols := symbols + [symbol];
        i := i + 1;
      }
      assert fs[..i] == fs;
    }
  }

  lemma PaddingLeft(n: nat, k: nat)
    requires k <= Padding(n)
    ensures (n + k) % 8 == 0 <==> k == Padding(n)
  {
  }

  // ----- what is read

  function ReadInt32(mem: seq<byte>, p: nat): int
    requires p + 4 <= |mem|
  {
    SignExtend(ReadLE(mem, p, 4), 4)
  }

  datatype FindResult = Found(at: nat) | NoSafepoint | OutOfMap

  predicate HasPoint(mem: seq<byte>, at: int) {
    0 <= at && at + POINT_SIZE <= |mem|
  }

  /** How far the reader moves over a point that does not match. */
  function Stride(liveCount: int): int {
    POINT_SIZE + 4 * liveCount + 4
  }

  function AddrAt(mem: seq<byte>, at: nat): nat
    requires HasPoint(mem, at)
  {
    ReadLE(mem, at, 8)
  }

  function CountAt(mem: seq<byte>, at: nat): int
    requires HasPoint(mem, at)
  {
    ReadInt32(mem, at + 12)
  }

  function Find(mem: seq<byte>, at: int, left: nat, ip: nat): FindResult
    decreases left
  {
    if left == 0 then NoSafepoint
    else if !HasPoint(mem, at) then OutOfMap
    else if AddrAt(mem, at) == ip then Found(at)
    else Find(mem, at + Stride(CountAt(mem, at)), left - 1, ip)
  }

  function FindIn(mem: seq<byte>, gcMap: nat, ip: nat): FindResult {
    if gcMap + 4 > |mem| then OutOfMap
    else
      var n := ReadInt32(mem, gcMap);
      Find(mem, gcMap + POINTS_OFFSET, if n < 0 then 0 else n, ip)
  }

  method FindSafepoint(mem: seq<byte>, gcMap: nat, ip: nat) returns (r: FindResult)
    ensures r == FindIn(mem, gcMap, ip)
  {
    if gcMap + 4 > |mem| {
      return OutOfMap;
    }
    var pointCount := ReadInt32(mem, gcMap);
    var addr: int := gcMap + POINTS_OFFSET;
    var i := 0;
    while i < pointCount
      invariant 0 <= i && (i <= pointCount || i == 0)
      invariant FindIn(mem, gcMap, ip) == Find(mem, addr, if pointCount < 0 then 0 else pointCount - i, ip)
    {
      if !HasPoint(mem, addr) {
        return OutOfMap;
      }
      if AddrAt(mem, addr) == ip {
        return Found(addr);
      }
      addr := addr + Stride(CountAt(mem, addr));
      i := i + 1;
    }
    return NoSafepoint;
  }

  /** The offsets that root collection takes from a found point. */
  method ReadOffsets(mem: seq<byte>, at: nat) returns (offsets: seq<int>)
    requires HasPoint(mem, at) && at + POINT_SIZE + 4 * CountAt(mem, at) <= |mem|
    ensures offsets == OffsetsAt(mem, at)
  {
    offsets := [];
    var liveCount := CountAt(mem, at);
    var i := 0;
    while i < liveCount
      invariant 0 <= i && (i <= liveCount || i == 0) && |offsets| == i
      invariant forall j :: 0 <= j < i ==> offsets[j] == ReadInt32(mem, at + POINT_SIZE + 4 * j)
    {
      offsets := offsets + [ReadInt32(mem, at + POINT_SIZE + 4 * i)];
      i := i + 1;
    }
  }

  function OffsetsAt(mem: seq<byte>, at: nat): (r: seq<int>)
    requires HasPoint(mem, at) && at + POINT_SIZE + 4 * CountAt(mem, at) <= |mem|
    ensures |r| == if CountAt(mem, at) < 0 then 0 else CountAt(mem, at)
    ensures forall j :: 0 <= j < |r| ==> r[j] == ReadInt32(mem, at + POINT_SIZE + 4 * j)
  {
    seq(if CountAt(mem, at) < 0 then 0 else CountAt(mem, at), j requires 0 <= j < CountAt(mem, at) => ReadInt32(mem, at + POINT_SIZE + 4 * j))
  }
}
