/** Which live counts let the reader find the points of every map that has them. */
module StackMapCounts {
  import opened Bytes
  import opened StackMap
  import opened StackMapProof
  import opened Words

  /** A map with these live counts and no address twice, printed to memory behind other things. */
  ghost predicate Printed(f: Function, counts: seq<nat>, before: seq<byte>, mem: seq<byte>) {
    && FunctionOk(f) && |f.points| == |counts| && (forall i :: 0 <= i < |counts| ==> |f.points[i].live| == counts[i])
    && (forall i, j :: 0 <= i < j < |counts| ==> f.points[i].addr != f.points[j].addr)
    && WithMap(before, f) <= mem
  }

  /** Each point up to the k-th is found in its own place. */
  ghost predicate AllFound(f: Function, before: seq<byte>, mem: seq<byte>, k: nat)
    requires k < |f.points|
  {
    forall j :: 0 <= j <= k ==>
      FindIn(mem, |Aligned(before)|, f.points[j].addr) == Found(|Aligned(before)| + PointOffset(f.points, j))
  }

  // ----- memory without negative words

  /** Every aligned word of 32 bits is positive or zero. */
  ghost predicate Calm(m: seq<byte>) {
    |m| % 4 == 0 && forall i :: 0 <= i < |m| && i % 4 == 3 ==> m[i] < 128
  }

  lemma CalmJoin(a: seq<byte>, b: seq<byte>)
    requires Calm(a) && Calm(b)
    ensures Calm(a + b)
  {
    SumOfFours(|a|, |b|);
    forall i | 0 <= i < |a + b| && i % 4 == 3 ensures (a + b)[i] < 128 {
      if i >= |a| {
        WithoutFours(i, |a|);
        assert (a + b)[i] == b[i - |a|];
      } else {
        assert (a + b)[i] == a[i];
      }
    }
  }

  lemma SumOfFours(m: nat, n: nat)
    requires m % 4 == 0 && n % 4 == 0
    ensures (m + n) % 4 == 0
  {
  }

  lemma WithoutFours(i: nat, n: nat)
    requires n % 4 == 0 && n <= i
    ensures (i - n) % 4 == i % 4
  {
  }

  lemma {:induction false} ZerosAre(n: nat)
    ensures forall i :: 0 <= i < n ==> Zeros(n)[i] == 0
  {
    if n > 0 {
      ZerosAre(n - 1);
    }
  }

  lemma CalmAligned(m: seq<byte>)
    requires Calm(m)
    ensures Calm(Aligned(m))
  {
    ZerosAre(Padding(|m|));
    CalmJoin(m, Zeros(Padding(|m|)));
  }

  lemma {:induction false} ByteAt(v: nat, n: nat, i: nat)
    requires i < n
    ensures LE(v, n)[i] == ByteOf(v, i)
    decreases i
  {
    if i > 0 {
      ByteAt(v / 256, n - 1, i - 1);
    }
  }

  lemma TopBytes(x: nat)
    requires x < TWO_31
    ensures ByteOf(x, 3) < 128 && ByteOf(x, 7) == 0
  {
    assert ByteOf(x, 3) == ByteOf(x / 256 / 256 / 256, 0);
    assert x / 256 / 256 / 256 / 256 == 0;
    assert ByteOf(x, 7) == ByteOf(x / 256 / 256 / 256 / 256, 3) == ByteOf(0, 0);
  }

  lemma CalmFour(x: nat)
    requires x < TWO_31
    ensures Calm(LE(x, 4))
  {
    hide LE, ByteOf;
    ByteAt(x, 4, 3);
    TopBytes(x);
  }

  lemma CalmEight(x: nat)
    requires x < TWO_31
    ensures Calm(LE(x, 8))
  {
    hide LE, ByteOf;
    ByteAt(x, 8, 3);
    ByteAt(x, 8, 7);
    TopBytes(x);
    forall i | 0 <= i < 8 && i % 4 == 3 ensures i == 3 || i == 7 {}
  }

  lemma {:induction false} CalmInts(xs: seq<int>)
    requires forall i :: 0 <= i < |xs| ==> 0 <= xs[i] < TWO_31
    ensures Calm(Ints(xs))
  {
    hide LE;
    if xs != [] {
      CalmInts(xs[..|xs| - 1]);
      CalmFour(xs[|xs| - 1]);
      CalmJoin(Ints(xs[..|xs| - 1]), Int32(xs[|xs| - 1]));
    }
  }

  lemma CalmPoint(pt: Point)
    requires pt.addr < TWO_31 && |pt.live| < TWO_31 && forall i :: 0 <= i < |pt.live| ==> pt.live[i] == 0
    ensures Calm(PointBytes(0, pt))
  {
    hide LE;
    CalmEight(pt.addr);
    CalmFour(0);
    CalmFour(|pt.live|);
    CalmInts(pt.live);
    CalmJoin(LE(pt.addr, 8), Int32(0));
    CalmJoin(LE(pt.addr, 8) + Int32(0), Int32(|pt.live|));
    CalmJoin(LE(pt.addr, 8) + Int32(0) + Int32(|pt.live|), Ints(pt.live));
  }

  lemma {:induction false} CalmPoints(out: seq<byte>, points: seq<Point>)
    requires Calm(out)
    requires forall pt :: pt in points ==> pt.addr < TWO_31 && |pt.live| < TWO_31 && forall i :: 0 <= i < |pt.live| ==> pt.live[i] == 0
    ensures Calm(WithPoints(out, 0, points))
    decreases |points|
  {
    hide PointBytes, Aligned, Calm;
    if points != [] {
      var init := points[..|points| - 1];
      CalmPoints(out, init);
      CalmAligned(WithPoints(out, 0, init));
      CalmPoint(points[|points| - 1]);
      CalmJoin(Aligned(WithPoints(out, 0, init)), PointBytes(0, points[|points| - 1]));
    }
  }

  lemma CalmReads(mem: seq<byte>, p: nat)
    requires Calm(mem) && p % 4 == 0 && p + 4 <= |mem|
    ensures ReadInt32(mem, p) >= 0
  {
    Widths();
    assert ReadLE(mem, p + 3, 1) == mem[p + 3] + 256 * ReadLE(mem, p + 4, 0) == mem[p + 3];
    assert ReadLE(mem, p + 2, 2) == mem[p + 2] + 256 * ReadLE(mem, p + 3, 1);
    assert ReadLE(mem, p + 1, 3) == mem[p + 1] + 256 * ReadLE(mem, p + 2, 2);
    assert mem[p + 3] < 128;
  }

  /** In such memory the reader only moves forward. */
  lemma {:induction false} FindsForward(mem: seq<byte>, at: nat, left: nat, ip: nat)
    requires Calm(mem) && at % 4 == 0
    ensures Find(mem, at, left, ip).Found? ==> Find(mem, at, left, ip).at >= at
    decreases left
  {
    hide AddrAt, ReadInt32, Calm;
    if left > 0 && HasPoint(mem, at) {
      CalmReads(mem, at + 12);
      FindsForward(mem, at + Stride(CountAt(mem, at)), left - 1, ip);
    }
  }

  // ----- the counts decide

  /** Points at the addresses 0, 1, 2 and so on, with these counts and all offsets zero. */
  function Plain(counts: seq<nat>): (f: Function)
    ensures |f.points| == |counts| && f.frameSize == 0
    ensures forall i :: 0 <= i < |counts| ==> f.points[i] == Point(i, seq(counts[i], _ => 0))
  {
    Function(0, seq(|counts|, i requires 0 <= i < |counts| => Point(i, seq(counts[i], _ => 0))))
  }

  lemma NothingIsCalm()
    ensures Calm([])
  {
  }

  lemma PlainIsPrinted(counts: seq<nat>)
    requires |counts| < TWO_31 && forall i :: 0 <= i < |counts| ==> counts[i] < TWO_31
    ensures Printed(Plain(counts), counts, [], WithMap([], Plain(counts))) && Calm(WithMap([], Plain(counts)))
  {
    hide WithPoints, LE, Aligned, Calm;
    var f := Plain(counts);
    assert Calm([]) by { NothingIsCalm(); }
    CalmAligned([]);
    CalmFour(|counts|);
    CalmJoin(Aligned([]), Int32(|counts|));
    forall pt | pt in f.points ensures pt.addr < TWO_31 && |pt.live| < TWO_31 && forall i :: 0 <= i < |pt.live| ==> pt.live[i] == 0 {
      var i :| 0 <= i < |f.points| && f.points[i] == pt;
    }
    CalmPoints(Aligned([]) + Int32(|counts|), f.points);
  }

  lemma EightsAndFour(m: nat, n: nat)
    requires m % 8 == 0 && n % 8 == 0
    ensures (m + n + 4) % 4 == 0
  {
  }

  /** Behind the first even count the next point is missed. */
  lemma PlainIsMissed(counts: seq<nat>, j: nat)
    requires j + 1 < |counts| < TWO_31 && forall i :: 0 <= i < |counts| ==> counts[i] < TWO_31
    requires counts[j] % 2 == 0 && forall i :: 0 <= i < j ==> counts[i] % 2 == 1
    ensures !AllFound(Plain(counts), [], WithMap([], Plain(counts)), j + 1)
  {
    hide WithMap, AddrAt, CountAt, ReadInt32, PointBytes, PointOffset, Aligned, Calm;
    var f := Plain(counts);
    var mem, base := WithMap([], f), |Aligned([])|;
    PlainIsPrinted(counts);
    AlignedLength([]);
    FindFrom([], f, mem, j + 1, j);
    PrintedReads([], f, j, mem);
    NextPlace(base, f.points, j, mem);
    var place := base + PointOffset(f.points, j + 1);
    EightsAndFour(base, PointOffset(f.points, j + 1));
    FindsForward(mem, place + 4, |counts| - j - 1, j + 1);
    assert FindIn(mem, base, j + 1) == Find(mem, place + 4, |counts| - j - 1, j + 1);
    assert f.points[j + 1].addr == j + 1;
  }

  /** The live counts alone decide: in every map that has them, wherever it is printed and whatever
      its addresses and offsets are, each point up to the k-th is found in its own place, if and
      only if the counts before the k-th are odd. */
  lemma CountsDecide(counts: seq<nat>, k: nat)
    requires k < |counts| < TWO_31 && forall i :: 0 <= i < |counts| ==> counts[i] < TWO_31
    ensures (forall f, before, mem :: Printed(f, counts, before, mem) ==> AllFound(f, before, mem, k))
       <==> forall j :: 0 <= j < k ==> counts[j] % 2 == 1
  {
    hide WithMap, FunctionOk, FindIn, PointOffset, Aligned, Reads;
    if j :| 0 <= j < k && counts[j] % 2 == 0 {
      var e := FirstEvenCount(counts, j);
      PlainIsPrinted(counts);
      PlainIsMissed(counts, e);
      assert !AllFound(Plain(counts), [], WithMap([], Plain(counts)), k);
    } else {
      forall f, before, mem | Printed(f, counts, before, mem) ensures AllFound(f, before, mem, k) {
        forall j | 0 <= j <= k
          ensures FindIn(mem, |Aligned(before)|, f.points[j].addr) == Found(|Aligned(before)| + PointOffset(f.points, j))
        {
          StackMapRoundTrip(before, f, mem, f.points[j].addr, j);
        }
      }
    }
  }

  lemma {:induction false} FirstEvenCount(counts: seq<nat>, j: nat) returns (e: nat)
    requires j < |counts| && counts[j] % 2 == 0
    ensures e <= j && counts[e] % 2 == 0 && forall i :: 0 <= i < e ==> counts[i] % 2 == 1
  {
    e := 0;
    while counts[e] % 2 == 1
      invariant e <= j && forall i :: 0 <= i < e ==> counts[i] % 2 == 1
      decreases j - e
    {
      e := e + 1;
    }
  }
}
