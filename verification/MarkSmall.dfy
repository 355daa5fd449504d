/** When the references found during a scan fit into the current segment, nothing but the
    queued objects themselves is marked; and when they are queued already, nothing is missed. */
module MarkSmall {
  import opened Options
  import opened Sequences
  import opened Graphs
  import opened MarkSpec
  import opened MarkProof

  lemma {:induction false} RefCountWithout<T>(g: Graph<T>, a: seq<T>, k: nat)
    requires k < |a| && forall x :: x in a ==> x in g
    ensures forall x :: x in a[..k] + a[k + 1..] ==> x in g
    ensures RefCount(g, a) == RefCount(g, a[..k] + a[k + 1..]) + |g[a[k]]|
    decreases |a|
  {
    var n := |a| - 1;
    var b := a[..k] + a[k + 1..];
    if k < n {
      assert a[..n][..k] + a[..n][k + 1..] == b[..|b| - 1];
      assert a[..n][k] == a[k];
      RefCountWithout(g, a[..n], k);
    } else {
      assert b == a[..n];
    }
  }

  lemma WithoutOne<T>(a: seq<T>, k: nat, rest: seq<T>)
    requires k < |a| && Distinct(a) && forall x :: x in a ==> x in rest || x == a[k]
    ensures var b := a[..k] + a[k + 1..]; Distinct(b) && forall x :: x in b ==> x in rest
  {
    var b := a[..k] + a[k + 1..];
    assert forall i :: 0 <= i < |b| ==> b[i] == if i < k then a[i] else a[i + 1];
  }

  /** A list of some of the listed objects holds no more references than all of them. */
  lemma {:induction false} RefCountMonotone<T>(g: Graph<T>, a: seq<T>, all: seq<T>)
    requires Distinct(a) && (forall x :: x in a ==> x in all) && (forall x :: x in all ==> x in g)
    ensures RefCount(g, a) <= RefCount(g, all)
    decreases |all|
  {
    if a != [] {
      hide Distinct;
      assert a[0] in all;
      var n := |all| - 1;
      var x := all[n];
      assert forall y :: y in all <==> y in all[..n] || y == x;
      if x in a {
        var k :| 0 <= k < |a| && a[k] == x;
        var b := a[..k] + a[k + 1..];
        RefCountWithout(g, a, k);
        WithoutOne(a, k, all[..n]);
        RefCountMonotone(g, b, all[..n]);
      } else {
        RefCountMonotone(g, a, all[..n]);
      }
    }
  }

  lemma {:induction false} QueueFits<T>(st: Tracing<T>, rs: seq<T>)
    requires |Leftover(st)| + |rs| <= SEGMENT_SIZE
    ensures QueueRefs(st, rs).queue == st.queue && Leftover(QueueRefs(st, rs)) == Leftover(st) + rs
    decreases |rs|
  {
    if rs != [] {
      QueueFits(QueueRef(st, rs[0]), rs[1..]);
    }
  }

  /** As long as everything fits, only objects queued at the start are marked. */
  ghost predicate Fits<T>(g: Graph<T>, queued: set<T>, s0: Tracing<T>, st: Tracing<T>, rest: seq<T>) {
    && (forall s, r :: s in st.queue && r in s ==> r in queued)
    && (forall r :: r in rest ==> r in queued)
    && (forall x :: x in Since(s0, st) ==> x in queued && x in g)
    && |Leftover(st)| == |Leftover(s0)| + RefCount(g, Since(s0, st))
  }

  /** The current segment has room for all that the listed objects refer to. */
  ghost predicate RoomFor<T>(g: Graph<T>, all: seq<T>, queued: set<T>, s0: Tracing<T>) {
    && (forall x :: x in queued ==> x in all) && (forall x :: x in all ==> x in g)
    && |Leftover(s0)| + RefCount(g, all) <= SEGMENT_SIZE
  }

  lemma {:induction false} ScanRefsFit<T>(g: Graph<T>, all: seq<T>, queued: set<T>, roots: set<T>,
                                           s0: Tracing<T>, st: Tracing<T>, rest: seq<T>)
    requires Closed(g) && Inv(g, roots, s0, st, rest) && Fits(g, queued, s0, st, rest)
    requires RoomFor(g, all, queued, s0)
    ensures Inv(g, roots, s0, ScanRefs(g, st, rest), []) && Fits(g, queued, s0, ScanRefs(g, st, rest), [])
    decreases |rest|
  {
    hide Inv, Reach, ScanRef;
    ScanRefsKeepsInv(g, roots, s0, st, rest);
    if rest != [] {
      var r := rest[0];
      InvBounds(g, roots, s0, st, rest);
      if r in st.marked {
        MarkedKeepsInv(g, roots, s0, st, rest);
      } else {
        NewMarkKeepsInv(g, roots, s0, st, rest);
      }
      ScanRefFits(g, all, queued, roots, s0, st, rest);
      ScanRefsFit(g, all, queued, roots, s0, ScanRef(g, st, r), rest[1..]);
    }
  }

  lemma RefCountSnoc<T>(g: Graph<T>, a: seq<T>, r: T)
    requires r in g && forall x :: x in a ==> x in g
    ensures (forall x :: x in a + [r] <==> x in a || x == r) && RefCount(g, a + [r]) == RefCount(g, a) + |g[r]|
  {
    assert (a + [r])[..|a|] == a;
  }

  lemma InvFacts<T>(g: Graph<T>, roots: set<T>, s0: Tracing<T>, st: Tracing<T>, rest: seq<T>)
    requires Inv(g, roots, s0, st, rest)
    ensures InGraph(g, st) && Bounded(st) && s0.log <= st.log && Distinct(Since(s0, st)) && forall r :: r in rest ==> r in g
  {}

  lemma SameWhenMarked<T>(g: Graph<T>, s0: Tracing<T>, st: Tracing<T>, r: T)
    requires r in g
    ensures var st' := ScanRef(g, st, r);
      r in st.marked ==> st'.queue == st.queue && Leftover(st') == Leftover(st) && Since(s0, st') == Since(s0, st)
    ensures var mid := st.(scanned := st.scanned + 1, marked := st.marked + {r}, log := st.log + [r]);
      r !in st.marked ==> Leftover(mid) == Leftover(st) && ScanRef(g, st, r) == QueueRefs(mid, g[r])
  {}

  lemma ScanRefFits<T>(g: Graph<T>, all: seq<T>, queued: set<T>, roots: set<T>,
                        s0: Tracing<T>, st: Tracing<T>, rest: seq<T>)
    requires Closed(g) && rest != [] && Inv(g, roots, s0, st, rest) && Fits(g, queued, s0, st, rest)
    requires Inv(g, roots, s0, ScanRef(g, st, rest[0]), rest[1..])
    requires RoomFor(g, all, queued, s0)
    ensures Fits(g, queued, s0, ScanRef(g, st, rest[0]), rest[1..])
  {
    hide Inv, InGraph, Bounded, Pending, Distinct, Since, ScanRef, RefCount, QueueRefs, Closed, Leftover;
    var r := rest[0];
    var st' := ScanRef(g, st, r);
    InvFacts(g, roots, s0, st, rest);
    InvFacts(g, roots, s0, st', rest[1..]);
    SameWhenMarked(g, s0, st, r);
    if r !in st.marked {
      var st1 := MarkStep(g, s0, st, r);
      RefCountSnoc(g, Since(s0, st), r);
      RefCountMonotone(g, Since(s0, st'), all);
      QueueFits(st.(scanned := st.scanned + 1, marked := st.marked + {r}, log := st.log + [r]), g[r]);
    }
  }

  lemma {:induction false} ScanHeapFits<T>(g: Graph<T>, all: seq<T>, queued: set<T>, roots: set<T>,
                                            s0: Tracing<T>, st: Tracing<T>)
    requires Closed(g) && InGraph(g, st) && Inv(g, roots, s0, st, []) && Fits(g, queued, s0, st, [])
    requires RoomFor(g, all, queued, s0)
    ensures Fits(g, queued, s0, ScanHeap(g, st), [])
    decreases |g.Keys - st.marked|, |st.queue|
  {
    hide Inv, InGraph, ScanRefs, Since;
    if st.queue != [] {
      var st1 := st.(queue := st.queue[1..]);
      StealKeepsInv(g, roots, s0, st);
      ScanStepShrinks(g, st);
      assert Fits(g, queued, s0, st1, st.queue[0]) by { StealFits(g, queued, s0, st); }
      ScanRefsFit(g, all, queued, roots, s0, st1, st.queue[0]);
      ScanHeapFits(g, all, queued, roots, s0, ScanRefs(g, st1, st.queue[0]));
    }
  }

  lemma StealFits<T>(g: Graph<T>, queued: set<T>, s0: Tracing<T>, st: Tracing<T>)
    requires Fits(g, queued, s0, st, []) && st.queue != []
    ensures Fits(g, queued, s0, st.(queue := st.queue[1..]), st.queue[0])
  {
    assert st.queue[0] in st.queue;
    assert forall s :: s in st.queue[1..] ==> s in st.queue;
    assert Since(s0, st.(queue := st.queue[1..])) == Since(s0, st);
  }

  /** In any period: when the current segment, with what earlier periods left in it, has room
      for all that the queued objects refer to, the scan marks the queued objects and nothing
      else. */
  lemma SmallScanMarksQueued<T>(g: Graph<T>, all: seq<T>, st: Tracing<T>)
    requires Ready(g, st) && RoomFor(g, all, Queued(st), st)
    ensures ScanHeap(g, st).marked == st.marked + Queued(st)
  {
    hide Reach, RoomFor;
    ReadyIsInv(g, st);
    assert Fits(g, Queued(st), st, st, []) by {
      assert Since(st, st) == [];
    }
    ScanHeapFits(g, all, Queued(st), Sources(st), st, st);
    ScanHeapKeepsInv(g, Sources(st), st, st);
    AllQueuedGetMarked(g, st);
  }

  /** The queued objects refer to queued objects only. */
  ghost predicate QueueIsClosed<T>(g: Graph<T>, st: Tracing<T>) {
    forall x, r :: x in Queued(st) && x in g && r in g[x] ==> r in Queued(st)
  }

  /** A caller can tell beforehand whether such a scan is exact: if and only if the queued
      objects refer to queued objects only. */
  lemma SmallScanExactIff<T>(g: Graph<T>, all: seq<T>, st: Tracing<T>)
    requires Ready(g, st) && Unmarked(g, st) && RoomFor(g, all, Queued(st), st)
    ensures (forall x :: x in ScanHeap(g, st).marked - st.marked <==> InUse(g, st, x)) <==> QueueIsClosed(g, st)
  {
    hide RoomFor;
    SmallScanMarksQueued(g, all, st);
    forall x | x in Queued(st) ensures InUse(g, st, x) {
      RootReach(g, Queued(st), x);
    }
    if QueueIsClosed(g, st) {
      ClosedQueueInUse(g, st);
    }
    if x, r :| x in Queued(st) && x in g && r in g[x] && r !in Queued(st) {
      EdgeReach(g, Queued(st), x, r);
      assert r !in ScanHeap(g, st).marked - st.marked;
    }
  }

  lemma ClosedQueueInUse<T>(g: Graph<T>, st: Tracing<T>)
    requires QueueIsClosed(g, st)
    ensures forall x :: InUse(g, st, x) <==> x in Queued(st)
  {
    forall x ensures InUse(g, st, x) <==> x in Queued(st) {
      if n: nat :| ReachIn(g, Queued(st), x, n) {
        ClosedSetHolds(g, Queued(st), Queued(st), x, n);
      }
      if x in Queued(st) {
        RootReach(g, Queued(st), x);
      }
    }
  }

  /** With a closed queue the scan misses nothing whatever its size: no limit of one segment. */
  lemma ClosedQueueIsComplete<T>(g: Graph<T>, st: Tracing<T>)
    requires Ready(g, st) && QueueIsClosed(g, st)
    ensures forall x :: InUse(g, st, x) ==> x in ScanHeap(g, st).marked
  {
    AllQueuedGetMarked(g, st);
    ClosedQueueInUse(g, st);
  }

  lemma AllQueuedGetMarked<T>(g: Graph<T>, st: Tracing<T>)
    requires Closed(g) && InGraph(g, st)
    ensures Queued(st) <= ScanHeap(g, st).marked
  {
    forall r | r in Queued(st) ensures r in ScanHeap(g, st).marked {
      QueuedGetsMarked(g, st, r);
    }
  }

  lemma {:induction false} QueuedGetsMarked<T>(g: Graph<T>, st: Tracing<T>, r: T)
    requires Closed(g) && InGraph(g, st) && (r in st.marked || exists s :: s in st.queue && r in s)
    ensures r in ScanHeap(g, st).marked
    decreases |g.Keys - st.marked|, |st.queue|
  {
    hide InGraph, ScanRefs;
    if st.queue != [] {
      var st1 := st.(queue := st.queue[1..]);
      ScanStepShrinks(g, st);
      var st2 := ScanRefs(g, st1, st.queue[0]);
      assert st.queue == [st.queue[0]] + st1.queue;
      StepKeepsQueued(g, st, r);
      QueuedGetsMarked(g, st2, r);
    }
  }

  lemma StepKeepsQueued<T>(g: Graph<T>, st: Tracing<T>, r: T)
    requires Closed(g) && InGraph(g, st) && st.queue != [] && (r in st.marked || exists s :: s in st.queue && r in s)
    requires forall x :: x in st.queue[0] ==> x in g
    ensures var st2 := ScanRefs(g, st.(queue := st.queue[1..]), st.queue[0]);
      r in st2.marked || exists s :: s in st2.queue && r in s
  {
    var st1 := st.(queue := st.queue[1..]);
    assert st.queue == [st.queue[0]] + st1.queue;
    assert InGraph(g, st1);
    ScanKeepsQueued(g, st1, st.queue[0], r);
  }

  lemma {:induction false} ScanKeepsQueued<T>(g: Graph<T>, st: Tracing<T>, rs: seq<T>, r: T)
    requires Closed(g) && InGraph(g, st) && (forall x :: x in rs ==> x in g)
    requires r in st.marked || r in rs || exists s :: s in st.queue && r in s
    ensures r in ScanRefs(g, st, rs).marked || exists s :: s in ScanRefs(g, st, rs).queue && r in s
    decreases |rs|
  {
    if rs != [] {
      var st1 := ScanRef(g, st, rs[0]);
      ScanRefsShrink(g, st, [rs[0]]);
      assert ScanRefs(g, st, [rs[0]]) == ScanRefs(g, st1, []) == st1;
      if rs[0] !in st.marked {
        QueueKeepsQueued(st.(scanned := st.scanned + 1, marked := st.marked + {rs[0]}, log := st.log + [rs[0]]), g[rs[0]]);
      }
      assert rs == [rs[0]] + rs[1..];
      ScanKeepsQueued(g, st1, rs[1..], r);
    }
  }

  lemma {:induction false} QueueKeepsQueued<T>(st: Tracing<T>, rs: seq<T>)
    ensures forall s :: s in st.queue ==> s in QueueRefs(st, rs).queue
    ensures QueueRefs(st, rs).marked == st.marked
    decreases |rs|
  {
    if rs != [] {
      QueueKeepsQueued(QueueRef(st, rs[0]), rs[1..]);
    }
  }

  /** The smallest heap that shows it: one object, queued, whose class is its own class.
      The class stays unmarked. */
  lemma ClassOfLoneRootIsMissed()
    ensures var g: Graph<nat> := map[0 := [1], 1 := [1]];
      var st := Tracing({}, [[0]], None, 0, []);
      && Ready(g, st) && Unmarked(g, st) && Queued(st) == {0}
      && InUse(g, st, 1) && ScanHeap(g, st).marked == {0}
  {
    var g: Graph<nat> := map[0 := [1], 1 := [1]];
    var st := Tracing({}, [[0]], None, 0, []);
    assert Queued(st) == {0} by { assert 0 in [0] && [0] in st.queue; }
    RootReach(g, {0}, 0);
    EdgeReach(g, {0}, 0, 1);
    assert [0][..0] == [];
    assert RefCount(g, [0]) == RefCount(g, [0][..0]) + |g[0]| == 1;
    SmallScanMarksQueued(g, [0], st);
  }
}
