/** What earlier periods left in the current segment is scanned exactly when the segment
    overfills, and then what was garbage among it is marked too. */
module MarkSound {
  import opened Graphs
  import opened MarkProof
  import opened MarkSmall
  import opened MarkSpec
  import opened Sequences

  /** Each element of the set, listed once. */
  ghost predicate Lists<T>(all: seq<T>, s: set<T>) {
    Distinct(all) && (forall x :: x in all ==> x in s) && forall x :: x in s ==> x in all
  }

  /** The current segment has room for all that the queued objects refer to. */
  ghost predicate HasRoom<T>(g: Graph<T>, all: seq<T>, st: Tracing<T>)
    requires Ready(g, st) && Lists(all, Queued(st))
  {
    SourcesPend(g, st);
    |Leftover(st)| + RefCount(g, all) <= SEGMENT_SIZE
  }

  // ----- with nothing but objects in use to scan

  /** What is marked, or will be, was marked at the start or belongs to the set. */
  ghost predicate Stays<T>(g: Graph<T>, own: set<T>, s0: Tracing<T>, st: Tracing<T>, rest: seq<T>) {
    && s0.marked <= st.marked
    && (forall x :: x in st.marked ==> x in s0.marked || x in own)
    && (forall r :: r in g && (Pending(st, r) || r in rest) ==> r in own || r in s0.marked)
  }

  lemma {:induction false} ScanRefsStay<T>(g: Graph<T>, own: set<T>, s0: Tracing<T>, st: Tracing<T>, rest: seq<T>)
    requires forall r :: r in rest ==> r in g
    requires (forall x, r :: x in own && x in g && r in g[x] ==> r in own) && Stays(g, own, s0, st, rest)
    ensures Stays(g, own, s0, ScanRefs(g, st, rest), [])
    decreases |rest|
  {
    hide Pending;
    if rest != [] {
      var r := rest[0];
      var mid := st.(scanned := st.scanned + 1, marked := st.marked + {r}, log := st.log + [r]);
      assert forall x :: x in rest <==> x == r || x in rest[1..];
      SamePending(st, mid);
      SamePending(st, st.(scanned := st.scanned + 1));
      QueueRefsPending(mid, g[r]);
      ScanRefsStay(g, own, s0, ScanRef(g, st, r), rest[1..]);
    }
  }

  lemma SamePending<T>(a: Tracing<T>, b: Tracing<T>)
    requires a.queue == b.queue && a.current == b.current
    ensures forall r :: Pending(a, r) <==> Pending(b, r)
  {}

  lemma {:induction false} ScanHeapStays<T>(g: Graph<T>, own: set<T>, s0: Tracing<T>, st: Tracing<T>)
    requires Closed(g) && InGraph(g, st)
    requires (forall x, r :: x in own && x in g && r in g[x] ==> r in own) && Stays(g, own, s0, st, [])
    ensures Stays(g, own, s0, ScanHeap(g, st), [])
    decreases |g.Keys - st.marked|, |st.queue|
  {
    hide InGraph, ScanRefs, Pending;
    if st.queue != [] {
      ScanStepShrinks(g, st);
      StealPending(st);
      ScanRefsStay(g, own, s0, st.(queue := st.queue[1..]), st.queue[0]);
      ScanHeapStays(g, own, s0, ScanRefs(g, st.(queue := st.queue[1..]), st.queue[0]));
    }
  }

  // ----- when the segment overfills

  /** Each of these references is marked, or in a segment that will be scanned. */
  ghost predicate HandedOn<T>(rs: seq<T>, st: Tracing<T>) {
    forall r :: r in rs ==> r in st.marked || exists s :: s in st.queue && r in s
  }

  /** The segment at hand is still the one of the start, with all that was found since in it. */
  ghost predicate Holds<T>(g: Graph<T>, s0: Tracing<T>, st: Tracing<T>) {
    && (forall x :: x in Since(s0, st) ==> x in g)
    && Leftover(s0) <= Leftover(st) && |Leftover(st)| == |Leftover(s0)| + RefCount(g, Since(s0, st))
  }

  lemma {:induction false} QueueRefsHandOn<T>(st: Tracing<T>, rs: seq<T>)
    requires Bounded(st)
    ensures Leftover(QueueRefs(st, rs)) == Leftover(st) + rs || HandedOn(Leftover(st), QueueRefs(st, rs))
    decreases |rs|
  {
    if rs != [] {
      var st1 := QueueRef(st, rs[0]);
      if |Leftover(st)| < SEGMENT_SIZE {
        assert Leftover(st1) == Leftover(st) + [rs[0]];
        QueueRefsHandOn(st1, rs[1..]);
        assert rs == [rs[0]] + rs[1..];
        assert Leftover(st1) + rs[1..] == Leftover(st) + rs;
        assert forall r :: r in Leftover(st) ==> r in Leftover(st1);
      } else {
        assert st1.queue[0] == Leftover(st) && st1.queue[0] in st1.queue;
        QueueKeepsQueued(st1, rs[1..]);
      }
    }
  }

  lemma ScanRefHandsOn<T>(g: Graph<T>, roots: set<T>, s0: Tracing<T>, st: Tracing<T>, rest: seq<T>)
    requires Closed(g) && rest != [] && Inv(g, roots, s0, st, rest) && Holds(g, s0, st)
    ensures Holds(g, s0, ScanRef(g, st, rest[0])) || HandedOn(Leftover(s0), ScanRef(g, st, rest[0]))
  {
    hide Inv, InGraph, Bounded, Pending, Since, ScanRef, RefCount, QueueRefs, Closed, Leftover;
    var r := rest[0];
    InvFacts(g, roots, s0, st, rest);
    SameWhenMarked(g, s0, st, r);
    if r !in st.marked {
      var st' := MarkStep(g, s0, st, r);
      RefCountSnoc(g, Since(s0, st), r);
      var mid := st.(scanned := st.scanned + 1, marked := st.marked + {r}, log := st.log + [r]);
      SameSegments(st, mid);
      QueueRefsHandOn(mid, g[r]);
    }
  }

  lemma {:induction false} ScanRefsHandOn<T>(g: Graph<T>, roots: set<T>, s0: Tracing<T>, st: Tracing<T>, rest: seq<T>)
    requires Closed(g) && Inv(g, roots, s0, st, rest) && Holds(g, s0, st)
    ensures (forall r :: r in rest ==> r in g)
    ensures Holds(g, s0, ScanRefs(g, st, rest)) || HandedOn(Leftover(s0), ScanRefs(g, st, rest))
    decreases |rest|
  {
    hide Inv, Reach, ScanRef, Holds, InGraph;
    InvFacts(g, roots, s0, st, rest);
    if rest != [] {
      var st1 := ScanRef(g, st, rest[0]);
      if rest[0] in st.marked {
        MarkedKeepsInv(g, roots, s0, st, rest);
      } else {
        NewMarkKeepsInv(g, roots, s0, st, rest);
      }
      ScanRefHandsOn(g, roots, s0, st, rest);
      InvFacts(g, roots, s0, st1, rest[1..]);
      if Holds(g, s0, st1) {
        ScanRefsHandOn(g, roots, s0, st1, rest[1..]);
      } else {
        forall r | r in Leftover(s0)
          ensures r in ScanRefs(g, st1, rest[1..]).marked || exists s :: s in ScanRefs(g, st1, rest[1..]).queue && r in s
        {
          ScanKeepsQueued(g, st1, rest[1..], r);
        }
      }
    }
  }

  lemma {:induction false} ScanHeapHandsOn<T>(g: Graph<T>, roots: set<T>, s0: Tracing<T>, st: Tracing<T>)
    requires Closed(g) && InGraph(g, st) && Inv(g, roots, s0, st, []) && Holds(g, s0, st)
    ensures Holds(g, s0, ScanHeap(g, st)) || forall r :: r in Leftover(s0) ==> r in ScanHeap(g, st).marked
    decreases |g.Keys - st.marked|, |st.queue|
  {
    hide Inv, InGraph, ScanRefs, RefCount, Leftover;
    if st.queue != [] {
      var st1 := st.(queue := st.queue[1..]);
      StealKeepsInv(g, roots, s0, st);
      ScanStepShrinks(g, st);
      StealHolds(g, s0, st);
      ScanRefsHandOn(g, roots, s0, st1, st.queue[0]);
      ScanRefsKeepsInv(g, roots, s0, st1, st.queue[0]);
      var st2 := ScanRefs(g, st1, st.queue[0]);
      if Holds(g, s0, st2) {
        ScanHeapHandsOn(g, roots, s0, st2);
      } else {
        forall r | r in Leftover(s0) ensures r in ScanHeap(g, st2).marked {
          QueuedGetsMarked(g, st2, r);
        }
      }
    }
  }

  lemma StealHolds<T>(g: Graph<T>, s0: Tracing<T>, st: Tracing<T>)
    requires Holds(g, s0, st) && st.queue != []
    ensures Holds(g, s0, st.(queue := st.queue[1..]))
  {
    assert Since(s0, st.(queue := st.queue[1..])) == Since(s0, st);
  }

  /** Without room, all that earlier periods left gets scanned. */
  lemma LeftoversGetMarked<T>(g: Graph<T>, all: seq<T>, st: Tracing<T>)
    requires Ready(g, st) && Unmarked(g, st) && Lists(all, Queued(st)) && !HasRoom(g, all, st)
    ensures forall r :: r in Leftover(st) ==> r in ScanHeap(g, st).marked
  {
    hide Distinct;
    var end := ScanHeap(g, st);
    ReadyIsInv(g, st);
    assert Since(st, st) == [];
    ScanHeapHandsOn(g, Sources(st), st, st);
    BoundedWork(g, st);
    AllQueuedGetMarked(g, st);
    forall x | x in all ensures x in Since(st, end) {
      RootReach(g, Queued(st), x);
    }
    RefCountMonotone(g, all, Since(st, end));
  }

  // ----- exact conditions

  /** The scan marks only what is in use if and only if there is room in the current segment for
      all that the queued objects refer to, or each reference left there by earlier periods is
      in use or carries the live mark already. Both can be told before it starts. */
  lemma SoundIff<T>(g: Graph<T>, all: seq<T>, st: Tracing<T>)
    requires Ready(g, st) && Unmarked(g, st) && Lists(all, Queued(st))
    ensures (forall x :: x in ScanHeap(g, st).marked - st.marked ==> InUse(g, st, x))
       <==> HasRoom(g, all, st) || forall r :: r in Leftover(st) ==> r in st.marked || InUse(g, st, r)
  {
    hide Distinct, RefCount;
    SourcesPend(g, st);
    if HasRoom(g, all, st) {
      SmallScanMarksQueued(g, all, st);
      forall x | x in Queued(st) ensures InUse(g, st, x) {
        RootReach(g, Queued(st), x);
      }
    } else if forall r :: r in Leftover(st) ==> r in st.marked || InUse(g, st, r) {
      OnlyInUse(g, st);
    } else {
      LeftoversGetMarked(g, all, st);
    }
  }

  lemma OnlyInUse<T>(g: Graph<T>, st: Tracing<T>)
    requires Ready(g, st) && forall r :: r in Leftover(st) ==> r in st.marked || InUse(g, st, r)
    ensures forall x :: x in ScanHeap(g, st).marked - st.marked ==> InUse(g, st, x)
  {
    SourcesPend(g, st);
    var own := set x | x in g && InUse(g, st, x);
    forall x, r | x in own && x in g && r in g[x] ensures r in own {
      EdgeReach(g, Queued(st), x, r);
    }
    forall r | r in Queued(st) ensures r in own {
      RootReach(g, Queued(st), r);
    }
    ScanHeapStays(g, own, st, st);
  }

  lemma ExactIsBoth<T>(g: Graph<T>, st: Tracing<T>, marked: set<T>)
    requires Unmarked(g, st)
    ensures (forall x :: x in marked - st.marked <==> InUse(g, st, x))
       <==> (forall x :: x in marked - st.marked ==> InUse(g, st, x)) && (forall x :: InUse(g, st, x) ==> x in marked)
  {
    hide InUse;
    if forall x :: x in marked - st.marked <==> InUse(g, st, x) {
      forall x | InUse(g, st, x) ensures x in marked {
        assert x in marked - st.marked;
      }
    }
  }

  /** Marking is exact if and only if it is sound, as above, and every leftover in use at the end
      is marked. */
  lemma ExactIff<T>(g: Graph<T>, all: seq<T>, st: Tracing<T>)
    requires Ready(g, st) && Unmarked(g, st) && Lists(all, Queued(st))
    ensures (forall x :: x in ScanHeap(g, st).marked - st.marked <==> InUse(g, st, x)) <==>
      && (HasRoom(g, all, st) || forall r :: r in Leftover(st) ==> r in st.marked || InUse(g, st, r))
      && (forall r :: r in Leftover(ScanHeap(g, st)) && InUse(g, st, r) ==> r in ScanHeap(g, st).marked)
  {
    hide InUse, HasRoom, Lists;
    SoundIff(g, all, st);
    CompleteUnlessLeftover(g, st);
    ExactIsBoth(g, st, ScanHeap(g, st).marked);
  }

  /** With a closed queue, of whatever size, exactness can be told beforehand too. */
  lemma ClosedQueueExactIff<T>(g: Graph<T>, all: seq<T>, st: Tracing<T>)
    requires Ready(g, st) && Unmarked(g, st) && QueueIsClosed(g, st) && Lists(all, Queued(st))
    ensures (forall x :: x in ScanHeap(g, st).marked - st.marked <==> InUse(g, st, x)) <==>
      HasRoom(g, all, st) || forall r :: r in Leftover(st) ==> r in st.marked || r in Queued(st)
  {
    hide InUse, HasRoom, Lists;
    SoundIff(g, all, st);
    ClosedQueueIsComplete(g, st);
    ClosedQueueInUse(g, st);
    ExactIsBoth(g, st, ScanHeap(g, st).marked);
  }
}
