/** What tracing achieves: it marks only what its sources lead to, leaves no marked object with
    a forgotten reference, does bounded work, and marks all that is in use exactly when no
    reference in use is left unmarked in the current segment. */
module MarkProof {
  import opened Options
  import opened Sequences
  import opened Graphs
  import opened MarkSpec

  // ----- counting

  function Flatten<T>(queue: seq<seq<T>>): nat {
    if queue == [] then 0 else |queue[0]| + Flatten(queue[1..])
  }

  /** How many references wait to be scanned. */
  function Waiting<T>(st: Tracing<T>): nat {
    Flatten(st.queue) + if st.current.Some? then |st.current.value| else 0
  }

  /** How many references the listed objects hold. */
  function RefCount<T>(g: Graph<T>, objs: seq<T>): nat
    requires forall x :: x in objs ==> x in g
  {
    if objs == [] then 0 else RefCount(g, objs[..|objs| - 1]) + |g[objs[|objs| - 1]]|
  }

  predicate Bounded<T>(st: Tracing<T>) {
    && (forall s :: s in st.queue ==> |s| <= SEGMENT_SIZE)
    && (st.current.Some? ==> |st.current.value| <= SEGMENT_SIZE)
  }

  lemma {:induction false} QueueRefsCount<T>(st: Tracing<T>, rs: seq<T>)
    requires Bounded(st)
    ensures Waiting(QueueRefs(st, rs)) == Waiting(st) + |rs| && Bounded(QueueRefs(st, rs))
    decreases |rs|
  {
    if rs != [] {
      var st1 := QueueRef(st, rs[0]);
      if st.current.Some? && |st.current.value| >= SEGMENT_SIZE {
        assert st1.queue[1..] == st.queue;
        assert forall s :: s in st1.queue ==> s == st.current.value || s in st.queue;
      }
      QueueRefsCount(st1, rs[1..]);
    }
  }

  // ----- the invariant of tracing

  /** The objects marked since s0. */
  function Since<T>(s0: Tracing<T>, st: Tracing<T>): seq<T> {
    if |s0.log| <= |st.log| then st.log[|s0.log|..] else []
  }

  ghost predicate MarksLogged<T>(g: Graph<T>, s0: Tracing<T>, st: Tracing<T>) {
    && s0.log <= st.log && Distinct(Since(s0, st))
    && (forall x :: x in Since(s0, st) ==> x in g && x !in s0.marked)
    && st.marked == s0.marked + (set x | x in Since(s0, st))
  }

  /** A reference seen is marked, or still waits to be scanned. */
  ghost predicate Kept<T>(st: Tracing<T>, rest: seq<T>, r: T) {
    r in st.marked || Pending(st, r) || r in rest
  }

  ghost predicate NothingLost<T>(g: Graph<T>, roots: set<T>, s0: Tracing<T>, st: Tracing<T>, rest: seq<T>) {
    && (forall x, r :: x in Since(s0, st) && x in g && r in g[x] ==> Kept(st, rest, r))
    && (forall r :: r in roots ==> Kept(st, rest, r))
  }

  ghost predicate OnlyReachable<T>(g: Graph<T>, roots: set<T>, s0: Tracing<T>, st: Tracing<T>, rest: seq<T>) {
    && (forall x :: x in Since(s0, st) ==> Reach(g, roots, x))
    && (forall r :: r in g && (Pending(st, r) || r in rest) ==> Reach(g, roots, r))
  }

  ghost predicate Counted<T>(g: Graph<T>, s0: Tracing<T>, st: Tracing<T>, rest: seq<T>) {
    && (forall x :: x in Since(s0, st) ==> x in g)
    && s0.scanned <= st.scanned
    && (st.scanned - s0.scanned) + Waiting(st) + |rest| == Waiting(s0) + RefCount(g, Since(s0, st))
  }

  /** rest is what remains of the segment being scanned; s0 is the state at the start. */
  ghost predicate Inv<T>(g: Graph<T>, roots: set<T>, s0: Tracing<T>, st: Tracing<T>, rest: seq<T>) {
    && InGraph(g, st) && Bounded(st) && (forall r :: r in rest ==> r in g)
    && MarksLogged(g, s0, st)
    && NothingLost(g, roots, s0, st, rest)
    && OnlyReachable(g, roots, s0, st, rest)
    && Counted(g, s0, st, rest)
  }

  lemma MarkedKeepsInv<T>(g: Graph<T>, roots: set<T>, s0: Tracing<T>, st: Tracing<T>, rest: seq<T>)
    requires Closed(g) && rest != [] && Inv(g, roots, s0, st, rest) && rest[0] in st.marked
    ensures Inv(g, roots, s0, ScanRef(g, st, rest[0]), rest[1..])
  {
    hide Bounded, Distinct, RefCount, Reach;
    var st' := ScanRef(g, st, rest[0]);
    assert Bounded(st') by { SameSegments(st, st'); }
    assert forall r :: r in rest <==> r == rest[0] || r in rest[1..];
    assert forall r :: Pending(st', r) <==> Pending(st, r);
    assert forall r :: Kept(st, rest, r) ==> Kept(st', rest[1..], r);
    assert Since(s0, st') == Since(s0, st);
    assert Waiting(st') == Waiting(st);
  }

  lemma SameSegments<T>(a: Tracing<T>, b: Tracing<T>)
    requires a.queue == b.queue && a.current == b.current
    ensures Bounded(a) <==> Bounded(b)
  {}

  /** What marking r and queueing its references does. */
  lemma MarkStep<T>(g: Graph<T>, s0: Tracing<T>, st: Tracing<T>, r: T) returns (st': Tracing<T>)
    requires Closed(g) && r in g && r !in st.marked && InGraph(g, st) && Bounded(st) && s0.log <= st.log
    ensures st' == ScanRef(g, st, r) && InGraph(g, st') && Bounded(st')
    ensures st'.marked == st.marked + {r} && st'.scanned == st.scanned + 1 && Waiting(st') == Waiting(st) + |g[r]|
    ensures st'.log == st.log + [r] && Since(s0, st') == Since(s0, st) + [r]
    ensures forall x :: Pending(st', x) <==> Pending(st, x) || x in g[r]
  {
    var mid := st.(scanned := st.scanned + 1, marked := st.marked + {r}, log := st.log + [r]);
    st' := ScanRef(g, st, r);
    QueueRefsPending(mid, g[r]);
    QueueRefsInGraph(g, mid, g[r]);
    QueueRefsCount(mid, g[r]);
    assert forall x :: Pending(mid, x) <==> Pending(st, x);
    assert Waiting(mid) == Waiting(st);
  }

  lemma NewMarkKeepsInv<T>(g: Graph<T>, roots: set<T>, s0: Tracing<T>, st: Tracing<T>, rest: seq<T>)
    requires Closed(g) && rest != [] && Inv(g, roots, s0, st, rest) && rest[0] !in st.marked
    ensures Inv(g, roots, s0, ScanRef(g, st, rest[0]), rest[1..])
  {
    hide InGraph, Bounded, Waiting, Pending, Since, ScanRef;
    var st' := MarkStep(g, s0, st, rest[0]);
    assert forall r :: r in rest <==> r == rest[0] || r in rest[1..];
    assert forall x :: x in Since(s0, st') <==> x in Since(s0, st) || x == rest[0];
    assert MarksLogged(g, s0, st') by { hide NothingLost, OnlyReachable, Counted; }
    assert NothingLost(g, roots, s0, st', rest[1..]) by {
      hide MarksLogged, OnlyReachable, Counted, Reach;
      assert forall r :: Kept(st, rest, r) ==> Kept(st', rest[1..], r);
    }
    assert OnlyReachable(g, roots, s0, st', rest[1..]) by {
      hide MarksLogged, NothingLost, Counted, Reach;
      forall r | r in g[rest[0]] ensures Reach(g, roots, r) {
        EdgeReach(g, roots, rest[0], r);
      }
    }
    assert Counted(g, s0, st', rest[1..]) by {
      hide NothingLost, OnlyReachable, Reach;
      assert Since(s0, st')[..|Since(s0, st')| - 1] == Since(s0, st);
    }
  }

  lemma {:induction false} ScanRefsKeepsInv<T>(g: Graph<T>, roots: set<T>, s0: Tracing<T>, st: Tracing<T>, rest: seq<T>)
    requires Closed(g) && Inv(g, roots, s0, st, rest)
    ensures Inv(g, roots, s0, ScanRefs(g, st, rest), [])
    decreases |rest|
  {
    hide Inv, ScanRef;
    if rest != [] {
      InvBounds(g, roots, s0, st, rest);
      if rest[0] in st.marked {
        MarkedKeepsInv(g, roots, s0, st, rest);
      } else {
        NewMarkKeepsInv(g, roots, s0, st, rest);
      }
      ScanRefsKeepsInv(g, roots, s0, ScanRef(g, st, rest[0]), rest[1..]);
    } else {
      assert rest == [];
      InvBounds(g, roots, s0, st, rest);
    }
  }

  lemma InvBounds<T>(g: Graph<T>, roots: set<T>, s0: Tracing<T>, st: Tracing<T>, rest: seq<T>)
    requires Inv(g, roots, s0, st, rest)
    ensures InGraph(g, st) && forall r :: r in rest ==> r in g
  {}

  lemma StealKeepsInv<T>(g: Graph<T>, roots: set<T>, s0: Tracing<T>, st: Tracing<T>)
    requires Inv(g, roots, s0, st, []) && st.queue != []
    ensures Inv(g, roots, s0, st.(queue := st.queue[1..]), st.queue[0])
  {
    hide Distinct, RefCount, Reach;
    var st' := st.(queue := st.queue[1..]);
    assert st.queue == [st.queue[0]] + st'.queue;
    assert forall s :: s in st.queue <==> s == st.queue[0] || s in st'.queue;
    assert st.queue[0] in st.queue;
    StealPending(st);
    assert forall r :: Kept(st, [], r) ==> Kept(st', st.queue[0], r);
    assert Since(s0, st') == Since(s0, st);
    assert Waiting(st) == Waiting(st') + |st.queue[0]|;
  }

  lemma StealPending<T>(st: Tracing<T>)
    requires st.queue != []
    ensures forall r :: Pending(st, r) <==> Pending(st.(queue := st.queue[1..]), r) || r in st.queue[0]
  {
    var st' := st.(queue := st.queue[1..]);
    assert st.queue == [st.queue[0]] + st'.queue;
    assert forall s :: s in st.queue <==> s == st.queue[0] || s in st'.queue;
  }

  lemma {:induction false} ScanHeapKeepsInv<T>(g: Graph<T>, roots: set<T>, s0: Tracing<T>, st: Tracing<T>)
    requires Closed(g) && Inv(g, roots, s0, st, [])
    ensures InGraph(g, st) && Inv(g, roots, s0, ScanHeap(g, st), []) && ScanHeap(g, st).queue == []
    decreases |g.Keys - st.marked|, |st.queue|
  {
    hide Inv, InGraph, ScanRefs;
    InvBounds(g, roots, s0, st, []);
    if st.queue != [] {
      StealKeepsInv(g, roots, s0, st);
      ScanStepShrinks(g, st);
      ScanRefsKeepsInv(g, roots, s0, st.(queue := st.queue[1..]), st.queue[0]);
      ScanHeapKeepsInv(g, roots, s0, ScanRefs(g, st.(queue := st.queue[1..]), st.queue[0]));
    }
  }

  // ----- a whole scan

  /** A state from which the collector may start to scan. */
  ghost predicate Ready<T>(g: Graph<T>, st: Tracing<T>) {
    Closed(g) && InGraph(g, st) && Bounded(st)
  }

  /** The references in the segments of the global queue: when a scan starts, the program's roots. */
  ghost function Queued<T>(st: Tracing<T>): set<T> {
    set s, r | s in st.queue && r in s :: r
  }

  /** The references in the current segment: at the start those that earlier periods left there,
      at the end those that this one leaves. */
  function Leftover<T>(st: Tracing<T>): seq<T> {
    if st.current.Some? then st.current.value else []
  }

  /** All that tracing can start from. */
  ghost function Sources<T>(st: Tracing<T>): set<T> {
    Queued(st) + set r | r in Leftover(st)
  }

  /** The program can reach this object from its roots. */
  ghost predicate InUse<T>(g: Graph<T>, st: Tracing<T>, x: T) {
    Reach(g, Queued(st), x)
  }

  /** No object in use carries the live mark yet. */
  ghost predicate Unmarked<T>(g: Graph<T>, st: Tracing<T>) {
    forall x :: x in st.marked ==> !InUse(g, st, x)
  }

  lemma SourcesPend<T>(g: Graph<T>, st: Tracing<T>)
    requires Ready(g, st)
    ensures Queued(st) <= Sources(st) <= g.Keys
    ensures forall r :: Pending(st, r) <==> r in Sources(st)
  {
    forall r ensures Pending(st, r) <==> r in Sources(st) {}
    forall r | Pending(st, r) ensures r in g {}
  }

  lemma ReadyIsInv<T>(g: Graph<T>, st: Tracing<T>)
    requires Ready(g, st)
    ensures Inv(g, Sources(st), st, st, [])
  {
    SourcesPend(g, st);
    assert Since(st, st) == [];
    forall r | Pending(st, r) ensures Reach(g, Sources(st), r) {
      RootReach(g, Sources(st), r);
    }
  }

  /** Only what the roots or the leftovers of earlier periods lead to becomes marked. */
  lemma MarksOnlyTraceable<T>(g: Graph<T>, st: Tracing<T>)
    requires Ready(g, st)
    ensures var end := ScanHeap(g, st);
      && st.marked <= end.marked && end.queue == []
      && forall x :: x in end.marked && x !in st.marked ==> Reach(g, Sources(st), x)
  {
    ReadyIsInv(g, st);
    ScanHeapKeepsInv(g, Sources(st), st, st);
  }

  /** Every object marked by the scan has each of its references marked or left over, and
      so has every reference that was queued at the start. */
  lemma NothingForgotten<T>(g: Graph<T>, st: Tracing<T>)
    requires Ready(g, st)
    ensures var end := ScanHeap(g, st);
      && (forall x :: x in end.marked && x !in st.marked ==>
            x in g && forall r :: r in g[x] ==> r in end.marked || r in Leftover(end))
      && (forall r :: r in Sources(st) ==> r in end.marked || r in Leftover(end))
  {
    ReadyIsInv(g, st);
    ScanHeapKeepsInv(g, Sources(st), st, st);
    var end := ScanHeap(g, st);
    assert forall x :: x in end.marked && x !in st.marked ==> x in Since(st, end);
    assert forall r :: Kept(end, [], r) ==> r in end.marked || r in Leftover(end);
    assert forall r :: Pending(end, r) <==> r in Leftover(end);
  }

  /** An object in use that the scan did not mark is reachable from a leftover that is itself in
      use and not marked. */
  lemma MissedIsBehindLeftover<T>(g: Graph<T>, st: Tracing<T>, x: T)
    requires Ready(g, st) && Unmarked(g, st) && InUse(g, st, x)
    ensures var end := ScanHeap(g, st);
      x in end.marked || Reach(g, (set r | r in Leftover(end) && InUse(g, st, r) && r !in end.marked), x)
  {
    MarksOnlyTraceable(g, st);
    NothingForgotten(g, st);
    var n: nat :| ReachIn(g, Queued(st), x, n);
    MissedIn(g, st, ScanHeap(g, st), x, n);
  }

  lemma {:induction false} MissedIn<T>(g: Graph<T>, st: Tracing<T>, end: Tracing<T>, x: T, n: nat)
    requires Unmarked(g, st) && ReachIn(g, Queued(st), x, n)
    requires forall x, r :: x in end.marked && x !in st.marked && x in g && r in g[x] ==> r in end.marked || r in Leftover(end)
    requires forall r :: r in Sources(st) ==> r in end.marked || r in Leftover(end)
    ensures x in end.marked || Reach(g, (set r | r in Leftover(end) && InUse(g, st, r) && r !in end.marked), x)
    decreases n
  {
    var missed := set r | r in Leftover(end) && InUse(g, st, r) && r !in end.marked;
    assert InUse(g, st, x);
    if n == 0 {
      if x !in end.marked {
        RootReach(g, missed, x);
      }
    } else {
      var y :| y in g && ReachIn(g, Queued(st), y, n - 1) && x in g[y];
      MissedIn(g, st, end, y, n - 1);
      if y in end.marked {
        assert InUse(g, st, y);
        if x !in end.marked {
          RootReach(g, missed, x);
        }
      } else {
        EdgeReach(g, missed, y, x);
      }
    }
  }

  /** The scan marks all that is in use exactly when every leftover in use happens to be marked;
      nothing in this period scans the leftovers themselves. */
  lemma CompleteUnlessLeftover<T>(g: Graph<T>, st: Tracing<T>)
    requires Ready(g, st) && Unmarked(g, st)
    ensures var end := ScanHeap(g, st);
      (forall x :: InUse(g, st, x) ==> x in end.marked) <==> (forall r :: r in Leftover(end) && InUse(g, st, r) ==> r in end.marked)
  {
    var end := ScanHeap(g, st);
    if forall r :: r in Leftover(end) && InUse(g, st, r) ==> r in end.marked {
      forall x | InUse(g, st, x) ensures x in end.marked {
        MissedIsBehindLeftover(g, st, x);
        NothingBehindNone(g, set r | r in Leftover(end) && InUse(g, st, r) && r !in end.marked);
      }
    }
  }

  lemma NothingBehindNone<T>(g: Graph<T>, none: set<T>)
    requires none == {}
    ensures forall x :: !Reach(g, none, x)
  {
    forall x ensures !Reach(g, none, x) {
      if n: nat :| ReachIn(g, none, x, n) {
        ClosedSetHolds(g, none, {}, x, n);
      }
    }
  }

  /** Work: no object's references are queued twice, no segment overfills, and every
      reference that was queued at the start or found during the scan is scanned or left. */
  lemma BoundedWork<T>(g: Graph<T>, st: Tracing<T>)
    requires Ready(g, st)
    ensures var end := ScanHeap(g, st);
      && st.log <= end.log && Distinct(Since(st, end)) && Bounded(end) && st.scanned <= end.scanned
      && (forall x :: x in Since(st, end) <==> x in end.marked && x !in st.marked)
      && (forall x :: x in Since(st, end) ==> x in g)
      && (end.scanned - st.scanned) + |Leftover(end)| == Waiting(st) + RefCount(g, Since(st, end))
  {
    ReadyIsInv(g, st);
    ScanHeapKeepsInv(g, Sources(st), st, st);
  }

  // ----- queueing roots

  /** What a thread does with the roots of one stack frame: it fills segments of its own
      and puts each of them, the last one too, on the global queue. */
  function CollectRoots<T>(st: Tracing<T>, roots: seq<T>): Tracing<T> {
    var t := QueueRefs(st.(current := None), roots);
    st.(queue := if t.current.Some? then [t.current.value] + t.queue else t.queue)
  }

  /** Every root waits to be scanned afterwards, nothing else is added, and no segment overfills. */
  lemma RootsBecomePending<T>(st: Tracing<T>, roots: seq<T>, r: T)
    requires Bounded(st)
    ensures Pending(CollectRoots(st, roots), r) <==> Pending(st, r) || r in roots
    ensures Bounded(CollectRoots(st, roots)) && Waiting(CollectRoots(st, roots)) == Waiting(st) + |roots|
  {
    var mine := st.(current := None);
    var t := QueueRefs(mine, roots);
    QueueRefsPending(mine, roots);
    QueueRefsCount(mine, roots);
    var end := CollectRoots(st, roots);
    if t.current.Some? {
      assert end.queue[1..] == t.queue;
      assert forall s :: s in end.queue <==> s == t.current.value || s in t.queue;
    }
    assert Pending(end, r) <==> Pending(t, r) || (st.current.Some? && r in st.current.value);
  }
}
