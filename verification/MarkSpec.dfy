/** The tracing phase as a function: what the collector's queue of references and its
    set of marked objects go through.  GcState.dfy does this in place. */
module MarkSpec {
  import opened Options
  import opened Graphs

  const SEGMENT_SIZE: nat := 200

  /** marked: the objects that carry the live mark; queue: the contents of the segments
      on the global queue; current: the segment being filled, if there is one; scanned:
      how many references were taken from segments; log: the objects marked, in order. */
  datatype Tracing<T> = Tracing(marked: set<T>, queue: seq<seq<T>>, current: Option<seq<T>>, scanned: nat, log: seq<T>)

  // ----- the steps

  /** Queue a reference, moving the current segment to the global queue when it is full. */
  function QueueRef<T>(st: Tracing<T>, r: T): Tracing<T> {
    if st.current.None? then st.(current := Some([r]))
    else if |st.current.value| < SEGMENT_SIZE then st.(current := Some(st.current.value + [r]))
    else st.(queue := [st.current.value] + st.queue, current := Some([r]))
  }

  function QueueRefs<T>(st: Tracing<T>, rs: seq<T>): Tracing<T>
    decreases |rs|
  {
    if rs == [] then st else QueueRefs(QueueRef(st, rs[0]), rs[1..])
  }

  /** Mark an object not marked yet and queue the references it holds. */
  function ScanRef<T(==)>(g: Graph<T>, st: Tracing<T>, r: T): Tracing<T>
    requires r in g
  {
    var st' := st.(scanned := st.scanned + 1);
    if r in st.marked then st' else QueueRefs(st'.(marked := st.marked + {r}, log := st.log + [r]), g[r])
  }

  function ScanRefs<T(==)>(g: Graph<T>, st: Tracing<T>, rs: seq<T>): Tracing<T>
    requires forall r :: r in rs ==> r in g
    decreases |rs|
  {
    if rs == [] then st else ScanRefs(g, ScanRef(g, st, rs[0]), rs[1..])
  }

  /** Take segments off the queue and scan them until there is none. */
  function ScanHeap<T(==)>(g: Graph<T>, st: Tracing<T>): Tracing<T>
    requires Closed(g) && InGraph(g, st)
    decreases |g.Keys - st.marked|, |st.queue|
  {
    if st.queue == [] then st else
      ScanStepShrinks(g, st);
      var st' := ScanRefs(g, st.(queue := st.queue[1..]), st.queue[0]);
      ScanHeap(g, st')
  }

  // ----- pending references

  ghost predicate InGraph<T>(g: Graph<T>, st: Tracing<T>) {
    && (forall s, r :: s in st.queue && r in s ==> r in g)
    && (st.current.Some? ==> forall r :: r in st.current.value ==> r in g)
    && (forall r :: r in st.marked ==> r in g)
  }

  /** A reference that waits to be scanned. */
  ghost predicate Pending<T>(st: Tracing<T>, r: T) {
    (exists s :: s in st.queue && r in s) || (st.current.Some? && r in st.current.value)
  }

  lemma QueueRefPending<T>(st: Tracing<T>, r: T)
    ensures forall x :: Pending(QueueRef(st, r), x) <==> Pending(st, x) || x == r
  {
    var st' := QueueRef(st, r);
    if st.current.Some? {
      forall x ensures Pending(st', x) <==> Pending(st, x) || x == r {
        if |st.current.value| < SEGMENT_SIZE {
          assert st'.queue == st.queue;
        } else {
          assert forall s :: s in st'.queue <==> s == st.current.value || s in st.queue;
        }
      }
    }
  }

  lemma {:induction false} QueueRefsPending<T>(st: Tracing<T>, rs: seq<T>)
    ensures var st' := QueueRefs(st, rs);
      && st'.marked == st.marked && st'.scanned == st.scanned && st'.log == st.log
      && forall x :: Pending(st', x) <==> Pending(st, x) || x in rs
    decreases rs
  {
    if rs != [] {
      QueueRefPending(st, rs[0]);
      QueueRefsPending(QueueRef(st, rs[0]), rs[1..]);
      assert forall x :: x in rs <==> x == rs[0] || x in rs[1..];
    }
  }

  lemma {:induction false} QueueRefsInGraph<T>(g: Graph<T>, st: Tracing<T>, rs: seq<T>)
    requires InGraph(g, st) && forall r :: r in rs ==> r in g
    ensures InGraph(g, QueueRefs(st, rs))
    decreases rs
  {
    if rs != [] {
      var st1 := QueueRef(st, rs[0]);
      assert rs[0] in rs;
      assert forall s :: s in st1.queue ==> s in st.queue || (st.current.Some? && s == st.current.value);
      QueueRefsInGraph(g, st1, rs[1..]);
    }
  }

  /** Scanning never unmarks, and only marking an object queues anything. */
  lemma {:induction false} ScanRefsShrink<T>(g: Graph<T>, st: Tracing<T>, rs: seq<T>)
    requires Closed(g) && InGraph(g, st) && forall r :: r in rs ==> r in g
    ensures var st' := ScanRefs(g, st, rs);
      && InGraph(g, st') && st.marked <= st'.marked
      && (st'.marked == st.marked ==> st'.queue == st.queue && st'.current == st.current)
    decreases rs
  {
    if rs != [] {
      var r := rs[0];
      var st1 := ScanRef(g, st, r);
      if r !in st.marked {
        var marked := st.(scanned := st.scanned + 1, marked := st.marked + {r}, log := st.log + [r]);
        QueueRefsPending(marked, g[r]);
        QueueRefsInGraph(g, marked, g[r]);
      }
      ScanRefsShrink(g, st1, rs[1..]);
    }
  }

  lemma ScanStepShrinks<T>(g: Graph<T>, st: Tracing<T>)
    requires Closed(g) && InGraph(g, st) && st.queue != []
    ensures forall r :: r in st.queue[0] ==> r in g
    ensures var st' := ScanRefs(g, st.(queue := st.queue[1..]), st.queue[0]);
      InGraph(g, st') && (|g.Keys - st'.marked| < |g.Keys - st.marked|
                          || (|g.Keys - st'.marked| == |g.Keys - st.marked| && |st'.queue| < |st.queue|))
  {
    var st0 := st.(queue := st.queue[1..]);
    assert st.queue[0] in st.queue;
    assert InGraph(g, st0);
    ScanRefsShrink(g, st0, st.queue[0]);
    var st' := ScanRefs(g, st0, st.queue[0]);
    if st'.marked != st.marked {
      var x :| x in st'.marked && x !in st.marked;
      assert x in g.Keys - st.marked && x !in g.Keys - st'.marked;
      assert g.Keys - st'.marked < g.Keys - st.marked;
      SmallerSet(g.Keys - st'.marked, g.Keys - st.marked);
    }
  }

  lemma SmallerSet<T>(a: set<T>, b: set<T>)
    requires a < b
    ensures |a| < |b|
  {
    assert |b| == |a| + |b - a| by { assert b == a + (b - a); }
    var x :| x in b - a;
  }
}
