/** Root collection over all frames of all threads: whatever the order in which their segments
    reach the global queue, the scan starts from exactly the roots. */
module MarkRoots {
  import LockFree
  import opened Graphs
  import opened MarkProof
  import opened MarkRuns
  import opened MarkSpec
  import opened Options

  /** The segments that one frame's roots fill, the one pushed last first. */
  ghost function FrameSegments<T>(roots: seq<T>): seq<seq<T>> {
    CollectRoots(Tracing({}, [], None, 0, []), roots).queue
  }

  /** The segments of all frames, in no order. */
  ghost function Pushed<T>(frames: seq<seq<T>>): multiset<seq<T>> {
    if frames == [] then multiset{} else multiset(FrameSegments(frames[0])) + Pushed(frames[1..])
  }

  /** The roots of all frames. */
  ghost function RootsOf<T>(frames: seq<seq<T>>): set<T> {
    set f, r | f in frames && r in f :: r
  }

  /** A frame's segments go in front of what is on the queue. */
  lemma {:induction false} QueueRefsInFront<T>(st: Tracing<T>, rs: seq<T>)
    ensures var own := QueueRefs(Tracing({}, [], st.current, 0, []), rs);
      QueueRefs(st, rs).queue == own.queue + st.queue && QueueRefs(st, rs).current == own.current
    decreases |rs|
  {
    if rs != [] {
      var empty := Tracing({}, [], st.current, 0, []);
      var first := QueueRef(empty, rs[0]);
      QueueRefsInFront(QueueRef(st, rs[0]), rs[1..]);
      QueueRefsInFront(first, rs[1..]);
      var own := QueueRefs(Tracing({}, [], first.current, 0, []), rs[1..]).queue;
      assert QueueRef(st, rs[0]).queue == first.queue + st.queue;
      assert own + (first.queue + st.queue) == own + first.queue + st.queue;
    }
  }

  lemma FramesGoInFront<T>(st: Tracing<T>, roots: seq<T>)
    ensures CollectRoots(st, roots) == st.(queue := FrameSegments(roots) + st.queue)
  {
    QueueRefsInFront(st.(current := None), roots);
    var own: Tracing<T> := QueueRefs(Tracing({}, [], None, 0, []), roots);
    if own.current.Some? {
      assert [own.current.value] + (own.queue + st.queue) == [own.current.value] + own.queue + st.queue;
    }
  }

  /** One frame's segments hold exactly its roots, at most 200 in each. */
  lemma FrameHoldsRoots<T>(roots: seq<T>)
    ensures forall s :: s in FrameSegments(roots) ==> |s| <= SEGMENT_SIZE
    ensures forall r :: r in roots <==> exists s :: s in FrameSegments(roots) && r in s
  {
    var empty: Tracing<T> := Tracing({}, [], None, 0, []);
    forall r ensures r in roots <==> exists s :: s in FrameSegments(roots) && r in s {
      RootsBecomePending(empty, roots, r);
      assert Pending(CollectRoots(empty, roots), r) <==> exists s :: s in FrameSegments(roots) && r in s;
    }
    if roots == [] {
      assert CollectRoots(empty, roots).queue == [];
    } else {
      RootsBecomePending(empty, roots, roots[0]);
    }
  }

  lemma {:induction false} PushedMeans<T>(frames: seq<seq<T>>, s: seq<T>)
    ensures s in Pushed(frames) <==> exists f :: f in frames && s in FrameSegments(f)
    decreases |frames|
  {
    hide FrameSegments;
    if frames != [] {
      PushedMeans(frames[1..], s);
      assert forall f :: f in frames <==> f == frames[0] || f in frames[1..];
    }
  }

  /** Frame after frame, with nothing in between, is one of the orders. */
  ghost function CollectFrames<T>(st: Tracing<T>, frames: seq<seq<T>>): Tracing<T>
    decreases |frames|
  {
    if frames == [] then st else CollectFrames(CollectRoots(st, frames[0]), frames[1..])
  }

  lemma {:induction false} FramesInTurn<T>(st: Tracing<T>, frames: seq<seq<T>>)
    ensures var end := CollectFrames(st, frames);
      multiset(end.queue) == Pushed(frames) + multiset(st.queue) && end == st.(queue := end.queue)
    decreases |frames|
  {
    hide FrameSegments, CollectRoots;
    if frames != [] {
      FramesGoInFront(st, frames[0]);
      FramesInTurn(CollectRoots(st, frames[0]), frames[1..]);
    }
  }

  lemma QueuedIs<T>(st: Tracing<T>, roots: set<T>)
    requires forall r :: r in roots <==> exists s :: s in st.queue && r in s
    ensures Queued(st) == roots
  {}

  /** Pushed in this order, with nothing else on the queue, the segments hold exactly the roots. */
  lemma FramesInTurnHoldRoots<T>(st: Tracing<T>, frames: seq<seq<T>>)
    requires st.queue == []
    ensures Queued(CollectFrames(st, frames)) == RootsOf(frames)
  {
    hide CollectFrames, Pushed, RootsOf;
    FramesInTurn(st, frames);
    var queue := CollectFrames(st, frames).queue;
    forall s ensures s in queue <==> s in Pushed(frames) {
      assert s in queue <==> s in multiset(queue);
      assert multiset(queue) == Pushed(frames);
    }
    SegmentsHoldRoots(frames, queue);
    QueuedIs(CollectFrames(st, frames), RootsOf(frames));
  }

  /** In whatever order the segments of all frames are on the queue, each is within its bound and
      together they hold exactly the roots. */
  lemma SegmentsHoldRoots<T>(frames: seq<seq<T>>, queue: seq<seq<T>>)
    requires forall s :: s in queue <==> s in Pushed(frames)
    ensures forall s :: s in queue ==> |s| <= SEGMENT_SIZE
    ensures forall r :: r in RootsOf(frames) <==> exists s :: s in queue && r in s
  {
    hide FrameSegments, Pushed;
    forall s ensures s in queue <==> exists f :: f in frames && s in FrameSegments(f) {
      PushedMeans(frames, s);
    }
    forall f | f in frames
      ensures forall s :: s in FrameSegments(f) ==> |s| <= SEGMENT_SIZE
      ensures forall r :: r in f <==> exists s :: s in FrameSegments(f) && r in s
    {
      FrameHoldsRoots(f);
    }
    forall r | r in RootsOf(frames) ensures exists s :: s in queue && r in s {
      var f :| f in frames && r in f;
      var s :| s in FrameSegments(f) && r in s;
      assert s in queue;
    }
    forall s, r | s in queue && r in s ensures r in RootsOf(frames) {
      var f :| f in frames && s in FrameSegments(f);
      assert r in f;
    }
  }

  // ----- any interleaving of the pushing threads

  /** The contents of the nodes on a list, head first. */
  function ContentsOf<T>(contents: nat -> seq<T>, ids: seq<nat>): seq<seq<T>> {
    if ids == [] then [] else [contents(ids[0])] + ContentsOf(contents, ids[1..])
  }

  lemma {:induction false} ContentsMean<T>(contents: nat -> seq<T>, ids: seq<nat>, s: seq<T>)
    ensures s in ContentsOf(contents, ids) <==> exists id :: id in ids && contents(id) == s
    decreases |ids|
  {
    if ids != [] {
      ContentsMean(contents, ids[1..], s);
      assert forall id :: id in ids <==> id == ids[0] || id in ids[1..];
    }
  }

  /** The numbers from the first up to the last, without it. */
  function Span(first: nat, last: nat): seq<nat>
    requires first <= last
    decreases last
  {
    if first == last then [] else Span(first, last - 1) + [last - 1]
  }

  lemma {:induction false} SpanIs(first: nat, last: nat)
    requires first <= last
    ensures multiset(Span(first, last)) + LockFree.Numbers(first) == LockFree.Numbers(last)
    decreases last
  {
    if first < last {
      SpanIs(first, last - 1);
    }
  }

  /** The threads make a segment for each that their frames fill and push it on the lock-free
      list, in any interleaving of their steps and with whatever addresses. The segments made in
      earlier periods, the first of all, have been stolen since. When no thread has a segment in
      its hands any more, following the list from its head visits segments that hold exactly the
      roots: none is lost on the way. */
  lemma AnyInterleavingHoldsRoots<T>(pushers: nat, acts: seq<LockFree.Act>, contents: nat -> seq<T>, frames: seq<seq<T>>, earlier: nat)
    returns (list: seq<LockFree.Addr>, queue: seq<seq<T>>)
    requires LockFree.Run(LockFree.Init(pushers, 1), acts).Some?
    requires var s := LockFree.Run(LockFree.Init(pushers, 1), acts).value;
      && (forall t :: 0 <= t < |s.pushers| ==> s.pushers[t].Resting?)
      && earlier <= s.made && multiset(s.stolen) == LockFree.Numbers(earlier)
      && multiset(ContentsOf(contents, Span(earlier, s.made))) == Pushed(frames)
    ensures var s := LockFree.Run(LockFree.Init(pushers, 1), acts).value;
      && LockFree.IsList(s, list) && queue == ContentsOf(contents, LockFree.Ids(s, list))
    ensures forall s :: s in queue <==> s in Pushed(frames)
    ensures forall s :: s in queue ==> |s| <= SEGMENT_SIZE
    ensures forall r :: r in RootsOf(frames) <==> exists s :: s in queue && r in s
  {
    hide LockFree.Run, LockFree.IsList, LockFree.Ids, Pushed, FrameSegments, RootsOf, ContentsOf, LockFree.Numbers, Span;
    var s := LockFree.Run(LockFree.Init(pushers, 1), acts).value;
    list := LockFree.NothingIsLost(pushers, 1, acts);
    var ids, now := LockFree.Ids(s, list), Span(earlier, s.made);
    SpanIs(earlier, s.made);
    SamePart(LockFree.Numbers(s.made), multiset(s.stolen), multiset(ids), multiset(now));
    queue := ContentsOf(contents, ids);
    assert forall id :: id in ids <==> id in multiset(ids);
    assert forall id :: id in now <==> id in multiset(now);
    forall s ensures s in queue <==> s in Pushed(frames) {
      ContentsMean(contents, ids, s);
      ContentsMean(contents, now, s);
      assert s in ContentsOf(contents, now) <==> s in multiset(ContentsOf(contents, now));
    }
    SegmentsHoldRoots(frames, queue);
  }

  lemma SamePart(all: multiset<nat>, part: multiset<nat>, a: multiset<nat>, b: multiset<nat>)
    requires all == a + part && all == b + part
    ensures a == b
  {
    assert a == all - part && b == all - part;
  }

  /** So the scan may start: queued are the roots of all frames, and pending is what was left
      before too. */
  lemma SegmentsAreReady<T>(g: Graph<T>, frames: seq<seq<T>>, st: Tracing<T>)
    requires Closed(g) && (forall s :: s in st.queue <==> s in Pushed(frames)) && RootsOf(frames) <= g.Keys && st.marked <= g.Keys
    requires st.current.Some? ==> |st.current.value| <= SEGMENT_SIZE && forall r :: r in st.current.value ==> r in g
    ensures Ready(g, st) && Queued(st) == RootsOf(frames)
  {
    hide Pushed, RootsOf;
    SegmentsHoldRoots(frames, st.queue);
    forall s, r | s in st.queue && r in s ensures r in RootsOf(frames) {}
  }

  /** And a collection of a run may begin. */
  lemma SegmentsMayCollect(h: Heap, frames: seq<seq<Ref>>, queue: seq<seq<Ref>>)
    requires (forall s :: s in queue <==> s in Pushed(frames)) && h.roots == RootsOf(frames)
    ensures Enabled(h, Collect(queue))
  {
    hide Pushed;
    SegmentsHoldRoots(frames, queue);
  }
}
