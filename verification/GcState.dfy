/** The collector's queue of reference segments and its tracing of the heap, in place.
    The functions in MarkSpec.dfy say what each method does. */
module GcState {
  import opened Options
  import opened Graphs
  import opened MarkProof
  import opened MarkSound
  import opened MarkSpec
  import opened Objects

  /** A bounded buffer of references. */
  class Segment {
    const refs: array<PupObject?>
    var inUse: nat
    var next: Segment?
    ghost var contents: seq<PupObject>

    constructor ()
      ensures Valid() && contents == [] && next == null && fresh(refs)
    {
      refs := new PupObject?[SEGMENT_SIZE](_ => null);
      inUse, next, contents := 0, null, [];
    }

    ghost predicate Valid()
      reads this`inUse, this`contents, refs
    {
      && refs.Length == SEGMENT_SIZE && inUse == |contents| <= SEGMENT_SIZE
      && forall i :: 0 <= i < inUse ==> refs[i] == contents[i]
    }

    predicate HasFreeSpace()
      reads this`inUse
    {
      inUse < SEGMENT_SIZE
    }

    /** A full segment takes no more: the original aborts then. */
    method Add(ref: PupObject) returns (added: bool)
      requires Valid()
      modifies this`inUse, this`contents, refs
      ensures Valid() && added == (|old(contents)| < SEGMENT_SIZE)
      ensures contents == if added then old(contents) + [ref] else old(contents)
    {
      if !HasFreeSpace() {
        return false;
      }
      refs[inUse] := ref;
      inUse := inUse + 1;
      contents := contents + [ref];
      return true;
    }
  }

  /** The objects of the heap and the nodes of their attribute lists. */
  datatype Heap = Heap(objs: set<PupObject>, entries: set<AttrEntry>)

  /** Well-formed objects that refer only to each other. */
  ghost predicate HeapOk(heap: Heap)
    reads heap.objs`klass, heap.objs`attrs, heap.objs`entries, heap.entries
  {
    && (forall o, e :: o in heap.objs && e in o.entries ==> e in heap.entries)
    && (forall o :: o in heap.objs ==> o.Valid())
    && (forall o, r :: o in heap.objs && r in o.Refs() ==> r in heap.objs)
  }

  /** The graph that tracing follows. */
  ghost function GraphOf(heap: Heap): Graph<PupObject>
    requires HeapOk(heap)
    reads heap.objs`klass, heap.objs`attrs, heap.objs`entries, heap.entries
  {
    map o | o in heap.objs :: o.Refs()
  }

  class Collector {
    var head: Segment?       // the global queue
    var current: Segment?    // the segment being filled
    var liveMark: bool
    var liveCount: nat       // what the sweep has counted in this period
    var garbageCount: nat
    ghost var queue: seq<Segment>
    ghost var scanned: nat
    ghost var log: seq<PupObject>
    ghost var Segs: set<Segment>             // the segments on the queue and the current one
    ghost var Bufs: set<array<PupObject?>>   // and their buffers

    constructor ()
      ensures Valid() && Segs == {} && Bufs == {} && queue == [] && current == null && !liveMark && scanned == 0 && log == []
    {
      head, current, liveMark, liveCount, garbageCount := null, null, false, 0, 0;
      queue, scanned, log, Segs, Bufs := [], 0, [], {}, {};
    }

    ghost predicate QueueOk()
      reads this`head, this`queue, this`Segs, this`Bufs, Segs, Bufs
    {
      && head == SegAt(queue, 0)
      && (forall i :: 0 <= i < |queue| ==> queue[i] in Segs && queue[i].refs in Bufs && queue[i].Valid())
      && (forall i :: 0 <= i < |queue| ==> queue[i].next == SegAt(queue, i + 1))
      && (forall i, j :: 0 <= i < j < |queue| ==> queue[i] != queue[j] && queue[i].refs != queue[j].refs)
    }

    /** The segment is none of those on the queue. */
    ghost predicate Apart(s: Segment)
      reads this`queue
    {
      forall i :: 0 <= i < |queue| ==> queue[i] != s && queue[i].refs != s.refs
    }

    ghost predicate Valid()
      reads this`head, this`queue, this`current, this`Segs, this`Bufs, Segs, Bufs
    {
      QueueOk() && (current != null ==> current in Segs && current.refs in Bufs && current.Valid() && Apart(current))
    }

    /** The abstract state, given which objects carry the live mark. */
    ghost function State(marked: set<PupObject>): Tracing<PupObject>
      requires Valid()
      reads this, Segs, Bufs
    {
      Tracing(marked, ContentsOf(queue), if current == null then None else Some(current.contents), scanned, log)
    }

    /** Put a segment at the head of the global queue. */
    method AddSegmentToGlobalQueue(segment: Segment)
      requires QueueOk() && segment.Valid() && Apart(segment) && segment in Segs && segment.refs in Bufs
      modifies this`head, this`queue, segment`next
      ensures QueueOk() && queue == [segment] + old(queue)
    {
      segment.next := head;
      head := segment;
      queue := [segment] + queue;
    }

    /** Take the first segment off the global queue. */
    method StealSegmentFromGlobalQueue() returns (segment: Segment?)
      requires Valid()
      modifies this`head, this`queue, this`Segs, this`Bufs
      ensures Valid() && segment == SegAt(old(queue), 0)
      ensures if segment == null then Segs == old(Segs) && Bufs == old(Bufs) && queue == old(queue)
              else Segs == old(Segs) - {segment} && Bufs == old(Bufs) - {segment.refs} && queue == old(queue)[1..]
    {
      hide Segment.Valid;
      segment := head;
      if segment != null {
        head := segment.next;
        queue := queue[1..];
        Segs, Bufs := Segs - {segment}, Bufs - {segment.refs};
        ghost var was := old(queue);
        forall i | 0 <= i < |queue|
          ensures queue[i] in Segs && queue[i].refs in Bufs && queue[i].Valid() && queue[i].next == SegAt(queue, i + 1)
        {
          assert queue[i] == was[i + 1] && was[0] != was[i + 1] && was[0].refs != was[i + 1].refs;
        }
        forall i, j | 0 <= i < j < |queue| ensures queue[i] != queue[j] && queue[i].refs != queue[j].refs {
          assert queue[i] == was[i + 1] && queue[j] == was[j + 1];
        }
      }
    }

    /** Have a current segment with room for one more reference. */
    method MakeRoom()
      requires Valid()
      modifies this`head, this`queue, this`current, this`Segs, this`Bufs, (if current == null then {} else {current})`next
      ensures Valid() && fresh(Segs - old(Segs)) && fresh(Bufs - old(Bufs)) && current != null && current.HasFreeSpace()
      ensures current.contents ==
        if old(current != null && |current.contents| < SEGMENT_SIZE) then old(current.contents) else []
      ensures queue ==
        if old(current != null && |current.contents| >= SEGMENT_SIZE) then [old(current)] + old(queue) else old(queue)
    {
      if current == null {
        current := new Segment();
        Segs, Bufs := Segs + {current}, Bufs + {current.refs};
      } else if !current.HasFreeSpace() {
        AddSegmentToGlobalQueue(current);
        current := new Segment();
        Segs, Bufs := Segs + {current}, Bufs + {current.refs};
      }
    }

    /** Queue one reference for marking. */
    method QueueForMarking(ref: PupObject, ghost marked: set<PupObject>)
      requires Valid()
      modifies this`head, this`queue, this`current, this`Segs, this`Bufs, Segs, Bufs
      ensures Valid() && fresh(Segs - old(Segs)) && fresh(Bufs - old(Bufs))
      ensures State(marked) == QueueRef(old(State(marked)), ref)
    {
      hide ContentsOf;
      ghost var full := current != null && |current.contents| >= SEGMENT_SIZE;
      ghost var queued := if full then [current.contents] + ContentsOf(queue) else ContentsOf(queue);
      MakeRoom();
      assert ContentsOf(queue) == queued && [] + [ref] == [ref];
      AddToCurrent(ref);
      assert ContentsOf(queue) == queued;
    }

    method AddToCurrent(ref: PupObject)
      requires Valid() && current != null && current.HasFreeSpace()
      modifies current`inUse, current`contents, current.refs
      ensures Valid() && current.contents == old(current.contents) + [ref] && ContentsOf(queue) == old(ContentsOf(queue))
    {
      hide ContentsOf;
      var added := current.Add(ref);
    }

    /** Queue what an object refers to: its class, then the value of each attribute. */
    method EachRef(obj: PupObject, ghost marked: set<PupObject>)
      requires Valid() && obj.Valid()
      modifies this`head, this`queue, this`current, this`Segs, this`Bufs, Segs, Bufs
      ensures Valid() && fresh(Segs - old(Segs)) && fresh(Bufs - old(Bufs))
      ensures State(marked) == QueueRefs(old(State(marked)), obj.Refs())
    {
      hide QueueRef, Collector.Valid, State;
      ghost var refs := obj.Refs();
      assert Listing(obj.attrs, obj.entries, refs[1..]);
      var first := obj.attrs;
      QueueForMarking(obj.klass, marked);
      QueueValues(first, obj.entries, refs[1..], marked);
    }

    method QueueValues(first: AttrEntry?, ghost es: seq<AttrEntry>, ghost values: seq<PupObject>, ghost marked: set<PupObject>)
      requires Valid() && Listing(first, es, values)
      modifies this`head, this`queue, this`current, this`Segs, this`Bufs, Segs, Bufs
      ensures Valid() && fresh(Segs - old(Segs)) && fresh(Bufs - old(Bufs))
      ensures State(marked) == QueueRefs(old(State(marked)), values)
    {
      hide QueueRef, Collector.Valid, State;
      assert values[0..] == values;
      var attr := first;
      ghost var i := 0;
      while attr != null
        invariant i <= |es| && attr == NodeAt(es, i) && Listing(first, es, values)
        invariant Valid() && fresh(Segs - old(Segs)) && fresh(Bufs - old(Bufs))
        invariant QueueRefs(State(marked), values[i..]) == QueueRefs(old(State(marked)), values)
        decreases |es| - i
      {
        assert values[i..][1..] == values[i + 1..] && values[i..][0] == attr.value;
        QueueForMarking(attr.value, marked);
        attr := attr.next;
        i := i + 1;
      }
    }

    ghost function Marked(heap: Heap): set<PupObject>
      reads this`liveMark, heap.objs`gcMark
    {
      set o | o in heap.objs && o.gcMark == liveMark
    }

    /** Mark an object that does not carry the live mark yet and queue its references. */
    method ScanQueueRef(ref: PupObject, ghost heap: Heap)
      requires Valid() && HeapOk(heap) && ref in heap.objs
      modifies this`head, this`queue, this`current, this`Segs, this`Bufs, this`scanned, this`log, Segs, Bufs, ref`gcMark
      ensures Valid() && fresh(Segs - old(Segs)) && fresh(Bufs - old(Bufs))
      ensures HeapOk(heap) && GraphOf(heap) == old(GraphOf(heap))
      ensures State(Marked(heap)) == ScanRef(GraphOf(heap), old(State(Marked(heap))), ref)
    {
      hide GraphOf, HeapOk, QueueRefs, Collector.Valid, State, Marked, PupObject.Valid;
      RefOk(heap, ref);
      var updated := MarkReachable(ref, heap);
      if updated {
        ghost var marked := Marked(heap);
        EachRef(ref, marked);
        assert Marked(heap) == marked;
      }
    }

    /** A collection starts with its counters at zero and by flipping the value that means live:
        the objects that carried it no longer do, and the others do. */
    method PeriodStart(ghost heap: Heap)
      requires Valid()
      modifies this`liveMark, this`liveCount, this`garbageCount
      ensures Valid() && liveCount == 0 && garbageCount == 0
      ensures liveMark == !old(liveMark) && Marked(heap) == heap.objs - old(Marked(heap))
    {
      liveCount, garbageCount := 0, 0;
      liveMark := !liveMark;
    }

    /** Give an object the live mark; the result says whether it did not have it yet. */
    method MarkReachable(ref: PupObject, ghost heap: Heap) returns (updated: bool)
      requires Valid() && ref in heap.objs
      modifies this`scanned, this`log, ref`gcMark
      ensures Valid() && updated == (ref !in old(Marked(heap)))
      ensures old(State(Marked(heap))).marked == old(Marked(heap))
      ensures var before := old(State(Marked(heap)));
        State(Marked(heap)) ==
          if updated then before.(scanned := before.scanned + 1, marked := before.marked + {ref}, log := before.log + [ref])
          else before.(scanned := before.scanned + 1)
    {
      hide ContentsOf, Collector.Valid;
      ghost var marked := Marked(heap);
      scanned := scanned + 1;
      updated := ref.gcMark != liveMark;
      if ref.gcMark != liveMark {
        ref.gcMark := liveMark;
        log := log + [ref];
      }
      assert Marked(heap) == if updated then marked + {ref} else marked;
    }

    /** Scan the references of a segment that has been taken off the queue. */
    method ScanSegment(seg: Segment, ghost heap: Heap)
      requires Valid() && HeapOk(heap) && seg.Valid() && seg !in Segs && seg.refs !in Bufs
      requires forall r :: r in seg.contents ==> r in heap.objs
      modifies this`head, this`queue, this`current, this`Segs, this`Bufs, this`scanned, this`log, Segs, Bufs, heap.objs`gcMark
      ensures Valid() && fresh(Segs - old(Segs)) && fresh(Bufs - old(Bufs))
      ensures HeapOk(heap) && GraphOf(heap) == old(GraphOf(heap))
      ensures State(Marked(heap)) == ScanRefs(GraphOf(heap), old(State(Marked(heap))), seg.contents)
    {
      hide GraphOf, HeapOk, ScanRef, Collector.Valid, State, Marked;
      ghost var g := GraphOf(heap);
      ghost var rs := seg.contents;
      GraphDomain(heap);
      assert rs[0..] == rs;
      var i := 0;
      while i < seg.inUse
        invariant i <= |rs| && seg.Valid() && seg.contents == rs && seg !in Segs && seg.refs !in Bufs
        invariant Valid() && fresh(Segs - old(Segs)) && fresh(Bufs - old(Bufs))
        invariant HeapOk(heap) && GraphOf(heap) == g
        invariant ScanRefs(g, State(Marked(heap)), rs[i..]) == ScanRefs(g, old(State(Marked(heap))), rs)
      {
        assert rs[i..][1..] == rs[i + 1..] && rs[i..][0] == rs[i] && rs[i] in rs;
        ScanQueueRef(seg.refs[i], heap);
        i := i + 1;
      }
    }

    /** seg has been taken off the queue of state st, which was empty if there is none. */
    ghost predicate Took(seg: Segment?, st: Tracing<PupObject>, heap: Heap)
      reads this, Segs, Bufs, heap.objs`gcMark, if seg == null then {} else {seg, seg.refs}
    {
      Valid() &&
      if seg == null then st.queue == [] && State(Marked(heap)) == st
      else
        && st.queue != [] && seg !in Segs && seg.refs !in Bufs && seg.Valid() && seg.contents == st.queue[0]
        && State(Marked(heap)) == st.(queue := st.queue[1..])
    }

    /** The tracing phase: scan segments until the global queue is empty. */
    method ScanHeap(ghost heap: Heap)
      requires Valid() && HeapOk(heap) && InGraph(GraphOf(heap), State(Marked(heap)))
      modifies this`head, this`queue, this`current, this`Segs, this`Bufs, this`scanned, this`log, Segs, Bufs, heap.objs`gcMark
      ensures Valid() && fresh(Segs - old(Segs)) && fresh(Bufs - old(Bufs))
      ensures HeapOk(heap) && GraphOf(heap) == old(GraphOf(heap)) && Closed(GraphOf(heap)) && InGraph(GraphOf(heap), old(State(Marked(heap))))
      ensures State(Marked(heap)) == MarkSpec.ScanHeap(GraphOf(heap), old(State(Marked(heap))))
    {
      hide GraphOf, HeapOk, Collector.Valid, Marked, InGraph, State, Took, MarkSpec.ScanHeap;
      GraphDomain(heap);
      ghost var st := State(Marked(heap));
      var seg := TakeSegment(heap);
      ScanFrom(seg, st, heap);
    }

    /** What the scan marks, when nothing reachable from the queued roots is marked yet: what they
        or the leftovers of earlier periods lead to; only what they lead to exactly when the
        current segment has room for all they refer to, or holds nothing else; and all of that
        exactly when every reference among it that is left over at the end is marked. */
    method ScanReachable(ghost heap: Heap, ghost roots: set<PupObject>, ghost all: seq<PupObject>)
      requires Valid() && HeapOk(heap)
      requires Ready(GraphOf(heap), State(Marked(heap))) && Unmarked(GraphOf(heap), State(Marked(heap)))
      requires roots == Queued(State(Marked(heap))) && Lists(all, roots)
      modifies this`head, this`queue, this`current, this`Segs, this`Bufs, this`scanned, this`log, Segs, Bufs, heap.objs`gcMark
      ensures Valid() && queue == [] && HeapOk(heap) && GraphOf(heap) == old(GraphOf(heap))
      ensures old(Marked(heap)) <= Marked(heap)
      ensures forall x :: x in Marked(heap) - old(Marked(heap)) ==> Reach(GraphOf(heap), old(Sources(State(Marked(heap)))), x)
      ensures (forall x <- heap.objs :: x in Marked(heap) - old(Marked(heap)) ==> Reach(GraphOf(heap), roots, x))
         <==> LeftoversFit(GraphOf(heap), old(State(Marked(heap))), all)
      ensures (forall x <- heap.objs :: Reach(GraphOf(heap), roots, x) ==> x in Marked(heap))
         <==> (current != null ==> forall r :: r in current.contents && Reach(GraphOf(heap), roots, r) ==> r in Marked(heap))
    {
      hide GraphOf, HeapOk, Marked, Reach, MarkSpec.ScanHeap, InGraph, LeftoversFit, Lists, Unmarked, Sources, Queued;
      ghost var g, st := GraphOf(heap), State(Marked(heap));
      GraphDomain(heap);
      ScanMeans(g, heap.objs, st, all);
      ScanHeap(heap);
      ghost var end := MarkSpec.ScanHeap(g, st);
      assert State(Marked(heap)).marked == Marked(heap) == end.marked && ContentsOf(queue) == end.queue;
      assert current != null ==> Leftover(end) == current.contents;
      assert current == null ==> Leftover(end) == [];
    }

    method ScanFrom(first: Segment?, ghost start: Tracing<PupObject>, ghost heap: Heap)
      requires Took(first, start, heap) && HeapOk(heap) && Closed(GraphOf(heap)) && InGraph(GraphOf(heap), start)
      modifies this`head, this`queue, this`current, this`Segs, this`Bufs, this`scanned, this`log, Segs, Bufs, heap.objs`gcMark
      ensures Valid() && fresh(Segs - old(Segs)) && fresh(Bufs - old(Bufs))
      ensures HeapOk(heap) && GraphOf(heap) == old(GraphOf(heap))
      ensures State(Marked(heap)) == MarkSpec.ScanHeap(GraphOf(heap), start)
    {
      hide GraphOf, HeapOk, NextTracing, Scannable, UnmarkedCount, Collector.Valid, Marked, InGraph, Closed, State, Took, MarkSpec.ScanHeap;
      ghost var g := GraphOf(heap);
      var seg := first;
      ghost var st := start;
      TookState(seg, st, heap);
      while seg != null
        invariant Took(seg, st, heap) && fresh(Segs - old(Segs)) && fresh(Bufs - old(Bufs))
        invariant HeapOk(heap) && GraphOf(heap) == g && InGraph(g, st)
        invariant MarkSpec.ScanHeap(g, st) == MarkSpec.ScanHeap(g, start)
        invariant seg == null <==> st.queue == []
        decreases UnmarkedCount(g, st), |st.queue|
      {
        ScanHeapStep(g, st);
        seg, st := ScanAndTake(seg, st, heap);
        TookState(seg, st, heap);
      }
      ScanHeapDone(g, st);
      TookState(seg, st, heap);
    }

    /** What Took says that the tracing loop needs. */
    lemma TookState(seg: Segment?, st: Tracing<PupObject>, heap: Heap)
      requires Took(seg, st, heap)
      ensures Valid() && (seg == null <==> st.queue == []) && (seg == null ==> State(Marked(heap)) == st)
    {}

    /** One turn of the tracing loop. */
    method ScanAndTake(seg: Segment, ghost st: Tracing<PupObject>, ghost heap: Heap)
      returns (next: Segment?, ghost st': Tracing<PupObject>)
      requires Took(seg, st, heap) && HeapOk(heap) && Scannable(GraphOf(heap), st)
      modifies this`head, this`queue, this`current, this`Segs, this`Bufs, this`scanned, this`log, Segs, Bufs, heap.objs`gcMark
      ensures Took(next, st', heap) && fresh(Segs - old(Segs)) && fresh(Bufs - old(Bufs))
      ensures HeapOk(heap) && GraphOf(heap) == old(GraphOf(heap))
      ensures st' == NextTracing(GraphOf(heap), st)
    {
      hide GraphOf, HeapOk, ScanRefs, Collector.Valid, Segment.Valid, Marked, State, QueueOk;
      GraphDomain(heap);
      ScanSegment(seg, heap);
      st' := State(Marked(heap));
      next := TakeSegment(heap);
    }

    method TakeSegment(ghost heap: Heap) returns (seg: Segment?)
      requires Valid()
      modifies this`head, this`queue, this`Segs, this`Bufs
      ensures Segs <= old(Segs) && Bufs <= old(Bufs) && Took(seg, old(State(Marked(heap))), heap)
    {
      hide ContentsOf;
      ghost var contents := ContentsOf(queue);
      seg := StealSegmentFromGlobalQueue();
      assert ContentsOf(queue) == if seg == null then contents else contents[1..];
    }
  }

  /** There is a segment to scan, and its references are to objects of the heap. */
  ghost predicate Scannable<T>(g: Graph<T>, st: Tracing<T>) {
    st.queue != [] && forall r :: r in st.queue[0] ==> r in g
  }

  ghost function NextTracing<T>(g: Graph<T>, st: Tracing<T>): Tracing<T>
    requires Scannable(g, st)
  {
    ScanRefs(g, st.(queue := st.queue[1..]), st.queue[0])
  }

  ghost function UnmarkedCount<T>(g: Graph<T>, st: Tracing<T>): nat {
    |g.Keys - st.marked|
  }

  lemma ScanHeapStep<T>(g: Graph<T>, st: Tracing<T>)
    requires Closed(g) && InGraph(g, st) && st.queue != []
    ensures Scannable(g, st) && InGraph(g, NextTracing(g, st)) && MarkSpec.ScanHeap(g, st) == MarkSpec.ScanHeap(g, NextTracing(g, st))
    ensures var st' := NextTracing(g, st);
      UnmarkedCount(g, st') < UnmarkedCount(g, st) || (UnmarkedCount(g, st') == UnmarkedCount(g, st) && |st'.queue| < |st.queue|)
  {
    ScanStepShrinks(g, st);
  }

  lemma ScanHeapDone<T>(g: Graph<T>, st: Tracing<T>)
    requires Closed(g) && InGraph(g, st) && st.queue == []
    ensures MarkSpec.ScanHeap(g, st) == st
  {}

  lemma GraphDomain(heap: Heap)
    requires HeapOk(heap)
    ensures GraphOf(heap).Keys == heap.objs && Closed(GraphOf(heap))
  {}

  lemma ReachableInHeap(g: Graph<PupObject>, roots: set<PupObject>)
    requires Closed(g) && roots <= g.Keys
    ensures forall x :: Reach(g, roots, x) ==> x in g
  {
    forall x | Reach(g, roots, x) ensures x in g {
      var n: nat :| ReachIn(g, roots, x, n);
      ReachInGraph(g, roots, x, n);
    }
  }

  /** The current segment has room for all that the queued objects refer to, or what it holds is
      in use or marked already. */
  ghost predicate LeftoversFit(g: Graph<PupObject>, st: Tracing<PupObject>, all: seq<PupObject>)
    requires Ready(g, st) && Lists(all, Queued(st))
  {
    HasRoom(g, all, st) || forall r :: r in Leftover(st) ==> r in st.marked || InUse(g, st, r)
  }

  lemma ScanMeans(g: Graph<PupObject>, objs: set<PupObject>, st: Tracing<PupObject>, all: seq<PupObject>)
    requires Ready(g, st) && Unmarked(g, st) && Lists(all, Queued(st)) && objs == g.Keys
    ensures var end := MarkSpec.ScanHeap(g, st);
      && st.marked <= end.marked && end.queue == []
      && (forall x :: x in end.marked - st.marked ==> Reach(g, Sources(st), x))
      && ((forall x <- objs :: x in end.marked - st.marked ==> Reach(g, Queued(st), x)) <==> LeftoversFit(g, st, all))
      && ((forall x <- objs :: Reach(g, Queued(st), x) ==> x in end.marked)
          <==> forall r :: r in Leftover(end) && Reach(g, Queued(st), r) ==> r in end.marked)
  {
    hide Reach, MarkSpec.ScanHeap, HasRoom, Lists;
    SourcesPend(g, st);
    MarksOnlyTraceable(g, st);
    SoundIff(g, all, st);
    CompleteUnlessLeftover(g, st);
    ReachableInHeap(g, Queued(st));
    ReachableInHeap(g, Sources(st));
    forall x | x in MarkSpec.ScanHeap(g, st).marked - st.marked
      ensures x in objs && (InUse(g, st, x) <==> Reach(g, Queued(st), x))
    {
      assert Reach(g, Sources(st), x);
    }
  }

  lemma RefOk(heap: Heap, ref: PupObject)
    requires HeapOk(heap) && ref in heap.objs
    ensures ref.Valid() && ref in GraphOf(heap) && GraphOf(heap)[ref] == ref.Refs()
  {}

  /** The nodes es, starting at first, are linked and hold these values. */
  ghost predicate Listing(first: AttrEntry?, es: seq<AttrEntry>, values: seq<PupObject>)
    reads es
  {
    first == NodeAt(es, 0) && |values| == |es|
    && forall k :: 0 <= k < |es| ==> es[k].next == NodeAt(es, k + 1) && es[k].value == values[k]
  }

  ghost function SegAt(queue: seq<Segment>, i: nat): Segment? {
    if i < |queue| then queue[i] else null
  }

  ghost function ContentsOf(queue: seq<Segment>): (r: seq<seq<PupObject>>)
    reads queue`contents
    ensures |r| == |queue| && forall i :: 0 <= i < |r| ==> r[i] == queue[i].contents
  {
    if queue == [] then [] else [queue[0].contents] + ContentsOf(queue[1..])
  }
}
