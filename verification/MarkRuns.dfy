/** Whole runs of a program: mutator phases alternate with stop-the-world collections, and
    the value that stands for "live" flips at the start of each collection. */
module MarkRuns {
  import opened Graphs
  import opened MarkProof
  import opened MarkSmall
  import opened MarkSound
  import opened MarkSpec
  import opened Options

  type Ref = nat

  /** refs: what each object refers to, its class first; marks: the mark bit of each object;
      live: the bit that means live; current: the segment that the collector is filling,
      which outlives a collection. */
  datatype Heap = Heap(refs: Graph<Ref>, marks: map<Ref, bool>, roots: set<Ref>, live: bool, current: Option<seq<Ref>>)

  datatype Step =
    | Alloc(obj: Ref, cls: Ref)        // a new object, marked with the thread's synced mark
    | Write(obj: Ref, refs: seq<Ref>)  // an attribute of obj set: its list of references changes
    | Take(obj: Ref)                   // the program gets hold of a reference
    | Drop(objs: set<Ref>)             // and lets go of some
    | Collect(queue: seq<seq<Ref>>)    // a collection, given the segments the threads pushed

  /** The program can reach this object. What is left in the collector's segment does not count. */
  ghost predicate Accessible(h: Heap, x: Ref) {
    Reach(h.refs, h.roots, x)
  }

  /** What the collector starts from: the queued roots, with the mark just flipped. */
  function PeriodStart(h: Heap, queue: seq<seq<Ref>>): Tracing<Ref> {
    Tracing((set x | x in h.refs && x in h.marks && h.marks[x] == !h.live), queue, h.current, 0, [])
  }

  ghost predicate WfHeap(h: Heap) {
    && Closed(h.refs) && h.marks.Keys == h.refs.Keys && h.roots <= h.refs.Keys
    && (h.current.Some? ==> |h.current.value| <= SEGMENT_SIZE && forall r :: r in h.current.value ==> r in h.refs)
  }

  /** The segments hold exactly the roots. */
  ghost predicate QueueIs(queue: seq<seq<Ref>>, roots: set<Ref>) {
    && (forall s :: s in queue ==> |s| <= SEGMENT_SIZE)
    && (forall s, r :: s in queue && r in s ==> r in roots)
    && (forall r :: r in roots ==> exists s :: s in queue && r in s)
  }

  ghost predicate Enabled(h: Heap, step: Step) {
    match step
    case Alloc(x, cls) => x !in h.refs && Accessible(h, cls)
    case Write(x, rs) => x in h.refs && Accessible(h, x) && forall r :: r in rs ==> Accessible(h, r)
    case Take(x) => Accessible(h, x)
    case Drop(_) => true
    case Collect(queue) => QueueIs(queue, h.roots)
  }

  /** A collection starts from the program's roots, so what is in use then is what the program
      can reach. */
  lemma ReadyToCollect(h: Heap, queue: seq<seq<Ref>>)
    requires WfHeap(h) && QueueIs(queue, h.roots)
    ensures Ready(h.refs, PeriodStart(h, queue)) && Queued(PeriodStart(h, queue)) == h.roots
    ensures forall x :: InUse(h.refs, PeriodStart(h, queue), x) <==> Accessible(h, x)
  {}

  function Marked(marks: map<Ref, bool>, end: Tracing<Ref>, live: bool): map<Ref, bool> {
    map x | x in marks :: if x in end.marked then live else marks[x]
  }

  /** The state of tracing at the end of a collection. */
  ghost function EndOf(h: Heap, queue: seq<seq<Ref>>): Tracing<Ref>
    requires WfHeap(h) && QueueIs(queue, h.roots)
  {
    ReadyToCollect(h, queue);
    ScanHeap(h.refs, PeriodStart(h, queue))
  }

  ghost function Next(h: Heap, step: Step): Heap
    requires WfHeap(h) && Enabled(h, step)
  {
    match step
    case Alloc(x, cls) => h.(refs := h.refs[x := [cls]], marks := h.marks[x := h.live], roots := h.roots + {x})
    case Write(x, rs) => h.(refs := h.refs[x := rs])
    case Take(x) => h.(roots := h.roots + {x})
    case Drop(xs) => h.(roots := h.roots - xs)
    case Collect(queue) =>
      var end := EndOf(h, queue);
      h.(marks := Marked(h.marks, end, !h.live), live := !h.live, current := end.current)
  }

  /** A collection is complete when every reference left in the segment that the program can
      reach is marked. */
  ghost predicate Complete(h: Heap, queue: seq<seq<Ref>>)
    requires WfHeap(h) && QueueIs(queue, h.roots)
  {
    var end := EndOf(h, queue);
    forall r :: r in Leftover(end) && Accessible(h, r) ==> r in end.marked
  }

  /** All that the program can reach carries the current live mark. */
  ghost predicate AllLive(h: Heap) {
    forall x :: x in h.marks && Accessible(h, x) ==> h.marks[x] == h.live
  }

  // ----- the mutator reaches nothing new

  lemma AccessibleInHeap(h: Heap, x: Ref)
    requires WfHeap(h) && Accessible(h, x)
    ensures x in h.refs
  {
    var n: nat :| ReachIn(h.refs, h.roots, x, n);
    ReachInGraph(h.refs, h.roots, x, n);
  }

  lemma AllocKeeps(h: Heap, x: Ref, cls: Ref)
    requires WfHeap(h) && AllLive(h) && Enabled(h, Alloc(x, cls))
    ensures AllLive(Next(h, Alloc(x, cls)))
  {
    var h' := Next(h, Alloc(x, cls));
    forall y | y in h'.marks && Accessible(h', y) ensures h'.marks[y] == h'.live {
      if y != x {
        var n: nat :| ReachIn(h'.refs, h'.roots, y, n);
        AllocReach(h, x, cls, y, n);
      }
    }
  }

  lemma {:induction false} AllocReach(h: Heap, x: Ref, cls: Ref, y: Ref, n: nat)
    requires WfHeap(h) && Enabled(h, Alloc(x, cls))
    requires var h' := Next(h, Alloc(x, cls)); ReachIn(h'.refs, h'.roots, y, n)
    ensures y == x || Accessible(h, y)
    decreases n
  {
    var h' := Next(h, Alloc(x, cls));
    if n == 0 {
      if y != x {
        RootReach(h.refs, h.roots, y);
      }
    } else {
      var z :| z in h'.refs && ReachIn(h'.refs, h'.roots, z, n - 1) && y in h'.refs[z];
      AllocReach(h, x, cls, z, n - 1);
      if z != x {
        EdgeReach(h.refs, h.roots, z, y);
      }
    }
  }

  lemma WriteKeeps(h: Heap, x: Ref, rs: seq<Ref>)
    requires WfHeap(h) && AllLive(h) && Enabled(h, Write(x, rs))
    ensures AllLive(Next(h, Write(x, rs)))
  {
    var h' := Next(h, Write(x, rs));
    forall y | y in h'.marks && Accessible(h', y) ensures h'.marks[y] == h'.live {
      var n: nat :| ReachIn(h'.refs, h'.roots, y, n);
      forall t | t in h.roots ensures Reach(h.refs, h.roots, t) {
        RootReach(h.refs, h.roots, t);
      }
      forall z, w | z in h'.refs && w in h'.refs[z] && Reach(h.refs, h.roots, z) ensures Reach(h.refs, h.roots, w) {
        if z != x {
          EdgeReach(h.refs, h.roots, z, w);
        }
      }
      ReachShrinks(h.refs, h'.refs, h.roots, h'.roots, y, n);
    }
  }

  /** Holding references to what is reachable anyway, or to less, reaches nothing new. */
  lemma HoldKeeps(h: Heap, step: Step)
    requires WfHeap(h) && AllLive(h) && Enabled(h, step) && (step.Take? || step.Drop?)
    ensures AllLive(Next(h, step))
  {
    var h' := Next(h, step);
    forall r | r in h'.roots ensures Reach(h.refs, h.roots, r) {
      if r in h.roots {
        RootReach(h.refs, h.roots, r);
      }
    }
    forall y | y in h'.marks && Accessible(h', y) ensures h'.marks[y] == h'.live {
      var n: nat :| ReachIn(h'.refs, h'.roots, y, n);
      ReachTrans(h.refs, h.roots, h'.roots, y, n);
    }
  }

  /** What the program can reach after each of its steps: a new object is added; a write cuts what
      only the old references of the object led to and adds what the new ones lead to; taking a
      reference adds nothing, and dropping some leaves what the other roots lead to. Marks stay. */
  lemma ReachedAfter(h: Heap, step: Step, y: Ref)
    requires WfHeap(h) && Enabled(h, step) && !step.Collect?
    ensures var h' := Next(h, step);
      && h'.live == h.live && h'.current == h.current && (forall x :: x in h.refs ==> x in h'.refs && h'.marks[x] == h.marks[x])
      && match step
         case Alloc(x, cls) => (Accessible(h', y) <==> Accessible(h, y) || y == x) && x in h'.roots && h'.refs[x] == [cls] && h'.marks[x] == h.live
         case Write(x, rs) => Accessible(h', y) <==> Reach(h.refs - {x}, h.roots + (set r | r in rs), y)
         case Take(x) => (Accessible(h', y) <==> Accessible(h, y)) && x in h'.roots
         case Drop(xs) => Accessible(h', y) <==> Reach(h.refs, h.roots - xs, y)
         case Collect(_) => true
  {
    match step
    case Alloc(x, cls) => AllocReaches(h, x, cls, y);
    case Write(x, rs) => WriteReaches(h, x, rs, y);
    case Take(x) => TakeReaches(h, x, y);
    case Drop(_) =>
  }

  lemma AllocReaches(h: Heap, x: Ref, cls: Ref, y: Ref)
    requires WfHeap(h) && Enabled(h, Alloc(x, cls))
    ensures Accessible(Next(h, Alloc(x, cls)), y) <==> Accessible(h, y) || y == x
  {
    var h' := Next(h, Alloc(x, cls));
    if n: nat :| ReachIn(h'.refs, h'.roots, y, n) {
      AllocReach(h, x, cls, y, n);
    }
    RootReach(h'.refs, h'.roots, x);
    if n: nat :| ReachIn(h.refs, h.roots, y, n) {
      forall r | r in h.roots ensures Reach(h'.refs, h'.roots, r) {
        RootReach(h'.refs, h'.roots, r);
      }
      forall z, w | z in h.refs && w in h.refs[z] && Reach(h'.refs, h'.roots, z) ensures Reach(h'.refs, h'.roots, w) {
        EdgeReach(h'.refs, h'.roots, z, w);
      }
      ReachShrinks(h'.refs, h.refs, h'.roots, h.roots, y, n);
    }
  }

  lemma TakeReaches(h: Heap, x: Ref, y: Ref)
    requires WfHeap(h) && Enabled(h, Take(x))
    ensures Accessible(Next(h, Take(x)), y) <==> Accessible(h, y)
  {
    var roots := h.roots + {x};
    forall r | r in h.roots ensures Reach(h.refs, roots, r) && Reach(h.refs, h.roots, r) {
      RootReach(h.refs, roots, r);
      RootReach(h.refs, h.roots, r);
    }
    if n: nat :| ReachIn(h.refs, roots, y, n) {
      ReachTrans(h.refs, h.roots, roots, y, n);
    }
    if n: nat :| ReachIn(h.refs, h.roots, y, n) {
      ReachTrans(h.refs, roots, h.roots, y, n);
    }
  }

  lemma WriteReaches(h: Heap, x: Ref, rs: seq<Ref>, y: Ref)
    requires WfHeap(h) && Enabled(h, Write(x, rs))
    ensures Accessible(Next(h, Write(x, rs)), y) <==> Reach(h.refs - {x}, h.roots + (set r | r in rs), y)
  {
    var h', cut, tops := Next(h, Write(x, rs)), h.refs - {x}, h.roots + set r | r in rs;
    if n: nat :| ReachIn(h'.refs, h'.roots, y, n) {
      forall r | r in tops ensures Reach(cut, tops, r) {
        RootReach(cut, tops, r);
      }
      forall z, w | z in h'.refs && w in h'.refs[z] && Reach(cut, tops, z) ensures Reach(cut, tops, w) {
        if z != x {
          EdgeReach(cut, tops, z, w);
        }
      }
      ReachShrinks(cut, h'.refs, tops, h'.roots, y, n);
    }
    if n: nat :| ReachIn(cut, tops, y, n) {
      var k: nat :| ReachIn(h.refs, h.roots, x, k);
      WrittenStays(h, x, rs, x, k);
      forall r | r in tops ensures Accessible(h', r) {
        if r in h.roots {
          RootReach(h'.refs, h'.roots, r);
        } else {
          EdgeReach(h'.refs, h'.roots, x, r);
        }
      }
      forall z, w | z in cut && w in cut[z] && Reach(h'.refs, h'.roots, z) ensures Reach(h'.refs, h'.roots, w) {
        assert cut[z] == h'.refs[z];
        EdgeReach(h'.refs, h'.roots, z, w);
      }
      ReachShrinks(h'.refs, cut, h'.roots, tops, y, n);
    }
  }

  /** A path to the object that is written does not need its references. */
  lemma {:induction false} WrittenStays(h: Heap, x: Ref, rs: seq<Ref>, y: Ref, n: nat)
    requires WfHeap(h) && Enabled(h, Write(x, rs)) && ReachIn(h.refs, h.roots, y, n)
    ensures var h' := Next(h, Write(x, rs)); Accessible(h', y) || Accessible(h', x)
    decreases n
  {
    var h' := Next(h, Write(x, rs));
    if n == 0 {
      RootReach(h'.refs, h'.roots, y);
    } else {
      var z :| z in h.refs && ReachIn(h.refs, h.roots, z, n - 1) && y in h.refs[z];
      WrittenStays(h, x, rs, z, n - 1);
      if z != x && Accessible(h', z) {
        EdgeReach(h'.refs, h'.roots, z, y);
      }
    }
  }

  // ----- collections

  /** No marks need clearing before a collection exactly when everything the program can reach
      carries the old live value. */
  lemma FlipUnmarks(h: Heap, queue: seq<seq<Ref>>)
    requires WfHeap(h) && QueueIs(queue, h.roots)
    ensures Unmarked(h.refs, PeriodStart(h, queue)) <==> AllLive(h)
  {
    hide InUse, Accessible;
    ReadyToCollect(h, queue);
    var st := PeriodStart(h, queue);
    forall x | Accessible(h, x) ensures x in h.refs {
      AccessibleInHeap(h, x);
    }
    forall x | x in h.refs ensures x in st.marked <==> h.marks[x] == !h.live {}
    assert forall x :: x in h.marks && Accessible(h, x) ==> (h.marks[x] == h.live <==> x !in st.marked);
  }

  lemma LeftoverInHeap(h: Heap, queue: seq<seq<Ref>>)
    requires WfHeap(h) && QueueIs(queue, h.roots)
    ensures |Leftover(EndOf(h, queue))| <= SEGMENT_SIZE && forall r :: r in Leftover(EndOf(h, queue)) ==> r in h.refs
  {
    hide ScanHeap, Reach;
    var st := PeriodStart(h, queue);
    ReadyToCollect(h, queue);
    ReadyIsInv(h.refs, st);
    ScanHeapKeepsInv(h.refs, Sources(st), st, st);
    BoundedWork(h.refs, st);
  }

  /** After a collection everything the program can reach carries the new live value exactly when
      the collection was complete. */
  lemma CollectKeepsIffComplete(h: Heap, queue: seq<seq<Ref>>)
    requires WfHeap(h) && AllLive(h) && Enabled(h, Collect(queue))
    ensures AllLive(Next(h, Collect(queue))) <==> Complete(h, queue)
  {
    hide ScanHeap, InGraph, InUse, Reach, EndOf;
    var st := PeriodStart(h, queue);
    ReadyToCollect(h, queue);
    FlipUnmarks(h, queue);
    CompleteUnlessLeftover(h.refs, st);
    assert EndOf(h, queue) == ScanHeap(h.refs, st) by { EndIs(h, queue); }
    var h' := Next(h, Collect(queue));
    forall x | Accessible(h, x) ensures x in h.marks && (h'.marks[x] == h'.live <==> x in EndOf(h, queue).marked) {
      AccessibleInHeap(h, x);
      assert h.marks[x] == h.live;
    }
    forall x ensures Accessible(h', x) <==> Accessible(h, x) {}
  }

  lemma EndIs(h: Heap, queue: seq<seq<Ref>>)
    requires WfHeap(h) && QueueIs(queue, h.roots)
    ensures Ready(h.refs, PeriodStart(h, queue)) && EndOf(h, queue) == ScanHeap(h.refs, PeriodStart(h, queue))
  {
    ReadyToCollect(h, queue);
  }

  /** The roots refer to roots only. */
  ghost predicate RootsClosed(h: Heap) {
    forall x, r :: x in h.roots && x in h.refs && r in h.refs[x] ==> r in h.roots
  }

  /** The segment at hand has room for all that the roots refer to. */
  ghost predicate Roomy(h: Heap) {
    && (forall x :: x in h.roots ==> x in h.refs)
    && exists all :: RoomFor(h.refs, all, h.roots, Tracing({}, [], h.current, 0, []))
  }

  /** Completeness can be told before the collection: closed roots are enough, and with room in
      the segment for what they refer to, closed roots are needed. */
  lemma CompleteIfClosed(h: Heap, queue: seq<seq<Ref>>)
    requires WfHeap(h) && AllLive(h) && QueueIs(queue, h.roots)
    ensures RootsClosed(h) ==> Complete(h, queue)
    ensures Roomy(h) ==> (Complete(h, queue) <==> RootsClosed(h))
  {
    hide ScanHeap, InGraph, Reach, EndOf;
    var st := PeriodStart(h, queue);
    ReadyToCollect(h, queue);
    EndIs(h, queue);
    FlipUnmarks(h, queue);
    if RootsClosed(h) {
      ClosedQueueIsComplete(h.refs, st);
    } else if Roomy(h) {
      var all :| RoomFor(h.refs, all, h.roots, Tracing({}, [], h.current, 0, []));
      assert RoomFor(h.refs, all, Queued(st), st);
      SmallScanMarksQueued(h.refs, all, st);
      SmallScanExactIff(h.refs, all, st);
      CompleteUnlessLeftover(h.refs, st);
      forall x | x in h.roots ensures Accessible(h, x) {
        RootReach(h.refs, h.roots, x);
      }
      ExactIsBoth(h.refs, st, ScanHeap(h.refs, st).marked);
    }
  }

  // ----- runs

  lemma ShapeKept(h: Heap, step: Step)
    requires WfHeap(h) && Enabled(h, step)
    ensures WfHeap(Next(h, step))
  {
    hide ScanHeap, Reach, EndOf;
    match step
    case Alloc(x, cls) => AccessibleInHeap(h, cls);
    case Write(x, rs) =>
      forall r | r in rs ensures r in h.refs {
        AccessibleInHeap(h, r);
      }
    case Take(x) => AccessibleInHeap(h, x);
    case Drop(_) =>
    case Collect(queue) => LeftoverInHeap(h, queue);
  }

  /** The steps can be taken one after another. */
  ghost predicate Possible(h: Heap, steps: seq<Step>)
    requires WfHeap(h)
    decreases |steps|
  {
    steps == [] ||
    (Enabled(h, steps[0]) && (ShapeKept(h, steps[0]); Possible(Next(h, steps[0]), steps[1..])))
  }

  /** Each collection among the steps is complete. */
  ghost predicate AllComplete(h: Heap, steps: seq<Step>)
    requires WfHeap(h) && Possible(h, steps)
    decreases |steps|
  {
    steps == [] ||
    ((steps[0].Collect? ==> Complete(h, steps[0].queue))
     && (ShapeKept(h, steps[0]); AllComplete(Next(h, steps[0]), steps[1..])))
  }

  /** At each collection the roots refer to roots only. */
  ghost predicate AllClosed(h: Heap, steps: seq<Step>)
    requires WfHeap(h) && Possible(h, steps)
    decreases |steps|
  {
    steps == [] ||
    ((steps[0].Collect? ==> RootsClosed(h)) && (ShapeKept(h, steps[0]); AllClosed(Next(h, steps[0]), steps[1..])))
  }

  /** At each collection the segment has room for all that the roots refer to. */
  ghost predicate AllRoomy(h: Heap, steps: seq<Step>)
    requires WfHeap(h) && Possible(h, steps)
    decreases |steps|
  {
    steps == [] ||
    ((steps[0].Collect? ==> Roomy(h)) && (ShapeKept(h, steps[0]); AllRoomy(Next(h, steps[0]), steps[1..])))
  }

  /** Before the first step and after each, everything the program can reach carries the live value. */
  ghost predicate AlwaysLive(h: Heap, steps: seq<Step>)
    requires WfHeap(h) && Possible(h, steps)
    decreases |steps|
  {
    AllLive(h) && (steps == [] || (ShapeKept(h, steps[0]); AlwaysLive(Next(h, steps[0]), steps[1..])))
  }

  ghost function After(h: Heap, steps: seq<Step>): (e: Heap)
    requires WfHeap(h) && Possible(h, steps)
    ensures WfHeap(e)
    decreases |steps|
  {
    if steps == [] then h else ShapeKept(h, steps[0]); After(Next(h, steps[0]), steps[1..])
  }

  /** The mutator's steps keep everything in use live-marked; a collection does exactly when it is
      complete. */
  lemma StepKeepsIff(h: Heap, step: Step)
    requires WfHeap(h) && AllLive(h) && Enabled(h, step)
    ensures AllLive(Next(h, step)) <==> (step.Collect? ==> Complete(h, step.queue))
  {
    hide AllLive, Complete, Next;
    match step
    case Alloc(x, cls) => AllocKeeps(h, x, cls);
    case Write(x, rs) => WriteKeeps(h, x, rs);
    case Take(x) => HoldKeeps(h, step);
    case Drop(_) => HoldKeeps(h, step);
    case Collect(queue) => CollectKeepsIffComplete(h, queue);
  }

  /** Over any run, everything in use is live-marked at every moment if and only if every
      collection of the run is complete. */
  lemma {:induction false} FlippingWorksIff(h: Heap, steps: seq<Step>)
    requires WfHeap(h) && AllLive(h) && Possible(h, steps)
    ensures AlwaysLive(h, steps) <==> AllComplete(h, steps)
    decreases |steps|
  {
    hide AllLive, Complete, Next;
    if steps != [] {
      ShapeKept(h, steps[0]);
      StepKeepsIff(h, steps[0]);
      if AllLive(Next(h, steps[0])) {
        FlippingWorksIff(Next(h, steps[0]), steps[1..]);
      }
    }
  }

  /** The same by conditions that hold or fail before each collection: a run whose roots refer to
      roots only whenever there is a collection works, and a run of small collections works only
      then. */
  lemma {:induction false} ClosedRootsWork(h: Heap, steps: seq<Step>)
    requires WfHeap(h) && AllLive(h) && Possible(h, steps)
    ensures AllClosed(h, steps) ==> AlwaysLive(h, steps)
    ensures AllRoomy(h, steps) ==> (AlwaysLive(h, steps) <==> AllClosed(h, steps))
    decreases |steps|
  {
    hide AllLive, Complete, Next, RootsClosed, Roomy;
    if steps != [] {
      ShapeKept(h, steps[0]);
      StepKeepsIff(h, steps[0]);
      if steps[0].Collect? {
        CompleteIfClosed(h, steps[0].queue);
      }
      if AllLive(Next(h, steps[0])) {
        ClosedRootsWork(Next(h, steps[0]), steps[1..]);
      }
    }
  }

  lemma {:induction false} LiveAtTheEnd(h: Heap, steps: seq<Step>)
    requires WfHeap(h) && Possible(h, steps) && AlwaysLive(h, steps)
    ensures AllLive(After(h, steps))
    decreases |steps|
  {
    hide AllLive, Next;
    if steps != [] {
      ShapeKept(h, steps[0]);
      LiveAtTheEnd(Next(h, steps[0]), steps[1..]);
    }
  }

  /** So after any run of complete collections, the next one starts with nothing marked that the
      program can reach; it marks all of that if and only if it is complete too, and nothing
      else if and only if there is room in the segment for what the roots refer to, or all that
      is left in it is reachable or marked. */
  lemma FlippingWorks(h: Heap, steps: seq<Step>, queue: seq<seq<Ref>>, all: seq<Ref>)
    requires WfHeap(h) && AllLive(h) && Possible(h, steps) && AllComplete(h, steps)
    requires QueueIs(queue, After(h, steps).roots) && Lists(all, After(h, steps).roots)
    ensures var e := After(h, steps);
      var st := PeriodStart(e, queue);
      && AllLive(e) && Ready(e.refs, st) && Unmarked(e.refs, st) && Queued(st) == e.roots
      && (Complete(e, queue) <==> forall x :: Accessible(e, x) ==> x in EndOf(e, queue).marked)
      && (HasRoom(e.refs, all, st) || (forall r :: r in Leftover(st) ==> r in st.marked || Accessible(e, r))
          <==> forall x :: x in EndOf(e, queue).marked - st.marked ==> Accessible(e, x))
  {
    hide AllLive, ScanHeap, Accessible, InUse, Next, Possible, After, AllComplete, AlwaysLive, HasRoom, Lists, EndOf;
    FlippingWorksIff(h, steps);
    LiveAtTheEnd(h, steps);
    var e := After(h, steps);
    ReadyToCollect(e, queue);
    FlipUnmarks(e, queue);
    EndIs(e, queue);
    CompleteUnlessLeftover(e.refs, PeriodStart(e, queue));
    SoundIff(e.refs, all, PeriodStart(e, queue));
  }

  /** Object 0 is a root, 1 its class and 2 the class of 1. */
  const CHAIN: Graph<Ref> := map[0 := [1], 1 := [2], 2 := [2]]
  const CHAIN_HEAP := Heap(CHAIN, map[0 := false, 1 := false, 2 := false], {0}, false, None)

  lemma OneRootQueued()
    ensures QueueIs([[0]], {0})
  {
    assert 0 in [0] && [0] in [[0]];
  }

  /** Completeness is needed: after one incomplete collection an object in use carries the
      old mark, which is the live value of the next period. */
  lemma IncompleteCollectionBreaksFlipping()
    ensures var h := CHAIN_HEAP;
      && WfHeap(h) && AllLive(h) && QueueIs([[0]], h.roots) && !Complete(h, [[0]])
      && var h' := Next(h, Collect([[0]]));
      && WfHeap(h') && h'.roots == h.roots && Accessible(h', 1) && h'.marks[1] != h'.live && 1 in PeriodStart(h', [[0]]).marked
  {
    hide ScanHeap, InGraph, Reach, EndOf;
    OneRootQueued();
    var h := CHAIN_HEAP;
    assert [0][..0] == [];
    assert RefCount(CHAIN, [0]) == RefCount(CHAIN, [0][..0]) + |CHAIN[0]| == 1;
    RootReach(CHAIN, {0}, 0);
    EdgeReach(CHAIN, {0}, 0, 1);
    var st := PeriodStart(h, [[0]]);
    ReadyToCollect(h, [[0]]);
    EndIs(h, [[0]]);
    SmallScanMarksQueued(CHAIN, [0], st);
    assert 1 !in EndOf(h, [[0]]).marked;
    FlipUnmarks(h, [[0]]);
    CompleteUnlessLeftover(CHAIN, st);
    ShapeKept(h, Collect([[0]]));
  }

  // ----- an old mark comes round

  /** Object 0 is a root and its own class; object 1 is garbage. */
  const PAIR: Graph<Ref> := map[0 := [0], 1 := [0]]
  const PAIR_HEAP := Heap(PAIR, map[0 := false, 1 := false], {0}, false, None)
  const PAIR_NEXT := Heap(PAIR, map[0 := true, 1 := false], {0}, true, Some([0]))

  lemma PairScan(marked: set<Ref>, current: Option<seq<Ref>>)
    requires marked <= {1} && (current == None || current == Some([0]))
    requires InGraph(PAIR, Tracing(marked, [[0]], current, 0, []))
    ensures ScanHeap(PAIR, Tracing(marked, [[0]], current, 0, []))
         == Tracing(marked + {0}, [], Some(if current.Some? then [0, 0] else [0]), 1, [0])
  {
    var st := Tracing(marked, [[0]], current, 0, []);
    assert [[0]][1..] == [];
    var mid := Tracing(marked + {0}, [], current, 1, [0]);
    var end := Tracing(marked + {0}, [], Some(if current.Some? then [0, 0] else [0]), 1, [0]);
    assert [0] + [0] == [0, 0];
    assert QueueRef(mid, 0) == end;
    assert QueueRefs(mid, [0]) == QueueRefs(QueueRef(mid, 0), []) == end;
    assert ScanRef(PAIR, st.(queue := []), 0) == QueueRefs(mid, [0]);
    assert ScanRefs(PAIR, st.(queue := []), [0]) == ScanRefs(PAIR, ScanRef(PAIR, st.(queue := []), 0), []);
  }

  /** Two complete collections: in the second, garbage that nothing has marked since it was
      allocated carries the value that means live again. */
  lemma OldMarkComesRound()
    ensures WfHeap(PAIR_HEAP) && AllLive(PAIR_HEAP) && QueueIs([[0]], {0})
    ensures Complete(PAIR_HEAP, [[0]]) && Next(PAIR_HEAP, Collect([[0]])) == PAIR_NEXT
    ensures WfHeap(PAIR_NEXT) && Complete(PAIR_NEXT, [[0]])
    ensures var st := PeriodStart(PAIR_NEXT, [[0]]);
      && Ready(PAIR, st) && Queued(st) == {0} && Unmarked(PAIR, st)
      && 1 in st.marked && !Reach(PAIR, {0}, 1)
      && ScanHeap(PAIR, st).marked == {0, 1} && Leftover(ScanHeap(PAIR, st)) == [0, 0]
  {
    hide ScanHeap, InGraph;
    OneRootQueued();
    ReadyToCollect(PAIR_HEAP, [[0]]);
    var st0 := PeriodStart(PAIR_HEAP, [[0]]);
    assert st0 == Tracing({}, [[0]], None, 0, []);
    PairScan({}, None);
    var st1 := PeriodStart(PAIR_NEXT, [[0]]);
    assert st1 == Tracing({1}, [[0]], Some([0]), 0, []);
    ReadyToCollect(PAIR_NEXT, [[0]]);
    PairScan({1}, Some([0]));
    OnlyZero();
  }

  lemma OnlyZero()
    ensures forall x :: Reach(PAIR, {0}, x) ==> x == 0
  {
    forall x | Reach(PAIR, {0}, x) ensures x == 0 {
      var n: nat :| ReachIn(PAIR, {0}, x, n);
      ClosedSetHolds(PAIR, {0}, {0}, x, n);
    }
  }

  /** A run with a step of each kind: the program makes object 2, links it from object 0, lets go of
      it and finds it again; then there is a collection. */
  const STEPS: seq<Step> := [Alloc(2, 0), Write(0, [0, 2]), Drop({2}), Take(2), Collect([[0], [2]])]

  const LINKED: Graph<Ref> := map[0 := [0, 2], 1 := [0], 2 := [0]]

  const MADE_HEAP := Heap(map[0 := [0], 1 := [0], 2 := [0]], map[0 := false, 1 := false, 2 := false], {0, 2}, false, None)
  const LINKED_HEAP := MADE_HEAP.(refs := LINKED)
  const DROPPED_HEAP := LINKED_HEAP.(roots := {0})

  lemma MakeAndLink()
    ensures WfHeap(PAIR_HEAP) && AllLive(PAIR_HEAP)
    ensures Enabled(PAIR_HEAP, Alloc(2, 0)) && Next(PAIR_HEAP, Alloc(2, 0)) == MADE_HEAP && WfHeap(MADE_HEAP)
    ensures Enabled(MADE_HEAP, Write(0, [0, 2])) && Next(MADE_HEAP, Write(0, [0, 2])) == LINKED_HEAP
  {
    hide Reach;
    RootReach(PAIR, {0}, 0);
    RootReach(MADE_HEAP.refs, {0, 2}, 0);
    RootReach(MADE_HEAP.refs, {0, 2}, 2);
  }

  lemma DropAndTake()
    ensures WfHeap(LINKED_HEAP) && Enabled(LINKED_HEAP, Drop({2})) && Next(LINKED_HEAP, Drop({2})) == DROPPED_HEAP
    ensures WfHeap(DROPPED_HEAP) && Enabled(DROPPED_HEAP, Take(2)) && Next(DROPPED_HEAP, Take(2)) == LINKED_HEAP
    ensures Enabled(LINKED_HEAP, Collect([[0], [2]])) && RootsClosed(LINKED_HEAP)
  {
    hide Reach;
    RootReach(LINKED, {0}, 0);
    EdgeReach(LINKED, {0}, 0, 2);
    assert 0 in [0] && [0] in [[0], [2]] && 2 in [2] && [2] in [[0], [2]];
  }

  lemma AtTheEnd()
    requires WfHeap(LINKED_HEAP) && Enabled(LINKED_HEAP, Collect([[0], [2]])) && AllLive(Next(LINKED_HEAP, Collect([[0], [2]])))
    ensures var e := Next(LINKED_HEAP, Collect([[0], [2]]));
      e.refs == LINKED && e.roots == {0, 2} && e.live && e.marks.Keys == {0, 1, 2} && e.marks[0] && e.marks[2] && !Accessible(e, 1)
  {
    hide EndOf, Reach;
    var e := Next(LINKED_HEAP, Collect([[0], [2]]));
    RootReach(LINKED, {0, 2}, 0);
    RootReach(LINKED, {0, 2}, 2);
    NotOne();
    assert Accessible(e, 0) && Accessible(e, 2);
  }

  lemma NotOne()
    ensures !Reach(LINKED, {0, 2}, 1)
  {
    if n: nat :| ReachIn(LINKED, {0, 2}, 1, n) {
      ClosedSetHolds(LINKED, {0, 2}, {0, 2}, 1, n);
    }
  }

  /** Such a run is possible, everything in use is live throughout it, and at its end the program
      holds 0 and 2, linked, and 1 is garbage. */
  lemma ExampleRun()
    ensures WfHeap(PAIR_HEAP) && Possible(PAIR_HEAP, STEPS) && AlwaysLive(PAIR_HEAP, STEPS)
    ensures var e := After(PAIR_HEAP, STEPS);
      e.refs == LINKED && e.roots == {0, 2} && e.live && e.marks.Keys == {0, 1, 2} && e.marks[0] && e.marks[2] && !Accessible(e, 1)
  {
    hide WfHeap, Enabled, Next, AllLive, RootsClosed, Accessible;
    MakeAndLink();
    DropAndTake();
    ExampleUnfolds(PAIR_HEAP, MADE_HEAP, LINKED_HEAP, DROPPED_HEAP, LINKED_HEAP);
    ClosedRootsWork(PAIR_HEAP, STEPS);
    LiveAtTheEnd(PAIR_HEAP, STEPS);
    AtTheEnd();
  }

  lemma ExampleUnfolds(h0: Heap, h1: Heap, h2: Heap, h3: Heap, h4: Heap)
    requires WfHeap(h0) && Enabled(h0, STEPS[0]) && Next(h0, STEPS[0]) == h1
    requires WfHeap(h1) && Enabled(h1, STEPS[1]) && Next(h1, STEPS[1]) == h2
    requires WfHeap(h2) && Enabled(h2, STEPS[2]) && Next(h2, STEPS[2]) == h3
    requires WfHeap(h3) && Enabled(h3, STEPS[3]) && Next(h3, STEPS[3]) == h4
    requires WfHeap(h4) && Enabled(h4, STEPS[4]) && RootsClosed(h4)
    ensures Possible(h0, STEPS) && AllClosed(h0, STEPS) && After(h0, STEPS) == Next(h4, STEPS[4])
  {
    hide WfHeap, Enabled, Next, RootsClosed;
    ShapeKept(h4, STEPS[4]);
    OneMore(h4, STEPS[4], []);
    OneMore(h3, STEPS[3], STEPS[4..]);
    OneMore(h2, STEPS[2], STEPS[3..]);
    OneMore(h1, STEPS[1], STEPS[2..]);
    OneMore(h0, STEPS[0], STEPS[1..]);
    assert [STEPS[4]] + [] == STEPS[4..] && [STEPS[3]] + STEPS[4..] == STEPS[3..] && [STEPS[2]] + STEPS[3..] == STEPS[2..];
    assert [STEPS[1]] + STEPS[2..] == STEPS[1..] && [STEPS[0]] + STEPS[1..] == STEPS;
  }

  lemma OneMore(h: Heap, step: Step, rest: seq<Step>)
    requires WfHeap(h) && Enabled(h, step)
    ensures WfHeap(Next(h, step))
    ensures Possible(Next(h, step), rest) ==> Possible(h, [step] + rest)
    ensures Possible(Next(h, step), rest) ==> After(h, [step] + rest) == After(Next(h, step), rest)
    ensures Possible(Next(h, step), rest) && AllClosed(Next(h, step), rest) && (step.Collect? ==> RootsClosed(h)) ==> AllClosed(h, [step] + rest)
  {
    hide WfHeap, Enabled, Next, RootsClosed;
    ShapeKept(h, step);
    assert ([step] + rest)[1..] == rest;
  }

  /** The segment is full when the period begins, with a reference to the garbage object first. */
  const FULL_HEAP := Heap(PAIR, map[0 := false, 1 := false], {0}, false, Some([1] + seq(199, _ => 0)))

  /** Tracing is not sound from the second period on: what is left in a full segment is scanned
      when the segment is handed on, and garbage becomes live. */
  lemma LeftoverRevivesGarbage()
    ensures var h := FULL_HEAP;
      && WfHeap(h) && AllLive(h) && QueueIs([[0]], h.roots) && !Accessible(h, 1)
      && var h' := Next(h, Collect([[0]]));
      && h.marks[1] != h'.live && h'.marks[1] == h'.live && !Accessible(h', 1)
  {
    hide ScanHeap, InGraph, Reach, EndOf;
    OneRootQueued();
    OnlyZero();
    var h := FULL_HEAP;
    var st := PeriodStart(h, [[0]]);
    ReadyToCollect(h, [[0]]);
    EndIs(h, [[0]]);
    FlipUnmarks(h, [[0]]);
    assert h.current.value[0] == 1 && |Leftover(st)| == 200;
    LeftoversGetMarked(PAIR, [0], st);
  }
}
