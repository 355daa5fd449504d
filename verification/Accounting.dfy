/** What the sweep's counters mean after a period of tracing. */
module Accounting {
  import opened Bytes
  import opened Graphs
  import opened MarkProof
  import opened MarkRuns
  import opened MarkSound
  import opened MarkSpec
  import opened RegionHeap
  import opened Regions
  import opened Sweep
  import RegionList = Heap

  /** Each object on the list has one place there, each object's place is its own, and its mark
      in memory is the one that tracing left. */
  ghost predicate Placed<T(!new)>(images: seq<Image>, place: map<T, Place>, marked: set<T>, live: bool) {
    && (forall x <- place :: IsObject(images, place[x]))
    && (forall p :: IsObject(images, p) ==> p in place.Values)
    && (forall x <- place, y <- place :: place[x] == place[y] ==> x == y)
    && (forall x <- place :: IsMarked(images, place[x], live) <==> x in marked)
  }

  /** The live count is the number of marked objects on the list. */
  lemma LiveCountIsMarkedCount<T(!new)>(images: seq<Image>, place: map<T, Place>, marked: set<T>, live: bool)
    requires Placed(images, place, marked, live)
    ensures SumMarked(images, live) == |set x | x in place && x in marked|
  {
    var objects := set x | x in place && x in marked;
    var where := (x: T) => if x in place then place[x] else Place(0, 0);
    var places := set x | x in objects :: where(x);
    forall p | IsObject(images, p) ensures IsMarked(images, p, live) <==> p in places {
      var x :| x in place && place[x] == p;
      assert where(x) == p;
    }
    forall p | p in places ensures IsObject(images, p) {
      var x :| x in objects && where(x) == p;
    }
    ImageCard(objects, places, where);
    LiveCountIsReachableCount(images, live, places);
  }

  lemma Counts<T>(objects: set<T>, used: set<T>, missed: set<T>, stale: set<T>, revived: set<T>, marked: set<T>, before: set<T>)
    requires used <= objects && used !! before && before <= marked
    requires missed == used - marked && stale == objects * before
    requires revived == set x | x in objects && x in marked && x !in before && x !in used
    ensures |set x | x in objects && x in marked| + |missed| == |used| + |stale| + |revived|
  {
    var found := used * marked;
    assert used == found + missed;
    assert (set x | x in objects && x in marked) == found + stale + revived;
  }

  /** What a period's tracing and the sweep behind it count. On the list are the objects in use,
      missed ones among them; stale garbage, which already carried the new live value when the
      period began; and revived garbage, which the scan marked. The live count is the number of
      objects in use, without the missed and with the stale and the revived. */
  lemma LiveCountAfterTracing<T(!new)>(g: Graph<T>, st: Tracing<T>, images: seq<Image>, place: map<T, Place>, live: bool)
    requires Ready(g, st) && Unmarked(g, st) && Placed(images, place, MarkSpec.ScanHeap(g, st).marked, live)
    ensures SumMarked(images, live) + |Missed(g, st, place)| == |Used(g, st, place)| + |Stale(st, place)| + |Revived(g, st, place)|
  {
    hide Placed, Reach, SumMarked, MarkSpec.ScanHeap, InGraph, Bounded, Leftover, MarkSpec.Pending;
    MarksOnlyTraceable(g, st);
    LiveCountIsMarkedCount(images, place, MarkSpec.ScanHeap(g, st).marked, live);
    Counts(place.Keys, Used(g, st, place), Missed(g, st, place), Stale(st, place), Revived(g, st, place),
           MarkSpec.ScanHeap(g, st).marked, st.marked);
  }

  ghost function Used<T(!new)>(g: Graph<T>, st: Tracing<T>, place: map<T, Place>): set<T> {
    set x | x in place && InUse(g, st, x)
  }

  ghost function Missed<T(!new)>(g: Graph<T>, st: Tracing<T>, place: map<T, Place>): set<T>
    requires Ready(g, st)
  {
    set x | x in place && InUse(g, st, x) && x !in MarkSpec.ScanHeap(g, st).marked
  }

  ghost function Stale<T>(st: Tracing<T>, place: map<T, Place>): set<T> {
    set x | x in place && x in st.marked
  }

  ghost function Revived<T(!new)>(g: Graph<T>, st: Tracing<T>, place: map<T, Place>): set<T>
    requires Ready(g, st)
  {
    set x | x in place && x in MarkSpec.ScanHeap(g, st).marked && x !in st.marked && !InUse(g, st, x)
  }

  /** When tracing misses nothing, the live count is exact if and only if no garbage on the list
      is stale or revived; and there is none revived when the current segment has room for all
      that the queued objects refer to, or what it held already is in use or stale. */
  lemma LiveCountExactIff<T(!new)>(g: Graph<T>, st: Tracing<T>, images: seq<Image>, place: map<T, Place>, live: bool, all: seq<T>)
    requires Ready(g, st) && Unmarked(g, st) && Placed(images, place, MarkSpec.ScanHeap(g, st).marked, live)
    requires forall x :: InUse(g, st, x) ==> x in MarkSpec.ScanHeap(g, st).marked
    requires Lists(all, Queued(st))
    ensures SumMarked(images, live) == |Used(g, st, place)| <==> Stale(st, place) == {} && Revived(g, st, place) == {}
    ensures HasRoom(g, all, st) || (forall r :: r in Leftover(st) ==> r in st.marked || InUse(g, st, r)) ==> Revived(g, st, place) == {}
  {
    hide Placed, InUse, SumMarked, MarkSpec.ScanHeap, Ready, Unmarked, HasRoom, Lists;
    LiveCountAfterTracing(g, st, images, place, live);
    assert Missed(g, st, place) == {};
    SoundIff(g, all, st);
  }

  lemma {:induction false} BothMarks(m: seq<byte>, recs: seq<Rec>, live: bool)
    ensures CountObjects(recs) == CountMarked(m, recs, live) + CountMarked(m, recs, !live)
    decreases |recs|
  {
    if recs != [] {
      BothMarks(m, recs[1..], live);
    }
  }

  lemma {:induction false} BothSums(images: seq<Image>, live: bool)
    ensures SumObjects(images) == SumMarked(images, live) + SumMarked(images, !live)
    decreases |images|
  {
    if images != [] {
      BothMarks(images[0].mem, images[0].recs, live);
      BothSums(images[1..], live);
    }
  }

  lemma OthersPlaced<T(!new)>(images: seq<Image>, place: map<T, Place>, marked: set<T>, live: bool)
    requires Placed(images, place, marked, live)
    ensures Placed(images, place, place.Keys - marked, !live)
  {
  }

  /** The object records are as many as the objects. */
  lemma ObjectsArePlaced<T(!new)>(images: seq<Image>, place: map<T, Place>, marked: set<T>, live: bool)
    requires Placed(images, place, marked, live)
    ensures SumObjects(images) == |place|
  {
    hide SumObjects, SumMarked, Placed;
    var others := place.Keys - marked;
    OthersPlaced(images, place, marked, live);
    BothSums(images, live);
    LiveCountIsMarkedCount(images, place, marked, live);
    LiveCountIsMarkedCount(images, place, others, !live);
    var a, b := set x | x in place && x in marked, set x | x in place && x in others;
    assert place.Keys == a + b && |place| == |place.Keys|;
  }

  /** A period's sweep behind its tracing. */
  method SweepAfterTracing(heap: RegionList.PupHeap, live: bool, ghost g: Graph<Ref>, ghost st: Tracing<Ref>, ghost place: map<Ref, Place>)
    returns (liveCount: nat, garbageCount: nat)
    requires heap.Valid() && Ready(g, st) && Unmarked(g, st)
    requires Placed(heap.Images(), place, MarkSpec.ScanHeap(g, st).marked, live)
    modifies heap`list, heap`All, heap.list
    ensures heap.Valid() && heap.list == []
    ensures liveCount + |Missed(g, st, place)| == |Used(g, st, place)| + |Stale(st, place)| + |Revived(g, st, place)|
    ensures liveCount + garbageCount == |place|
  {
    hide Placed, InUse, SumMarked, MarkSpec.ScanHeap, InGraph, Unmarked, Missed, Used, Stale, Revived, Tiled;
    LiveCountAfterTracing(g, st, heap.Images(), place, live);
    ObjectsArePlaced(heap.Images(), place, MarkSpec.ScanHeap(g, st).marked, live);
    liveCount, garbageCount := heap.CollectUnmarked(live);
  }

  // ----- garbage counted as live

  /** A region that holds two objects of 24 bytes, both with mark bit 0. */
  const TWO_OBJECTS: Image :=
    Image(seq(80, i => if i == 0 || i == 40 then 24 else 0), [Rec(0, 24, KindObj), Rec(40, 24, KindObj)])

  const PLACES: map<Ref, Place> := map[0 := Place(0, 0), 1 := Place(0, 1)]

  lemma TwoObjectsTile()
    ensures Tiled(TWO_OBJECTS.mem, TWO_OBJECTS.recs, 0, 80)
  {
    var m, recs := TWO_OBJECTS.mem, TWO_OBJECTS.recs;
    Widths();
    forall p | p == 0 || p == 40 ensures HeaderAt(m, p) == Rec(p, 24, KindObj) {
      forall i | 0 <= i < 8 ensures m[p + i] == ByteOf(24, i) {
        SmallByte(i);
      }
      ReadBack(m, p, 8, 24);
    }
    assert recs[1..] == [recs[1]] && recs[1..][1..] == [];
  }

  lemma SmallByte(i: nat)
    ensures ByteOf(24, i) == if i == 0 then 24 else 0
  {
    if i > 0 {
      ZeroByte(i - 1);
    }
  }

  lemma {:induction false} ZeroByte(i: nat)
    ensures ByteOf(0, i) == 0
  {
    if i > 0 {
      ZeroByte(i - 1);
    }
  }

  /** The second of two complete collections, sweeping a region that was a thread's own during
      the first: it counts two live objects where one is reachable. */
  lemma SweepCountsGarbage()
    ensures var st := PeriodStart(PAIR_NEXT, [[0]]);
      && Ready(PAIR, st) && Unmarked(PAIR, st)
      && Placed([TWO_OBJECTS], PLACES, MarkSpec.ScanHeap(PAIR, st).marked, !PAIR_NEXT.live)
    ensures Tiled(TWO_OBJECTS.mem, TWO_OBJECTS.recs, 0, 80)
    ensures SumMarked([TWO_OBJECTS], !PAIR_NEXT.live) == 2 && Used(PAIR, PeriodStart(PAIR_NEXT, [[0]]), PLACES) == {0}
  {
    hide MarkSpec.ScanHeap, InGraph, Reach, Tiled;
    TwoObjectsTile();
    OldMarkComesRound();
    OnlyZero();
    RootReach(PAIR, {0}, 0);
    var recs := TWO_OBJECTS.recs;
    assert recs[1..] == [recs[1]] && recs[1..][1..] == [];
    var m := TWO_OBJECTS.mem;
    assert CountMarked(m, recs[1..][1..], false) == 0;
    assert MarkOf(m, recs[1]) == false && CountMarked(m, recs[1..], false) == 1;
    assert MarkOf(m, recs[0]) == false && CountMarked(m, recs, false) == 2;
    assert [TWO_OBJECTS][1..] == [];
    forall p | IsObject([TWO_OBJECTS], p) ensures p in PLACES.Values {
      assert PLACES[0] == Place(0, 0) && PLACES[1] == Place(0, 1);
      assert p == Place(0, 0) || p == Place(0, 1);
    }
  }
}
