/** What a sweep counts. */
module Sweep {
  import opened Bytes
  import opened Regions
  import opened RegionHeap

  function CountObjects(recs: seq<Rec>): nat {
    if recs == [] then 0 else (if recs[0].kind == KindObj then 1 else 0) + CountObjects(recs[1..])
  }

  function CountMarked(m: seq<byte>, recs: seq<Rec>, live: bool): nat {
    if recs == [] then 0
    else (if recs[0].kind == KindObj && MarkOf(m, recs[0]) == live then 1 else 0) + CountMarked(m, recs[1..], live)
  }

  function SumObjects(images: seq<Image>): nat {
    if images == [] then 0 else CountObjects(images[0].recs) + SumObjects(images[1..])
  }

  function SumMarked(images: seq<Image>, live: bool): nat {
    if images == [] then 0 else CountMarked(images[0].mem, images[0].recs, live) + SumMarked(images[1..], live)
  }

  /** An object on the list: the k-th record of the i-th region. */
  datatype Place = Place(i: nat, k: nat)

  predicate IsObject(images: seq<Image>, p: Place) {
    p.i < |images| && p.k < |images[p.i].recs| && images[p.i].recs[p.k].kind == KindObj
  }

  predicate IsMarked(images: seq<Image>, p: Place, live: bool)
    requires IsObject(images, p)
  {
    MarkOf(images[p.i].mem, images[p.i].recs[p.k]) == live
  }

  /** An injective image has as many elements. */
  lemma {:induction false} ImageCard<A(!new), B>(a: set<A>, b: set<B>, f: A -> B)
    requires forall x, y :: x in a && y in a && f(x) == f(y) ==> x == y
    requires b == set x | x in a :: f(x)
    ensures |a| == |b|
    decreases |a|
  {
    if a == {} {
      assert b == {};
    } else {
      var x :| x in a;
      assert b - {f(x)} == set y | y in a - {x} :: f(y);
      ImageCard(a - {x}, b - {f(x)}, f);
    }
  }

  /** The count over a region is the number of its marked objects. */
  lemma {:induction false} CountMarkedIsCard(m: seq<byte>, recs: seq<Rec>, live: bool, s: set<nat>)
    requires forall k: nat :: k in s <==> k < |recs| && recs[k].kind == KindObj && MarkOf(m, recs[k]) == live
    ensures CountMarked(m, recs, live) == |s|
    decreases |recs|
  {
    if recs == [] {
      assert s == {};
    } else {
      var up := s - {0};
      var down := (k: nat) => if k == 0 then 0 else k - 1;
      var t := set k | k in up :: down(k);
      forall k: nat ensures k in t <==> k + 1 in s {
        if k + 1 in s { assert k + 1 in up && down(k + 1) == k; }
      }
      forall k: nat ensures k in t <==> k < |recs[1..]| && recs[1..][k].kind == KindObj && MarkOf(m, recs[1..][k]) == live {
        if k < |recs[1..]| { assert recs[1..][k] == recs[k + 1]; }
      }
      CountMarkedIsCard(m, recs[1..], live, t);
      ImageCard(up, t, down);
    }
  }

  /** When the marks say exactly which objects are reachable, the live count is the number of
      reachable objects on the list. */
  lemma {:induction false} LiveCountIsReachableCount(images: seq<Image>, live: bool, reachable: set<Place>)
    requires forall p :: p in reachable ==> IsObject(images, p)
    requires forall p :: IsObject(images, p) ==> (IsMarked(images, p, live) <==> p in reachable)
    ensures SumMarked(images, live) == |reachable|
    decreases |images|
  {
    if images == [] {
      assert reachable == {};
    } else {
      var here := set p | p in reachable && p.i == 0;
      var there := set p | p in reachable && p.i > 0;
      FirstRegion(images, live, reachable, here);
      var rest := LaterRegions(images, live, reachable, there);
      LiveCountIsReachableCount(images[1..], live, rest);
      assert reachable == here + there;
    }
  }

  lemma FirstRegion(images: seq<Image>, live: bool, reachable: set<Place>, here: set<Place>)
    requires images != [] && here == set p | p in reachable && p.i == 0
    requires forall p :: p in reachable ==> IsObject(images, p)
    requires forall p :: IsObject(images, p) ==> (IsMarked(images, p, live) <==> p in reachable)
    ensures CountMarked(images[0].mem, images[0].recs, live) == |here|
  {
    var index := (p: Place) => p.k;
    var ks := set p | p in here :: index(p);
    var recs := images[0].recs;
    forall k: nat ensures k in ks <==> k < |recs| && recs[k].kind == KindObj && MarkOf(images[0].mem, recs[k]) == live {
      var p := Place(0, k);
      assert IsObject(images, p) <==> k < |recs| && recs[k].kind == KindObj;
      if p in here { assert index(p) == k; }
    }
    CountMarkedIsCard(images[0].mem, recs, live, ks);
    ImageCard(here, ks, index);
  }

  lemma LaterRegions(images: seq<Image>, live: bool, reachable: set<Place>, there: set<Place>) returns (rest: set<Place>)
    requires images != [] && there == set p | p in reachable && p.i > 0
    requires forall p :: p in reachable ==> IsObject(images, p)
    requires forall p :: IsObject(images, p) ==> (IsMarked(images, p, live) <==> p in reachable)
    ensures |rest| == |there|
    ensures forall p :: p in rest ==> IsObject(images[1..], p)
    ensures forall p :: IsObject(images[1..], p) ==> (IsMarked(images[1..], p, live) <==> p in rest)
  {
    var down := (p: Place) => if p.i == 0 then p else Place(p.i - 1, p.k);
    rest := set p | p in there :: down(p);
    ImageCard(there, rest, down);
    forall p | p in rest ensures IsObject(images[1..], p) {
      var q :| q in there && down(q) == p;
      Later(images, p, live);
    }
    forall p | IsObject(images[1..], p) ensures IsMarked(images[1..], p, live) <==> p in rest {
      Later(images, p, live);
      var q := Place(p.i + 1, p.k);
      assert down(q) == p;
      if p in rest {
        var q' :| q' in there && down(q') == p;
        assert q' == q;
      }
    }
  }

  lemma Later(images: seq<Image>, p: Place, live: bool)
    requires images != []
    ensures IsObject(images[1..], p) <==> IsObject(images, Place(p.i + 1, p.k))
    ensures IsObject(images[1..], p) ==> IsMarked(images[1..], p, live) == IsMarked(images, Place(p.i + 1, p.k), live)
  {
  }
}
