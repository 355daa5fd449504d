/** Reachability in a finite directed graph given as lists of successors. */
module Graphs {
  type Graph<T> = map<T, seq<T>>

  /** Every edge leads to a node of the graph. */
  ghost predicate Closed<T>(g: Graph<T>) {
    forall x, y :: x in g && y in g[x] ==> y in g
  }

  /** y is at the end of a path of n edges that starts in a root. */
  ghost predicate ReachIn<T>(g: Graph<T>, roots: set<T>, y: T, n: nat)
    decreases n
  {
    if n == 0 then y in roots
    else exists x :: x in g && ReachIn(g, roots, x, n - 1) && y in g[x]
  }

  ghost predicate Reach<T>(g: Graph<T>, roots: set<T>, y: T) {
    exists n: nat :: ReachIn(g, roots, y, n)
  }

  lemma RootReach<T>(g: Graph<T>, roots: set<T>, y: T)
    requires y in roots
    ensures Reach(g, roots, y)
  {
    assert ReachIn(g, roots, y, 0);
  }

  lemma EdgeReach<T>(g: Graph<T>, roots: set<T>, x: T, y: T)
    requires Reach(g, roots, x) && x in g && y in g[x]
    ensures Reach(g, roots, y)
  {
    var n: nat :| ReachIn(g, roots, x, n);
    assert ReachIn(g, roots, y, n + 1);
  }

  lemma {:induction false} ReachInGraph<T>(g: Graph<T>, roots: set<T>, y: T, n: nat)
    requires Closed(g) && roots <= g.Keys && ReachIn(g, roots, y, n)
    ensures y in g
    decreases n
  {
    if n > 0 {
      var x :| x in g && ReachIn(g, roots, x, n - 1) && y in g[x];
    }
  }

  /** A set that holds the roots and is closed under edges holds all that is reachable. */
  lemma {:induction false} ClosedSetHolds<T>(g: Graph<T>, roots: set<T>, s: set<T>, y: T, n: nat)
    requires roots <= s && (forall x, z :: x in s && x in g && z in g[x] ==> z in s)
    requires ReachIn(g, roots, y, n)
    ensures y in s
    decreases n
  {
    if n > 0 {
      var x :| x in g && ReachIn(g, roots, x, n - 1) && y in g[x];
      ClosedSetHolds(g, roots, s, x, n - 1);
    }
  }

  /** What is reachable from a node reachable from the roots is reachable from the roots. */
  lemma {:induction false} ReachTrans<T>(g: Graph<T>, roots: set<T>, mids: set<T>, y: T, n: nat)
    requires (forall x :: x in mids ==> Reach(g, roots, x)) && ReachIn(g, mids, y, n)
    ensures Reach(g, roots, y)
    decreases n
  {
    if n > 0 {
      var x :| x in g && ReachIn(g, mids, x, n - 1) && y in g[x];
      ReachTrans(g, roots, mids, x, n - 1);
      EdgeReach(g, roots, x, y);
    }
  }

  /** A graph whose edges are all reachable in another reaches no more than that one. */
  lemma {:induction false} ReachShrinks<T>(g: Graph<T>, h: Graph<T>, roots: set<T>, tops: set<T>, y: T, n: nat)
    requires forall x :: x in tops ==> Reach(g, roots, x)
    requires forall x, z :: x in h && z in h[x] && Reach(g, roots, x) ==> Reach(g, roots, z)
    requires ReachIn(h, tops, y, n)
    ensures Reach(g, roots, y)
    decreases n
  {
    if n > 0 {
      var x :| x in h && ReachIn(h, tops, x, n - 1) && y in h[x];
      ReachShrinks(g, h, roots, tops, x, n - 1);
    }
  }
}
