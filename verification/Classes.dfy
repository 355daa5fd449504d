/** Classes: a chain of superclasses, and in each class a list of methods that grows at its end. */
module Classes {
  import opened Attributes
  import opened Options

  class MethodEntry {
    const nameSym: int
    const meth: nat  // which compiled function
    var next: MethodEntry?

    constructor (nameSym: int, meth: nat)
      ensures this.nameSym == nameSym && this.meth == meth && next == null
    {
      this.nameSym, this.meth, next := nameSym, meth, null;
    }
  }

  class PupClass {
    const superclass: PupClass?
    ghost const above: seq<PupClass>  // the superclass, its superclass and so on
    var methods: MethodEntry?
    ghost var entries: seq<MethodEntry>

    constructor (superclass: PupClass?)
      requires superclass != null ==> superclass.Chained()
      ensures Chained() && Valid() && Table() == [] && this.superclass == superclass
      ensures above == if superclass == null then [] else superclass.Chain()
    {
      this.superclass := superclass;
      above := if superclass == null then [] else superclass.Chain();
      methods, entries := null, [];
    }

    ghost predicate Chained()
      decreases |above|
    {
      if superclass == null then above == []
      else above == superclass.Chain() && superclass.Chained()
    }

    /** The class, then its superclasses. */
    ghost function Chain(): seq<PupClass> {
      [this] + above
    }

    ghost predicate Valid()
      reads this, entries
    {
      && methods == MethodAt(entries, 0)
      && (forall i :: 0 <= i < |entries| ==> entries[i].next == MethodAt(entries, i + 1))
      && (forall i, j :: 0 <= i < j < |entries| ==> entries[i] != entries[j])
    }

    ghost function Table(): (r: Attrs<nat>)
      reads this
      ensures |r| == |entries| && forall i :: 0 <= i < |r| ==> r[i] == (entries[i].nameSym, entries[i].meth)
    {
      TableOf(entries)
    }

    /** Append to the class's own list. */
    method DefineMethod(nameSym: int, meth: nat)
      requires Valid()
      modifies this, entries
      ensures Valid() && Table() == old(Table()) + [(nameSym, meth)]
      ensures forall e :: e in entries && e !in old(entries) ==> fresh(e)
    {
      ghost var table := Table();
      var prev, pos := null, methods;
      ghost var i := 0;
      while pos != null
        invariant i <= |entries| && pos == MethodAt(entries, i) && prev == (if i == 0 then null else entries[i - 1])
        decreases |entries| - i
      {
        prev, pos := pos, pos.next;
        i := i + 1;
      }
      var e := new MethodEntry(nameSym, meth);
      if prev == null {
        methods := e;
      } else {
        prev.next := e;
      }
      entries := entries + [e];
      assert Table() == table + [(nameSym, meth)];
    }

    method FindMethodInList(nameSym: int) returns (r: Option<nat>)
      requires Valid()
      ensures r == Get(Table(), nameSym)
    {
      GetAt(Table(), nameSym);
      var pos := methods;
      ghost var i := 0;
      while pos != null
        invariant i <= |entries| && pos == MethodAt(entries, i)
        invariant forall j :: 0 <= j < i ==> Table()[j].0 != nameSym
        decreases |entries| - i
      {
        if pos.nameSym == nameSym {
          IndexUnique(Table(), nameSym, i);
          return Some(pos.meth);
        }
        pos := pos.next;
        i := i + 1;
      }
      IndexUnique(Table(), nameSym, i);
      return None;
    }
  }

  /** What looking through a class, its superclass and so on finds; a null class has no methods. */
  ghost function Resolved(c: PupClass?, nameSym: int): Option<nat>
    reads if c == null then [] else c.Chain()
  {
    if c == null then None else Lookup(Tables(c.Chain()), nameSym)
  }

  lemma ResolvedStep(c: PupClass, nameSym: int)
    requires c.Chained() && forall x <- c.Chain() :: x.Valid()
    ensures Resolved(c, nameSym) == if Get(c.Table(), nameSym).Some? then Get(c.Table(), nameSym) else Resolved(c.superclass, nameSym)
    ensures c.Valid() && (c.superclass != null ==> c.superclass.Chained() && c.superclass.Chain() == c.above)
  {
    assert c.Chain()[0] == c && c.Chain()[1..] == c.above;
    var tables := Tables(c.Chain());
    assert tables[0] == c.Table() && tables[1..] == Tables(c.above);
    assert Lookup(tables, nameSym) == if Get(c.Table(), nameSym).Some? then Get(c.Table(), nameSym) else Lookup(Tables(c.above), nameSym);
    if c.superclass == null {
      assert Tables(c.above) == [];
    }
  }

  method FindMethodInClasses(start: PupClass?, nameSym: int) returns (r: Option<nat>)
    requires start != null ==> start.Chained() && forall x <- start.Chain() :: x.Valid()
    ensures r == Resolved(start, nameSym)
  {
    hide Resolved, Lookup, Get, Tables, TableOf;
    ResolvedNone(nameSym);
    var c := start;
    while c != null
      invariant c != null ==> c.Chained() && forall x <- c.Chain() :: x.Valid()
      invariant Resolved(start, nameSym) == Resolved(c, nameSym)
      decreases if c == null then 0 else 1 + |c.above|
    {
      var meth := c.FindMethodInList(nameSym);
      ResolvedStep(c, nameSym);
      if meth.Some? {
        return meth;
      }
      c := c.superclass;
    }
    return None;
  }

  lemma ResolvedNone(nameSym: int)
    ensures Resolved(null, nameSym) == None
  {
  }

  /** Whether the first class is the second or above it. */
  method IsDescendantOrSame(ancestor: PupClass, descendant: PupClass) returns (r: bool)
    requires descendant.Chained()
    ensures r <==> ancestor in descendant.Chain()
  {
    var next: PupClass? := descendant;
    while next != null
      invariant next != null ==> next.Chained()
      invariant ancestor in descendant.Chain() <==> next != null && ancestor in next.Chain()
      decreases if next == null then 0 else 1 + |next.above|
    {
      if next == ancestor {
        return true;
      }
      next := next.superclass;
    }
    return false;
  }

  ghost function MethodAt(entries: seq<MethodEntry>, i: nat): MethodEntry? {
    if i < |entries| then entries[i] else null
  }

  ghost function TableOf(entries: seq<MethodEntry>): (r: Attrs<nat>)
    ensures |r| == |entries| && forall i :: 0 <= i < |r| ==> r[i] == (entries[i].nameSym, entries[i].meth)
  {
    if entries == [] then [] else [(entries[0].nameSym, entries[0].meth)] + TableOf(entries[1..])
  }

  ghost function Tables(chain: seq<PupClass>): (r: seq<Attrs<nat>>)
    reads chain
    ensures |r| == |chain| && forall i :: 0 <= i < |r| ==> r[i] == chain[i].Table()
  {
    if chain == [] then [] else [chain[0].Table()] + Tables(chain[1..])
  }

  function Lookup(tables: seq<Attrs<nat>>, sym: int): Option<nat> {
    if tables == [] then None
    else if Get(tables[0], sym).Some? then Get(tables[0], sym)
    else Lookup(tables[1..], sym)
  }

  /** Entry i of class k has the name, and nothing before it in the chain has. */
  ghost predicate Decides(tables: seq<Attrs<nat>>, sym: int, k: nat, i: nat) {
    && k < |tables| && i < |tables[k]| && tables[k][i].0 == sym
    && (forall j :: 0 <= j < i ==> tables[k][j].0 != sym)
    && (forall h :: 0 <= h < k ==> !Names(tables[h], sym))
  }

  ghost predicate Names(table: Attrs<nat>, sym: int) {
    exists j :: 0 <= j < |table| && table[j].0 == sym
  }

  /** The nearest class with a method of that name decides, and in it the oldest definition. */
  lemma {:induction false} NearestOldestWins(tables: seq<Attrs<nat>>, sym: int, k: nat, i: nat)
    requires Decides(tables, sym, k, i)
    ensures Lookup(tables, sym) == Some(tables[k][i].1)
    decreases k
  {
    GetAt(tables[0], sym);
    if k == 0 {
      IndexUnique(tables[0], sym, i);
    } else {
      assert !Names(tables[0], sym);
      var n := IndexOf(tables[0], sym);
      assert n == |tables[0]|;
      var rest := tables[1..];
      assert rest[k - 1] == tables[k] && forall h :: 0 <= h < k - 1 ==> rest[h] == tables[h + 1];
      NearestOldestWins(rest, sym, k - 1, i);
    }
  }

  /** What is found has been decided so, and nothing is found only where no class has the name. */
  lemma {:induction false} LookupIsDecided(tables: seq<Attrs<nat>>, sym: int) returns (k: nat, i: nat)
    ensures Lookup(tables, sym).Some? ==> Decides(tables, sym, k, i)
    ensures Lookup(tables, sym) == None <==> forall h :: 0 <= h < |tables| ==> !Names(tables[h], sym)
    decreases |tables|
  {
    k, i := 0, 0;
    if tables != [] {
      GetAt(tables[0], sym);
      var n := IndexOf(tables[0], sym);
      assert Names(tables[0], sym) <==> n < |tables[0]|;
      if n < |tables[0]| {
        i := n;
      } else {
        var rest := tables[1..];
        k, i := LookupIsDecided(rest, sym);
        k := k + 1;
        assert forall h :: 0 <= h < |rest| ==> rest[h] == tables[h + 1];
        assert forall h :: 1 <= h < |tables| ==> tables[h] == rest[h - 1];
      }
    }
  }

  /** A definition appended to a class is seen only where the name was not defined before. */
  lemma {:induction false} GetAfterDefine(table: Attrs<nat>, sym: int, meth: nat, t: int)
    ensures Get(table + [(sym, meth)], t)
         == if Get(table, t).Some? then Get(table, t) else if t == sym then Some(meth) else None
    decreases |table|
  {
    if table == [] {
      assert Get([(sym, meth)][1..], t) == None;
    } else {
      assert (table + [(sym, meth)])[1..] == table[1..] + [(sym, meth)];
      GetAfterDefine(table[1..], sym, meth, t);
    }
  }

  /** Descent is a partial order. */
  lemma {:induction false} DescentIsOrder(a: PupClass, b: PupClass, c: PupClass)
    requires b.Chained() && c.Chained()
    ensures a in a.Chain()
    ensures a in b.Chain() && b in c.Chain() ==> a in c.Chain()
    ensures b in c.Chain() && c in b.Chain() ==> b == c
    decreases |c.above|
  {
    if b in c.Chain() {
      AboveIsShorter(b, c);
    }
    if c in b.Chain() {
      AboveIsShorter(c, b);
    }
    if c.superclass != null && b != c {
      DescentIsOrder(a, b, c.superclass);
    }
  }

  lemma {:induction false} AboveIsShorter(b: PupClass, c: PupClass)
    requires c.Chained() && b in c.Chain()
    ensures b == c || |b.above| < |c.above|
    decreases |c.above|
  {
    if b != c && c.superclass != null {
      AboveIsShorter(b, c.superclass);
    }
  }
}
