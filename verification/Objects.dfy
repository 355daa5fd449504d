/** Objects with their linked list of attributes. */
module Objects {
  import opened Options
  import opened Attributes

  class AttrEntry {
    const sym: int
    var value: PupObject
    var next: AttrEntry?

    constructor (sym: int, value: PupObject, next: AttrEntry?)
      ensures this.sym == sym && this.value == value && this.next == next
    {
      this.sym, this.value, this.next := sym, value, next;
    }
  }

  class PupObject {
    var klass: PupObject
    var attrs: AttrEntry?
    var gcMark: bool
    ghost var entries: seq<AttrEntry>  // the nodes of the attribute list, in order

    /** A class that is its own class, as the class of classes is. */
    constructor Root(mark: bool)
      ensures klass == this && attrs == null && gcMark == mark && entries == []
    {
      klass, attrs, gcMark, entries := this, null, mark, [];
    }

    /** A new object: the allocator has given it its mark. */
    constructor (klass: PupObject, mark: bool)
      ensures Valid() && this.klass == klass && gcMark == mark && Pairs() == []
    {
      this.klass, attrs, gcMark, entries := klass, null, mark, [];
    }

    ghost predicate Valid()
      reads this`attrs, this`entries, entries`next
    {
      && attrs == NodeAt(entries, 0)
      && (forall i :: 0 <= i < |entries| ==> entries[i].next == NodeAt(entries, i + 1))
      && (forall i, j :: 0 <= i < j < |entries| ==> entries[i] != entries[j] && entries[i].sym != entries[j].sym)
    }

    /** The attributes as a list of values. */
    ghost function Pairs(): (r: Attrs<PupObject>)
      reads this`entries, entries`value
      ensures |r| == |entries|
      ensures forall i :: 0 <= i < |r| ==> r[i] == (entries[i].sym, entries[i].value)
    {
      PairsOf(entries)
    }

    /** What tracing visits: the class, then each attribute's value. */
    ghost function Refs(): (r: seq<PupObject>)
      reads this`klass, this`entries, entries`value
      ensures |r| == 1 + |entries| && r[0] == klass && forall i :: 0 <= i < |entries| ==> r[i + 1] == entries[i].value
    {
      [klass] + ValuesOf(entries)
    }

    method FindAttr(sym: int) returns (attr: AttrEntry?)
      requires Valid()
      ensures var i := IndexOf(Pairs(), sym); attr == NodeAt(entries, i)
    {
      attr := attrs;
      ghost var i := 0;
      while attr != null
        invariant i <= |entries| && attr == NodeAt(entries, i)
        invariant forall j :: 0 <= j < i ==> entries[j].sym != sym
        decreases |entries| - i
      {
        if attr.sym == sym {
          break;
        }
        attr := attr.next;
        i := i + 1;
      }
      IndexUnique(Pairs(), sym, i);
    }

    method IvSet(sym: int, val: PupObject)
      requires Valid()
      modifies this`attrs, this`entries, entries`value
      ensures Valid() && Pairs() == Set(old(Pairs()), sym, val)
      ensures forall e :: e in entries ==> e in old(entries) || fresh(e)
    {
      hide PairsOf, ValuesOf, IndexOf, Set, Valid;
      SetIs(Pairs(), sym, val);
      var attr := FindAttr(sym);
      Follows(IndexOf(Pairs(), sym));
      if attr != null {
        Replace(attr, val, IndexOf(Pairs(), sym));
      } else {
        Prepend(sym, val);
      }
    }

    method Replace(attr: AttrEntry, val: PupObject, ghost i: nat)
      requires Valid() && i < |entries| && attr == entries[i]
      modifies attr`value
      ensures Valid() && Pairs() == old(Pairs())[i := (attr.sym, val)]
    {
      hide PairsOf, ValuesOf, NodeAt;
      ghost var before := Pairs();
      attr.value := val;
      assert Pairs() == before[i := (attr.sym, val)];
    }

    method Prepend(sym: int, val: PupObject)
      requires Valid() && forall j :: 0 <= j < |entries| ==> entries[j].sym != sym
      modifies this`attrs, this`entries
      ensures Valid() && Pairs() == [(sym, val)] + old(Pairs())
      ensures forall e :: e in entries ==> e in old(entries) || fresh(e)
    {
      hide ValuesOf;
      ghost var was := entries;
      var e := new AttrEntry(sym, val, attrs);
      attrs := e;
      entries := [e] + entries;
      assert entries[1..] == was && forall i :: 1 <= i < |entries| ==> entries[i] == was[i - 1];
    }

    /** Link a new entry behind the last one, target. */
    method Link(target: AttrEntry?, sym: int, value: PupObject) returns (e: AttrEntry)
      requires Valid() && forall j :: 0 <= j < |entries| ==> entries[j].sym != sym
      requires target == if entries == [] then null else entries[|entries| - 1]
      modifies this`attrs, this`entries, (if target == null then {} else {target})`next
      ensures Valid() && fresh(e) && e.value == value && entries == old(entries) + [e] && Pairs() == old(Pairs()) + [(sym, value)]
    {
      hide PairsOf, ValuesOf;
      e := new AttrEntry(sym, value, null);
      if target == null {
        attrs := e;
      } else {
        target.next := e;
      }
      entries := entries + [e];
      assert Pairs() == old(Pairs()) + [(sym, value)];
    }

    method IvGet(sym: int) returns (r: Option<PupObject>)
      requires Valid()
      ensures r == Get(Pairs(), sym)
    {
      GetAt(Pairs(), sym);
      var attr := FindAttr(sym);
      if attr != null {
        r := Some(attr.value);
      } else {
        r := None;
      }
    }

    /** Copy one entry behind those copied so far. */
    method CopyEntry(copy: PupObject, target: AttrEntry?, attr: AttrEntry, ghost i: nat) returns (e: AttrEntry)
      requires Valid() && i < |entries| && attr == entries[i]
      requires copy.Valid() && copy != this && copy.Pairs() == Pairs()[..i]
      requires target == (if i == 0 then null else copy.entries[i - 1]) && (target != null ==> target !in entries)
      modifies copy`attrs, copy`entries, (if target == null then {} else {target})`next
      ensures Valid() && Pairs() == old(Pairs()) && attr.next == NodeAt(entries, i + 1)
      ensures copy.Valid() && fresh(e) && copy.entries == old(copy.entries) + [e] && copy.Pairs() == Pairs()[..i + 1]
    {
      hide PairsOf, ValuesOf, Valid, NodeAt;
      Follows(i);
      ghost var pairs := Pairs();
      assert forall j :: 0 <= j < i ==> copy.Pairs()[j].0 == pairs[j].0;
      assert pairs[i] == (attr.sym, attr.value) && pairs[..i + 1] == pairs[..i] + [pairs[i]];
      e := copy.Link(target, attr.sym, attr.value);
    }

    /** A copy for the collector: the same class and mark, and fresh entries with the same
        symbols and values in the same order. */
    method GcCopyInstance() returns (copy: PupObject)
      requires Valid()
      ensures fresh(copy) && copy.Valid() && copy.klass == klass && copy.gcMark == gcMark
      ensures copy.Pairs() == Pairs() && forall e :: e in copy.entries ==> fresh(e)
    {
      hide PairsOf, ValuesOf, Valid, NodeAt;
      Follows(0);
      copy := new PupObject(klass, gcMark);
      var attr := attrs;
      var target: AttrEntry? := null;  // the last entry copied
      ghost var i, pairs := 0, Pairs();
      while attr != null
        invariant i <= |entries| && attr == NodeAt(entries, i) && Valid() && Pairs() == pairs
        invariant copy.Valid() && copy.klass == klass && copy.gcMark == gcMark && |copy.entries| == i
        invariant copy.Pairs() == pairs[..i]
        invariant target == (if i == 0 then null else copy.entries[i - 1]) && (target != null ==> fresh(target))
        invariant forall e :: e in copy.entries ==> fresh(e)
        decreases |entries| - i
      {
        Follows(i);
        target := CopyEntry(copy, target, attr, i);
        attr := attr.next;
        i := i + 1;
        Follows(i);
      }
      Follows(i);
      assert pairs[..i] == pairs;
    }

    /** What comes at a place in the list, and behind it. */
    lemma Follows(i: nat)
      requires Valid() && i <= |entries|
      ensures attrs == NodeAt(entries, 0) && (NodeAt(entries, i) == null <==> i == |entries|)
      ensures i < |entries| ==> NodeAt(entries, i) == entries[i] && entries[i].next == NodeAt(entries, i + 1)
      ensures i < |entries| ==> forall j :: 0 <= j < i ==> entries[j].sym != entries[i].sym
    {
    }
  }

  ghost function NodeAt(entries: seq<AttrEntry>, i: nat): AttrEntry? {
    if i < |entries| then entries[i] else null
  }

  ghost function PairsOf(entries: seq<AttrEntry>): (r: Attrs<PupObject>)
    reads entries`value
    ensures |r| == |entries|
    ensures forall i :: 0 <= i < |r| ==> r[i] == (entries[i].sym, entries[i].value)
  {
    if entries == [] then [] else [(entries[0].sym, entries[0].value)] + PairsOf(entries[1..])
  }

  ghost function ValuesOf(entries: seq<AttrEntry>): (r: seq<PupObject>)
    reads entries`value
    ensures |r| == |entries| && forall i :: 0 <= i < |r| ==> r[i] == entries[i].value
  {
    if entries == [] then [] else [entries[0].value] + ValuesOf(entries[1..])
  }
}
