/** An object's attributes as a list of symbols and values, newest first. */
module Attributes {
  import opened Options

  type Attrs<V> = seq<(int, V)>

  ghost predicate DistinctSyms<V>(a: Attrs<V>) {
    forall i, j :: 0 <= i < j < |a| ==> a[i].0 != a[j].0
  }

  function Get<V>(a: Attrs<V>, sym: int): Option<V> {
    if a == [] then None else if a[0].0 == sym then Some(a[0].1) else Get(a[1..], sym)
  }

  /** Replace the value of the first entry for sym, or put a new entry in front. */
  function Set<V>(a: Attrs<V>, sym: int, v: V): Attrs<V> {
    var i := IndexOf(a, sym);
    if i < |a| then a[i := (sym, v)] else [(sym, v)] + a
  }

  function IndexOf<V>(a: Attrs<V>, sym: int): (i: nat)
    ensures i <= |a| && (forall j :: 0 <= j < i ==> a[j].0 != sym) && (i < |a| ==> a[i].0 == sym)
  {
    if a == [] || a[0].0 == sym then 0 else 1 + IndexOf(a[1..], sym)
  }

  lemma {:induction false} GetAt<V>(a: Attrs<V>, sym: int)
    ensures Get(a, sym) == if IndexOf(a, sym) < |a| then Some(a[IndexOf(a, sym)].1) else None
  {
    if a != [] && a[0].0 != sym {
      GetAt(a[1..], sym);
    }
  }

  lemma IndexUnique<V>(a: Attrs<V>, sym: int, i: nat)
    requires i <= |a| && (forall j :: 0 <= j < i ==> a[j].0 != sym) && (i < |a| ==> a[i].0 == sym)
    ensures IndexOf(a, sym) == i
  {
    var k := IndexOf(a, sym);
    assert !(i < k) && !(k < i);
  }

  lemma SetIs<V>(a: Attrs<V>, sym: int, v: V)
    ensures var i := IndexOf(a, sym); Set(a, sym, v) == if i < |a| then a[i := (sym, v)] else [(sym, v)] + a
  {
  }

  /** Setting one symbol gives it that value and leaves every other symbol alone; no symbol
      is ever listed twice. */
  lemma GetAfterSet<V>(a: Attrs<V>, sym: int, v: V, t: int)
    requires DistinctSyms(a)
    ensures DistinctSyms(Set(a, sym, v))
    ensures Get(Set(a, sym, v), t) == if t == sym then Some(v) else Get(a, t)
  {
    hide Get, IndexOf;
    var b := Set(a, sym, v);
    var i := IndexOf(a, sym);
    GetAt(a, t);
    GetAt(b, t);
    if i < |a| {
      IndexUnique(b, t, if t == sym then i else IndexOf(a, t));
    } else {
      IndexUnique(b, t, if t == sym then 0 else IndexOf(a, t) + 1);
    }
  }

  function SetAll<V>(a: Attrs<V>, sets: seq<(int, V)>): Attrs<V>
    decreases |sets|
  {
    if sets == [] then a else SetAll(Set(a, sets[0].0, sets[0].1), sets[1..])
  }

  function MapAll<V>(m: map<int, V>, sets: seq<(int, V)>): map<int, V>
    decreases |sets|
  {
    if sets == [] then m else MapAll(m[sets[0].0 := sets[0].1], sets[1..])
  }

  /** The list answers as the map does. */
  ghost predicate AnswersAs<V>(a: Attrs<V>, m: map<int, V>) {
    DistinctSyms(a) && forall sym: int :: Get(a, sym) == if sym in m then Some(m[sym]) else None
  }

  /** Over any sequence of sets, the list goes on answering every get like a map. */
  lemma {:induction false} ListRefinesMap<V>(a: Attrs<V>, m: map<int, V>, sets: seq<(int, V)>)
    requires AnswersAs(a, m)
    ensures AnswersAs(SetAll(a, sets), MapAll(m, sets))
    decreases |sets|
  {
    if sets != [] {
      var b := Set(a, sets[0].0, sets[0].1);
      forall t ensures DistinctSyms(b) && Get(b, t) == if t == sets[0].0 then Some(sets[0].1) else Get(a, t) {
        GetAfterSet(a, sets[0].0, sets[0].1, t);
      }
      ListRefinesMap(b, m[sets[0].0 := sets[0].1], sets[1..]);
    }
  }
}
