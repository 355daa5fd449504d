/** Symbols on values: the strings interned so far, in order; the i-th has symbol i + 1. */
module Symbols {
  import opened Options
  import opened Sequences

  type Names = seq<string>

  function Position(names: Names, str: string): (i: nat)
    ensures i <= |names| && (i < |names| ==> names[i] == str)
    ensures forall j :: 0 <= j < i ==> names[j] != str
  {
    if names == [] || names[0] == str then 0 else 1 + Position(names[1..], str)
  }

  lemma PositionIs(names: Names, str: string, i: nat)
    requires i <= |names| && (i < |names| ==> names[i] == str) && forall j :: 0 <= j < i ==> names[j] != str
    ensures Position(names, str) == i
  {
    var p := Position(names, str);
    assert !(p < i) && !(i < p);
  }

  /** The symbol a string has, or is given when it is new. */
  function SymOf(names: Names, str: string): int {
    Position(names, str) + 1
  }

  function Intern(names: Names, str: string): Names {
    if str in names then names else names + [str]
  }

  function StrOf(names: Names, sym: int): Option<string> {
    if 1 <= sym <= |names| then Some(names[sym - 1]) else None
  }

  /** A run of insertions. */
  function InternAll(names: Names, strs: seq<string>): Names {
    if strs == [] then names else Intern(InternAll(names, strs[..|strs| - 1]), strs[|strs| - 1])
  }

  lemma InternKeeps(names: Names, str: string)
    requires Distinct(names)
    ensures Distinct(Intern(names, str)) && names <= Intern(names, str)
    ensures str in Intern(names, str) && SymOf(Intern(names, str), str) == SymOf(names, str)
  {
    var p := Position(names, str);
    assert p < |names| <==> str in names;
    var q := Position(Intern(names, str), str);
    assert Intern(names, str)[p] == str;
  }

  lemma {:induction false} RunKeeps(names: Names, strs: seq<string>)
    requires Distinct(names)
    ensures Distinct(InternAll(names, strs)) && names <= InternAll(names, strs)
    decreases |strs|
  {
    if strs != [] {
      RunKeeps(names, strs[..|strs| - 1]);
      InternKeeps(InternAll(names, strs[..|strs| - 1]), strs[|strs| - 1]);
    }
  }

  lemma SymIsStable(names: Names, later: Names, str: string)
    requires Distinct(later) && names <= later && str in names
    ensures SymOf(later, str) == SymOf(names, str)
  {
    var p := Position(names, str);
    assert later[p] == str;
  }

  lemma NoneDistinct()
    ensures Distinct<string>([])
  {
  }

  lemma SymStands(names: Names, str: string)
    requires str in names
    ensures SymOf(names, str) > 0 && StrOf(names, SymOf(names, str)) == Some(str)
  {
    assert Position(names, str) < |names|;
  }

  /** Whatever is inserted before, between and after: the symbols that two insertions answer are
      positive, and equal exactly when the strings are; no later insertion changes what either
      string is given, or what either symbol stands for. */
  lemma StableBijection(first: seq<string>, a: string, second: seq<string>, b: string, third: seq<string>)
    ensures var beforeA := InternAll([], first);
      var beforeB := InternAll(Intern(beforeA, a), second);
      var end := InternAll(Intern(beforeB, b), third);
      var symA, symB := SymOf(beforeA, a), SymOf(beforeB, b);
      && symA > 0 && symB > 0 && (symA == symB <==> a == b)
      && SymOf(end, a) == symA && SymOf(end, b) == symB
      && StrOf(end, symA) == Some(a) && StrOf(end, symB) == Some(b)
  {
    hide InternAll, Intern, SymOf, StrOf, Distinct;
    var beforeA := InternAll([], first);
    assert Distinct<string>([]) by { NoneDistinct(); }
    RunKeeps([], first);
    InternKeeps(beforeA, a);
    var afterA := Intern(beforeA, a);
    RunKeeps(afterA, second);
    var beforeB := InternAll(afterA, second);
    InternKeeps(beforeB, b);
    var afterB := Intern(beforeB, b);
    RunKeeps(afterB, third);
    var end := InternAll(afterB, third);
    SymIsStable(afterA, end, a);
    SymIsStable(afterB, end, b);
    SymStands(end, a);
    SymStands(end, b);
  }
}
