/** The symbol table: a linked list that new strings are appended to. */
module SymTable {
  import opened Options
  import opened Sequences
  import opened Symbols

  class Entry {
    const sym: int
    const str: string
    var next: Entry?

    constructor (sym: int, str: string)
      ensures this.sym == sym && this.str == str && next == null
    {
      this.sym, this.str, next := sym, str, null;
    }
  }

  class SymTable {
    var nextSym: int
    var head: Entry?
    ghost var entries: seq<Entry>

    constructor ()
      ensures Valid() && Contents() == []
    {
      nextSym, head, entries := 1, null, [];
    }

    ghost predicate Valid()
      reads this, entries
    {
      && nextSym == |entries| + 1 && head == EntryAt(entries, 0)
      && (forall i :: 0 <= i < |entries| ==> entries[i].next == EntryAt(entries, i + 1) && entries[i].sym == i + 1)
      && (forall i, j :: 0 <= i < j < |entries| ==> entries[i] != entries[j])
      && Distinct(Contents())
    }

    ghost function Contents(): (r: Names)
      reads this
      ensures |r| == |entries| && forall i :: 0 <= i < |r| ==> r[i] == entries[i].str
    {
      StrsOf(entries)
    }

    /** The entry for the string, or none; and the entry before the place that was reached. */
    method FindEntry(str: string) returns (prev: Entry?, entry: Entry?)
      requires Valid()
      ensures var p := Position(Contents(), str);
        entry == EntryAt(entries, p) && prev == (if p == 0 then null else entries[p - 1])
    {
      hide Position, StrsOf, Distinct;
      prev, entry := null, head;
      ghost var i := 0;
      while entry != null
        invariant i <= |entries| && entry == EntryAt(entries, i) && prev == (if i == 0 then null else entries[i - 1])
        invariant forall j :: 0 <= j < i ==> Contents()[j] != str
        decreases |entries| - i
      {
        if entry.str == str {
          break;
        }
        prev, entry := entry, entry.next;
        i := i + 1;
      }
      PositionIs(Contents(), str, i);
    }

    method StrToSym(str: string) returns (sym: int)
      requires Valid()
      modifies this, entries
      ensures Valid() && sym == SymOf(old(Contents()), str) && Contents() == Intern(old(Contents()), str)
      ensures forall e :: e in entries && e !in old(entries) ==> fresh(e)
    {
      hide Position, StrsOf, Distinct;
      ghost var p := Position(Contents(), str);
      var prev, entry := FindEntry(str);
      if entry != null {
        assert Contents()[p] == str;
        return entry.sym;
      }
      sym := Append(prev, str);
    }

    /** A new entry goes into the place that a search for its string has come to. */
    method Append(prev: Entry?, str: string) returns (sym: int)
      requires Valid() && str !in Contents() && prev == (if entries == [] then null else entries[|entries| - 1])
      modifies this, (if prev == null then {} else {prev})
      ensures Valid() && sym == |old(entries)| + 1 && Contents() == old(Contents()) + [str]
      ensures |entries| == |old(entries)| + 1 && entries[..|old(entries)|] == old(entries) && fresh(entries[|old(entries)|])
    {
      hide Position, StrsOf, Distinct;
      ghost var names := Contents();
      InternKeeps(names, str);
      var e := new Entry(nextSym, str);
      nextSym := nextSym + 1;
      if prev == null {
        head := e;
      } else {
        prev.next := e;
      }
      entries := entries + [e];
      assert Contents() == names + [str];
      return e.sym;
    }

    method GetSym(str: string) returns (r: Option<int>)
      requires Valid()
      ensures r == if str in Contents() then Some(SymOf(Contents(), str)) else None
    {
      var prev, entry := FindEntry(str);
      if entry != null {
        assert Contents()[Position(Contents(), str)] == str;
        return Some(entry.sym);
      }
      return None;
    }

    method SymToStr(sym: int) returns (r: Option<string>)
      requires Valid()
      ensures r == StrOf(Contents(), sym)
    {
      var entry := head;
      ghost var i := 0;
      while entry != null
        invariant i <= |entries| && entry == EntryAt(entries, i)
        invariant !(1 <= sym <= i)
        decreases |entries| - i
      {
        if entry.sym == sym {
          return Some(entry.str);
        }
        entry := entry.next;
        i := i + 1;
      }
      return None;
    }
  }

  ghost function EntryAt(entries: seq<Entry>, i: nat): Entry? {
    if i < |entries| then entries[i] else null
  }

  ghost function StrsOf(entries: seq<Entry>): (r: Names)
    ensures |r| == |entries| && forall i :: 0 <= i < |r| ==> r[i] == entries[i].str
  {
    if entries == [] then [] else [entries[0].str] + StrsOf(entries[1..])
  }
}
