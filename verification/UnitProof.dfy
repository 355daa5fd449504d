/** The main theorem of code generation: a compiled unit does what evaluating it does. */
module UnitProof {
  import opened Options
  import opened PupAst
  import opened Ir
  import opened Runtime
  import opened Machine
  import opened AstEval
  import opened Codegen
  import opened ExprProof
  import opened StmtProof

  const NOTHING := State(map[], [])

  function EvalUnit(w: World, unit: seq<Stmt>, fuel: nat): Result {
    EvalStmts(w, unit, Static({}, 0), NOTHING, fuel)
  }

  /** The slot that holds each local of a compiled unit. */
  function LocalSlots(unit: seq<Stmt>): map<string, nat>
    requires WfStmts(unit, false)
  {
    GenStmts(unit, START).0.locals
  }

  // ----- the entry block

  /** The first k slots are allocated; those of variables hold what variables start with. */
  ghost predicate Allocated(slots: seq<Slot>, k: nat, mem: Memory) {
    && (forall s, c :: 0 <= s < k && s < |slots| && 0 <= c < slots[s].cells ==> (s, c) in mem)
    && (forall s :: 0 <= s < k && s < |slots| && slots[s].tag.Some? && (s, 0) in mem ==> mem[(s, 0)] == Initial(slots[s].tag.value))
  }

  lemma {:induction false} EntryPrefix(slots: seq<Slot>, k: nat)
    requires k < |slots|
    ensures EntryCode(slots[..k]) + SlotCode(k, slots[k]) <= EntryCode(slots)
    ensures EntryCode(slots[..k + 1]) == EntryCode(slots[..k]) + SlotCode(k, slots[k])
    decreases |slots|
  {
    assert slots[..k + 1][..k] == slots[..k];
    var n := |slots| - 1;
    if k < n {
      EntryPrefix(slots[..n], k);
      assert slots[..n][..k] == slots[..k];
    } else {
      assert slots[..k + 1] == slots;
    }
  }

  /** What memory holds when slot s has been allocated too. */
  function WithSlot(slots: seq<Slot>, s: nat, mem: Memory): Memory
    requires s < |slots|
  {
    var mem' := mem + Cells(s, slots[s].cells);
    if slots[s].tag.Some? && slots[s].tag.value.Local? then mem'[(s, 0) := Null] else mem'
  }

  lemma AllocatesOne(slots: seq<Slot>, s: nat, mem: Memory)
    requires s < |slots| && Allocated(slots, s, mem) && (slots[s].tag.Some? ==> slots[s].cells == 1)
    ensures Allocated(slots, s + 1, WithSlot(slots, s, mem))
    ensures slots[s].tag.Some? ==> (s, 0) in mem + Cells(s, slots[s].cells)
  {
    var mem' := WithSlot(slots, s, mem);
    forall t, c | 0 <= t < s && 0 <= c < slots[t].cells ensures (t, c) in mem' && mem'[(t, c)] == mem[(t, c)] {
      assert (t, c) !in Cells(s, slots[s].cells);
    }
    forall t | 0 <= t < s && slots[t].tag.Some? && (t, 0) in mem' ensures mem'[(t, 0)] == Initial(slots[t].tag.value) {
      assert (t, 0) !in Cells(s, slots[s].cells);
    }
  }

  /** Executing the code of one slot allocates it. */
  lemma SlotRuns(w: World, f: seq<Block>, slots: seq<Slot>, s: nat, m: Config) returns (n: nat, m': Config)
    requires f != [] && s < |slots| && m.Run? && m.blk == 0
    requires m.pc + |SlotCode(s, slots[s])| <= |f[0].instrs|
    requires f[0].instrs[m.pc..m.pc + |SlotCode(s, slots[s])|] == SlotCode(s, slots[s])
    requires slots[s].tag.Some? ==> slots[s].cells == 1
    requires Allocated(slots, s, m.mem)
    ensures m' == Steps(w, f, m, n) && m'.Run? && Allocated(slots, s + 1, m'.mem)
    ensures m' == m.(pc := m.pc + |SlotCode(s, slots[s])|, mem := m'.mem)
  {
    hide Steps, Allocated, Cells;
    AllocatesOne(slots, s, m.mem);
    var code := SlotCode(s, slots[s]);
    assert f[0].instrs[m.pc] == f[0].instrs[m.pc..m.pc + |code|][0] == Alloca(s, slots[s]);
    var m1 := m.(pc := m.pc + 1, mem := m.mem + Cells(s, slots[s].cells));
    StepOnce(w, f, m);
    n, m' := 1, m1;
    if |code| == 2 {
      assert f[0].instrs[m1.pc] == f[0].instrs[m.pc..m.pc + |code|][1] == GcRoot(s);
      StepOnce(w, f, m1);
      StepsAdd(w, f, m, 1, 1);
      n, m' := 2, m1.(pc := m1.pc + 1, mem := m1.mem[(s, 0) := Null]);
    }
  }

  lemma {:induction false} EntryRuns(w: World, f: seq<Block>, slots: seq<Slot>, k: nat) returns (n: nat, m: Config)
    requires f != [] && f[0].instrs == EntryCode(slots) && k <= |slots|
    requires forall s :: 0 <= s < |slots| && slots[s].tag.Some? ==> slots[s].cells == 1
    ensures m == Steps(w, f, INITIAL, n) && m.Run? && Allocated(slots, k, m.mem)
    ensures m == Run(0, |EntryCode(slots[..k])|, map[], m.mem, [], Undef)
    decreases k
  {
    hide Steps, SlotCode, Allocated;
    if k == 0 {
      n, m := 0, INITIAL;
      StepsZero(w, f, m);
      assert Allocated(slots, 0, m.mem) by { NothingAllocated(slots, m.mem); }
    } else {
      var n1, m1 := EntryRuns(w, f, slots, k - 1);
      var s := k - 1;
      EntryPrefix(slots, s);
      var code := SlotCode(s, slots[s]);
      assert EntryCode(slots)[m1.pc..m1.pc + |code|] == (EntryCode(slots[..s]) + code)[m1.pc..m1.pc + |code|] == code;
      var n2;
      n2, m := SlotRuns(w, f, slots, s, m1);
      StepsAdd(w, f, INITIAL, n1, n2);
      n := n1 + n2;
    }
  }

  lemma NothingAllocated(slots: seq<Slot>, mem: Memory)
    ensures Allocated(slots, 0, mem)
  {}

  lemma StepOnce(w: World, f: seq<Block>, m: Config)
    ensures Steps(w, f, m, 1) == Step(w, f, m)
  {
    assert Steps(w, f, m, 1) == Steps(w, f, Step(w, f, m), 0);
  }

  // ----- whole runs

  /** What an outside observer sees of a finished run: its outcome, the calls it made in
      order, and the final value of every local. */
  ghost predicate Observed(unit: seq<Stmt>, r: Result, m: Config)
    requires WfStmts(unit, false)
  {
    match r
    case Ok(v, st) => m.Returned? && m.val == v && m.trace == st.trace && LocalsAre(LocalSlots(unit), st, m.mem)
    case Raise(exc, st) => m.Threw? && m.thrown == exc && m.trace == st.trace && LocalsAre(LocalSlots(unit), st, m.mem)
    case Escape(exc, st) => m.Threw? && m.thrown == exc && m.trace == st.trace && LocalsAre(LocalSlots(unit), st, m.mem)
    case Timeout => false
  }

  ghost predicate LocalsAre(slots: map<string, nat>, st: State, mem: Memory) {
    forall x :: x in slots ==> (slots[x], 0) in mem && mem[(slots[x], 0)] == Lookup(st, Local(x))
  }

  lemma LocalsHold(p: Program, c: CS, st: State, mem: Memory)
    requires Wf(c) && p.slots == c.slots && MemMatch(p.slots, st, mem)
    ensures LocalsAre(c.locals, st, mem)
  {
    forall x | x in c.locals ensures (c.locals[x], 0) in mem && mem[(c.locals[x], 0)] == Lookup(st, Local(x)) {
      assert c.slots[c.locals[x]] == Slot(Some(Local(x)), 1);
    }
  }

  lemma UnitLinked(w: World, c: CS, v: Operand) returns (p: Program)
    requires Wf(c)
    ensures p == Program(w, Finish(c, v), c.slots) && Linked(p, c)
  {
    p := Program(w, Finish(c, v), c.slots);
  }

  /** The run of a compiled unit against its evaluation with the given fuel: a finished
      evaluation is what the run comes to; one that ran out of fuel means that the run
      goes on for at least that many steps. */
  lemma SimUnit(w: World, unit: seq<Stmt>, fuel: nat) returns (n: nat, m: Config)
    requires WfStmts(unit, false)
    ensures m == Steps(w, CompileUnit(unit), INITIAL, n)
    ensures var r := EvalUnit(w, unit, fuel); if r.Timeout? then m.Run? && n >= fuel else Observed(unit, r, m)
  {
    hide Wf, Base, Linked, MemMatch, Advances, Steps, GenStmts, EvalStmts, ProgramOk, Finish;
    StartOk();
    var (c, v) := GenStmts(unit, START);
    var p := UnitLinked(w, c, v);
    StartUnit(p, c);
    assert Known(START) == Static({}, 0);
    var n0, m0 := EntryRuns(w, p.f, p.slots, |p.slots|);
    StartMatches(p, m0.mem);
    assert p.slots[..|p.slots|] == p.slots;
    StepOnce(w, p.f, m0);
    StepsAdd(w, p.f, INITIAL, n0, 1);
    var m1 := m0.(blk := 1, pc := 0);
    var n2, m2 := SimStmts(p, unit, START, m1, NOTHING, fuel);
    StepsAdd(w, p.f, INITIAL, n0 + 1, n2);
    n, m := n0 + 1 + n2, m2;
    var r := EvalUnit(w, unit, fuel);
    match r
    case Timeout =>
    case Ok(x, st) =>
      StepsAdd(w, p.f, INITIAL, n, 1);
      StepOnce(w, p.f, m2);
      n, m := n + 1, Step(w, p.f, m2);
      LocalsHold(p, c, st, m.mem);
    case Raise(_, st) => LocalsHold(p, c, st, m.mem);
    case Escape(_, st) => LocalsHold(p, c, st, m.mem);
  }

  lemma StartOk()
    ensures Wf(START)
  {}

  lemma StartUnit(p: Program, c: CS)
    requires Wf(c) && p.slots == c.slots && |p.f| == |c.blocks|
    ensures 0 < c.cur < |c.blocks|
    ensures forall s :: 0 <= s < |p.slots| && p.slots[s].tag.Some? ==> p.slots[s].cells == 1
  {}

  lemma StartMatches(p: Program, mem: Memory)
    requires Allocated(p.slots, |p.slots|, mem)
    requires forall s :: 0 <= s < |p.slots| && p.slots[s].tag.Some? ==> p.slots[s].cells == 1
    ensures MemMatch(p.slots, NOTHING, mem)
  {
    forall s | 0 <= s < |p.slots| && p.slots[s].tag.Some? && (s, 0) in mem
      ensures mem[(s, 0)] == Lookup(NOTHING, p.slots[s].tag.value)
    {}
  }

  /** Meaning is preserved: if evaluating the unit comes to an end, then so does running
      the compiled unit, with the same outcome, calls and locals. */
  lemma MeaningPreserved(w: World, unit: seq<Stmt>, fuel: nat)
    requires WfStmts(unit, false) && !EvalUnit(w, unit, fuel).Timeout?
    ensures exists n: nat :: Observed(unit, EvalUnit(w, unit, fuel), Steps(w, CompileUnit(unit), INITIAL, n))
  {
    var n, m := SimUnit(w, unit, fuel);
  }

  /** And conversely: a run of the compiled unit that stops does so as the evaluation says. */
  lemma StopsAsEvaluated(w: World, unit: seq<Stmt>, n: nat)
    requires WfStmts(unit, false) && !Steps(w, CompileUnit(unit), INITIAL, n).Run?
    ensures Observed(unit, EvalUnit(w, unit, n + 1), Steps(w, CompileUnit(unit), INITIAL, n))
  {
    hide Steps, CompileUnit, EvalUnit;
    var f := CompileUnit(unit);
    var k, m := SimUnit(w, unit, n + 1);
    var a := Steps(w, f, INITIAL, n);
    if k >= n {
      StepsAdd(w, f, INITIAL, n, k - n);
      StoppedStays(w, f, a, k - n);
    } else {
      StepsAdd(w, f, INITIAL, k, n - k);
      StoppedStays(w, f, m, n - k);
    }
  }

  /** A compiled unit never reads a register or slot that is not there, nor runs off a block. */
  lemma NeverStuck(w: World, unit: seq<Stmt>, n: nat)
    requires WfStmts(unit, false)
    ensures Steps(w, CompileUnit(unit), INITIAL, n) != Stuck
  {
    if Steps(w, CompileUnit(unit), INITIAL, n) == Stuck {
      StopsAsEvaluated(w, unit, n);
    }
  }

  /** The locals of a compiled unit are the names its text assigns. */
  lemma LocalsAreAssignedNames(unit: seq<Stmt>)
    requires WfStmts(unit, false)
    ensures LocalSlots(unit).Keys == StaticStmts(unit, Static({}, 0)).names
  {
    assert Known(START) == Static({}, 0);
    KnownStmts(unit, START);
  }
}
