/** Running the code generated for an expression does what evaluating it does. */
module ExprProof {
  import opened Options
  import opened PupAst
  import opened Ir
  import opened Runtime
  import opened Machine
  import opened AstEval
  import opened Codegen

  /** The finished function, the slots of its entry block, and the runtime it meets. */
  datatype Program = Program(w: World, f: seq<Block>, slots: seq<Slot>)

  ghost predicate ProgramOk(p: Program) {
    && (forall s, t :: 0 <= s < t < |p.slots| && p.slots[s].tag.Some? ==> p.slots[s].tag != p.slots[t].tag)
    && (forall s :: 0 <= s < |p.slots| && p.slots[s].tag.Some? ==> p.slots[s].cells == 1)
  }

  /** The generator state is a stage on the way to the program. */
  ghost predicate Linked(p: Program, cs: CS) {
    ProgramOk(p) && Within(cs.blocks, p.f) && cs.slots <= p.slots
  }

  lemma LinkedEarlier(p: Program, a: CS, b: CS)
    requires Linked(p, b) && Grows(a, b)
    ensures Linked(p, a)
  {
    hide Base, ProgramOk;
    assert forall i :: 0 <= i < |a.blocks| ==> SubBlock(a.blocks[i], b.blocks[i]) && SubBlock(b.blocks[i], p.f[i]);
  }

  lemma AdvancesGrows(a: CS, b: CS)
    requires Advances(a, b)
    ensures Grows(a, b)
  {}

  lemma LinkedBefore(p: Program, a: CS, b: CS)
    requires Linked(p, b) && Advances(a, b)
    ensures Linked(p, a)
  {
    hide Wf, Linked, Grows;
    AdvancesGrows(a, b);
    LinkedEarlier(p, a, b);
  }

  // ----- matching machine states with evaluator states

  /** Every slot is allocated and every variable's slot holds the variable's value. */
  ghost predicate MemMatch(slots: seq<Slot>, st: State, mem: Memory) {
    && (forall s, c :: 0 <= s < |slots| && 0 <= c < slots[s].cells ==> (s, c) in mem)
    && (forall s :: 0 <= s < |slots| && slots[s].tag.Some? && (s, 0) in mem ==> mem[(s, 0)] == Lookup(st, slots[s].tag.value))
  }

  ghost predicate Match(p: Program, st: State, m: Config) {
    m.Run? && m.trace == st.trace && MemMatch(p.slots, st, m.mem)
  }

  predicate AtEnd(cs: CS, m: Config) {
    m.Run? && m.blk == cs.cur && cs.cur < |cs.blocks| && m.pc == |cs.blocks[cs.cur].instrs|
  }

  /** Registers below k keep their values. */
  ghost predicate KeepsRegs(m: Config, m': Config, k: nat) {
    m.Run? && m'.Run? && forall r :: r < k && r in m.regs ==> r in m'.regs && m'.regs[r] == m.regs[r]
  }

  lemma ValueKept(w: World, op: Operand, cs: CS, m: Config, m': Config)
    requires m.Run? && m'.Run? && OperandOk(op, cs) && KeepsRegs(m, m', cs.nreg) && Value(w, op, m.regs).Some?
    ensures Value(w, op, m'.regs) == Value(w, op, m.regs)
  {}

  ghost predicate Thrown(p: Program, exc: Val, st: State, m: Config) {
    m.Threw? && m.thrown == exc && m.trace == st.trace && MemMatch(p.slots, st, m.mem)
  }

  /** An exception from an invocation goes to the landing pad, or out of the unit if there is none. */
  ghost predicate Caught(p: Program, pad: Option<nat>, exc: Val, st: State, m: Config) {
    if pad.Some? then Match(p, st, m) && m.blk == pad.value && m.pc == 0 && m.exc == exc
    else Thrown(p, exc, st, m)
  }

  /** The machine has reached the point that corresponds to the evaluator's result. */
  ghost predicate Agrees(p: Program, cs: CS, op: Operand, r: Result, m: Config) {
    match r
    case Ok(v, st) => AtEnd(cs, m) && Match(p, st, m) && Value(p.w, op, m.regs) == Some(v)
    case Raise(exc, st) => Caught(p, cs.pad, exc, st, m)
    case Escape(exc, st) => Thrown(p, exc, st, m)
    case Timeout => m.Run?
  }

  // ----- one instruction

  lemma RunInstr(p: Program, cs: CS, i: Instr, m: Config)
    requires Wf(cs) && Linked(p, Emit(cs, i)) && AtEnd(cs, m)
    ensures Step(p.w, p.f, m) == Exec(p.w, i, m)
    ensures forall m': Config :: m'.Run? && m'.blk == m.blk && m'.pc == m.pc + 1 ==> AtEnd(Emit(cs, i), m')
  {
    var c := Emit(cs, i);
    assert SubBlock(c.blocks[cs.cur], p.f[cs.cur]);
    assert c.blocks[cs.cur].instrs[m.pc] == i;
  }

  lemma SimPure(p: Program, cs: CS, op: PureOp, v: Val, m: Config, st: State) returns (m': Config)
    requires Wf(cs) && Linked(p, EmitPure(cs, op).0) && AtEnd(cs, m) && Match(p, st, m)
    requires PureValue(p.w, op, m.regs, m.exc) == Some(v)
    ensures m' == Steps(p.w, p.f, m, 1) && AtEnd(EmitPure(cs, op).0, m') && Match(p, st, m')
    ensures m'.regs == m.regs[cs.nreg := v] && m'.mem == m.mem && m'.exc == m.exc
    ensures KeepsRegs(m, m', cs.nreg) && Value(p.w, Reg(cs.nreg), m'.regs) == Some(v)
  {
    hide Wf, Linked, Emit, MemMatch;
    assert Wf(cs.(nreg := cs.nreg + 1)) by { WithNreg(cs); }
    RunInstr(p, cs.(nreg := cs.nreg + 1), Pure(cs.nreg, op), m);
    m' := Exec(p.w, Pure(cs.nreg, op), m);
    assert Steps(p.w, p.f, m, 1) == Steps(p.w, p.f, Step(p.w, p.f, m), 0);
  }

  lemma WithNreg(cs: CS)
    requires Wf(cs)
    ensures Wf(cs.(nreg := cs.nreg + 1))
  {}

  lemma SimCall(p: Program, cs: CS, op: CallOp, ev: Event, m: Config, st: State) returns (m': Config)
    requires Wf(cs) && Linked(p, EmitCall(cs, op).0) && AtEnd(cs, m) && Match(p, st, m)
    requires CallEvent(p.w, op, m.regs, m.mem) == Some(ev)
    ensures m' == Steps(p.w, p.f, m, 1)
    ensures Agrees(p, EmitCall(cs, op).0, Reg(cs.nreg), Ask(p.w, ev, st), m')
    ensures Ask(p.w, ev, st).Ok? ==> KeepsRegs(m, m', cs.nreg) && m'.mem == m.mem && m'.exc == m.exc
  {
    hide Wf, Linked, Emit, MemMatch;
    assert Wf(cs.(nreg := cs.nreg + 1)) by { WithNreg(cs); }
    RunInstr(p, cs.(nreg := cs.nreg + 1), CallI(cs.nreg, op), m);
    m' := Exec(p.w, CallI(cs.nreg, op), m);
    assert Steps(p.w, p.f, m, 1) == Steps(p.w, p.f, Step(p.w, p.f, m), 0);
    MemMatchIgnoresTrace(p.slots, st, m.mem, st.trace + [ev]);
  }

  lemma MemMatchIgnoresTrace(slots: seq<Slot>, st: State, mem: Memory, trace: seq<Event>)
    requires MemMatch(slots, st, mem)
    ensures MemMatch(slots, st.(trace := trace), mem)
  {
    forall s | 0 <= s < |slots| && slots[s].tag.Some?
      ensures Lookup(st.(trace := trace), slots[s].tag.value) == Lookup(st, slots[s].tag.value)
    {}
  }

  lemma SimLoad(p: Program, cs: CS, slot: nat, t: Tag, m: Config, st: State) returns (m': Config)
    requires Wf(cs) && Linked(p, EmitLoad(cs, slot).0) && AtEnd(cs, m) && Match(p, st, m)
    requires slot < |p.slots| && p.slots[slot].tag == Some(t)
    ensures m' == Steps(p.w, p.f, m, 1) && AtEnd(EmitLoad(cs, slot).0, m') && Match(p, st, m')
    ensures KeepsRegs(m, m', cs.nreg) && Value(p.w, Reg(cs.nreg), m'.regs) == Some(Lookup(st, t))
  {
    hide Wf, Emit;
    m' := SimLoadAny(p, cs, slot, m, st);
  }

  lemma SimLoadAny(p: Program, cs: CS, slot: nat, m: Config, st: State) returns (m': Config)
    requires Wf(cs) && Linked(p, EmitLoad(cs, slot).0) && AtEnd(cs, m) && Match(p, st, m)
    requires slot < |p.slots| && p.slots[slot].cells == 1 && (slot, 0) in m.mem
    ensures m' == Steps(p.w, p.f, m, 1) && AtEnd(EmitLoad(cs, slot).0, m') && Match(p, st, m')
    ensures KeepsRegs(m, m', cs.nreg) && Value(p.w, Reg(cs.nreg), m'.regs) == Some(m.mem[(slot, 0)])
  {
    hide Wf, Linked, Emit, MemMatch;
    assert Wf(cs.(nreg := cs.nreg + 1)) by { WithNreg(cs); }
    RunInstr(p, cs.(nreg := cs.nreg + 1), Load(cs.nreg, slot), m);
    m' := Exec(p.w, Load(cs.nreg, slot), m);
    assert Steps(p.w, p.f, m, 1) == Steps(p.w, p.f, Step(p.w, p.f, m), 0);
  }

  /** Storing to a variable's slot is assigning the variable. */
  lemma SimStoreVar(p: Program, cs: CS, op: Operand, v: Val, slot: nat, t: Tag, m: Config, st: State) returns (m': Config)
    requires Wf(cs) && Linked(p, Emit(cs, Store(op, slot, 0))) && AtEnd(cs, m) && Match(p, st, m)
    requires slot < |p.slots| && p.slots[slot].tag == Some(t) && Value(p.w, op, m.regs) == Some(v)
    ensures m' == Steps(p.w, p.f, m, 1) && AtEnd(Emit(cs, Store(op, slot, 0)), m') && Match(p, Assign(st, t, v), m')
    ensures m'.regs == m.regs && m'.exc == m.exc
  {
    hide Wf, Emit;
    RunInstr(p, cs, Store(op, slot, 0), m);
    m' := Exec(p.w, Store(op, slot, 0), m);
    assert Steps(p.w, p.f, m, 1) == Steps(p.w, p.f, Step(p.w, p.f, m), 0);
    assert (slot, 0) in m.mem;
  }

  /** Storing to a temporary changes no variable. */
  lemma SimStoreTemp(p: Program, cs: CS, op: Operand, v: Val, slot: nat, cell: nat, m: Config, st: State) returns (m': Config)
    requires Wf(cs) && Linked(p, Emit(cs, Store(op, slot, cell))) && AtEnd(cs, m) && Match(p, st, m)
    requires slot < |p.slots| && p.slots[slot].tag == None && cell < p.slots[slot].cells && Value(p.w, op, m.regs) == Some(v)
    ensures m' == Steps(p.w, p.f, m, 1) && AtEnd(Emit(cs, Store(op, slot, cell)), m') && Match(p, st, m')
    ensures m'.regs == m.regs && m'.exc == m.exc && m'.mem == m.mem[(slot, cell) := v]
  {
    hide Wf, Emit, Linked;
    RunInstr(p, cs, Store(op, slot, cell), m);
    assert (slot, cell) in m.mem;
    m' := Exec(p.w, Store(op, slot, cell), m);
    assert Steps(p.w, p.f, m, 1) == Steps(p.w, p.f, Step(p.w, p.f, m), 0);
  }

  lemma StepsZero(w: World, f: seq<Block>, m: Config)
    ensures Steps(w, f, m, 0) == m
  {}

  // ----- names

  /** The generator's table of locals is the evaluator's set of names. */
  lemma {:induction false} NamesOfExpr(e: Expr, cs: CS)
    requires Wf(cs)
    ensures GenExpr(e, cs).0.locals.Keys == NamesExpr(e, cs.locals.Keys) && GenExpr(e, cs).0.whiles == cs.whiles
    decreases e, 1
  {
    hide Wf, Advances, Emit, GenInvocation, GenConst;
    match e
    case Call(recv, x, args) =>
      if recv.Some? {
        NamesOfExpr(recv.value, cs);
      }
      NamesOfArgs(args, if recv.Some? then GenExpr(recv.value, cs).0 else cs);
    case Binary(kind, op, left, right) =>
      NamesOfExpr(left, cs);
      NamesOfExpr(right, GenExpr(left, cs).0);
    case AssignLocal(x, rhs) => NamesOfExpr(rhs, GetOrCreateLocal(cs, x));
    case AssignInst(x, rhs) => NamesOfExpr(rhs, cs);
    case _ =>
  }

  lemma {:induction false} NamesOfArgs(args: seq<Expr>, cs: CS)
    requires Wf(cs)
    ensures GenArgs(args, cs).0.locals.Keys == NamesArgs(args, cs.locals.Keys) && GenArgs(args, cs).0.whiles == cs.whiles
    decreases args, 0
  {
    hide Wf, Advances, Emit;
    if args != [] {
      NamesOfExpr(args[0], cs);
      NamesOfArgs(args[1..], GenExpr(args[0], cs).0);
    }
  }

  // ----- method invocations

  ghost predicate HaveValues(w: World, ops: seq<Operand>, vals: seq<Val>, regs: Regs) {
    |ops| == |vals| && forall i :: 0 <= i < |ops| ==> Value(w, ops[i], regs) == Some(vals[i])
  }

  lemma {:induction false} ReadBack(slot: nat, vals: seq<Val>, n: nat, mem: Memory)
    requires n <= |vals| && forall i :: 0 <= i < n ==> (slot, i) in mem && mem[(slot, i)] == vals[i]
    ensures ReadArgs(Some(slot), n, mem) == Some(vals[..n])
    decreases n
  {
    if n > 0 {
      ReadBack(slot, vals, n - 1, mem);
      assert vals[..n] == vals[..n - 1] + [vals[n - 1]];
    }
  }

  lemma {:induction false} SimStoreArgs(p: Program, ops: seq<Operand>, vals: seq<Val>, slot: nat, cell: nat, cs: CS,
                                        m: Config, st: State) returns (n: nat, m': Config)
    requires Wf(cs) && Linked(p, StoreArgs(ops, slot, cell, cs)) && AtEnd(cs, m) && Match(p, st, m)
    requires slot < |p.slots| && p.slots[slot].tag == None && cell + |ops| <= p.slots[slot].cells
    requires HaveValues(p.w, ops, vals, m.regs)
    ensures m' == Steps(p.w, p.f, m, n) && AtEnd(StoreArgs(ops, slot, cell, cs), m') && Match(p, st, m')
    ensures m'.regs == m.regs && m'.exc == m.exc
    ensures forall c :: cell <= c < cell + |ops| ==> (slot, c) in m'.mem && m'.mem[(slot, c)] == vals[c - cell]
    ensures forall c :: c < cell && (slot, c) in m.mem ==> (slot, c) in m'.mem && m'.mem[(slot, c)] == m.mem[(slot, c)]
    decreases |ops|
  {
    hide Steps, Grows, Value;
    hide Wf, Linked, Emit, Advances, MemMatch;
    if ops == [] {
      n, m' := 0, m;
      StepsZero(p.w, p.f, m);
    } else {
      var c1 := Emit(cs, Store(ops[0], slot, cell));
      var c2 := StoreArgs(ops[1..], slot, cell + 1, c1);
      LinkedBefore(p, c1, c2);
      var m1 := SimStoreTemp(p, cs, ops[0], vals[0], slot, cell, m, st);
      assert HaveValues(p.w, ops[1..], vals[1..], m1.regs);
      var n2;
      n2, m' := SimStoreArgs(p, ops[1..], vals[1..], slot, cell + 1, c1, m1, st);
      StepsAdd(p.w, p.f, m, 1, n2);
      n := 1 + n2;
    }
  }

  lemma SimArgv(p: Program, ops: seq<Operand>, vals: seq<Val>, cs: CS, m: Config, st: State) returns (n: nat, m': Config)
    requires Wf(cs) && Linked(p, GenArgv(ops, cs).0) && AtEnd(cs, m) && Match(p, st, m) && HaveValues(p.w, ops, vals, m.regs)
    ensures m' == Steps(p.w, p.f, m, n) && AtEnd(GenArgv(ops, cs).0, m') && Match(p, st, m') && m'.regs == m.regs
    ensures ReadArgs(GenArgv(ops, cs).1, |ops|, m'.mem) == Some(vals)
  {
    hide Wf, Linked, MemMatch, HaveValues, Steps;
    if ops == [] {
      n, m' := 0, m;
      StepsZero(p.w, p.f, m);
      assert vals == [] by { NoValues(p.w, ops, vals, m.regs); }
    } else {
      n, m' := SimSomeArgs(p, ops, vals, cs, m, st);
    }
  }

  lemma NoValues(w: World, ops: seq<Operand>, vals: seq<Val>, regs: Regs)
    requires HaveValues(w, ops, vals, regs)
    ensures |vals| == |ops|
  {}

  lemma SimSomeArgs(p: Program, ops: seq<Operand>, vals: seq<Val>, cs: CS, m: Config, st: State) returns (n: nat, m': Config)
    requires Wf(cs) && ops != [] && Linked(p, GenArgv(ops, cs).0) && AtEnd(cs, m) && Match(p, st, m) && HaveValues(p.w, ops, vals, m.regs)
    ensures m' == Steps(p.w, p.f, m, n) && AtEnd(GenArgv(ops, cs).0, m') && Match(p, st, m') && m'.regs == m.regs
    ensures ReadArgs(GenArgv(ops, cs).1, |ops|, m'.mem) == Some(vals)
  {
    hide Wf, Base, Linked, ProgramOk, Advances, MemMatch, AllocSlot, StoreArgs, Steps, Grows, HaveValues, ReadArgs, Value;
    var slot := |cs.slots|;
    var c1 := AllocSlot(cs, Slot(None, |ops|));
    SlotAllocated(p, c1, StoreArgs(ops, slot, 0, c1), slot, Slot(None, |ops|));
    n, m' := SimStoreArgs(p, ops, vals, slot, 0, c1, m, st);
    NoValues(p.w, ops, vals, m.regs);
    ReadBack(slot, vals, |vals|, m'.mem);
    assert vals[..|vals|] == vals;
  }

  lemma SlotAllocated(p: Program, c1: CS, c2: CS, slot: nat, info: Slot)
    requires Wf(c1) && Advances(c1, c2) && Linked(p, c2) && slot < |c1.slots| && c1.slots[slot] == info
    ensures slot < |p.slots| && p.slots[slot] == info && Linked(p, c1)
  {
    hide Wf, Base;
    LinkedBefore(p, c1, c2);
  }

  /** The machine passes an invocation's outcome on as the evaluator does. */
  lemma SimInvocation(p: Program, recv: Operand, name: string, ops: seq<Operand>, cs: CS,
                      rv: Val, vals: seq<Val>, m: Config, st: State) returns (n: nat, m': Config)
    requires Wf(cs) && Linked(p, GenInvocation(recv, name, ops, cs).0) && AtEnd(cs, m) && Match(p, st, m)
    requires OperandOk(recv, cs) && Value(p.w, recv, m.regs) == Some(rv) && HaveValues(p.w, ops, vals, m.regs)
    ensures m' == Steps(p.w, p.f, m, n)
    ensures var (c, v) := GenInvocation(recv, name, ops, cs); Agrees(p, c, v, Send(p.w, rv, name, vals, st), m')
    ensures Send(p.w, rv, name, vals, st).Ok? ==> KeepsRegs(m, m', cs.nreg)
  {
    hide Wf, Linked, Emit, EmitPure, EmitCall, Advances, MemMatch, GenArgv, GenInvoke, ReadArgs, Steps, CallEvent, Value, OperandOk, Grows;
    var (c1, argv) := GenArgv(ops, cs);
    var (c2, sym) := EmitPure(c1, OpSym(name));
    var call := OpInvoke(recv, sym, |ops|, argv);
    var (c3, v) := GenInvocation(recv, name, ops, cs);
    LinkedBefore(p, c2, c3) by {
      assert Wf(c2);
    }
    LinkedBefore(p, c1, c2);
    var n1, m1 := SimArgv(p, ops, vals, cs, m, st);
    var m2 := SimPure(p, c1, OpSym(name), SymVal(name), m1, st);
    StepsAdd(p.w, p.f, m, n1, 1);
    ValueKept(p.w, recv, cs, m1, m2);
    InvokeEvent(p.w, recv, rv, sym, name, |ops|, argv, vals, m2.regs, m2.mem);
    if c2.pad.Some? {
      m' := SimInvoke(p, c2, call, InvokeE(rv, name, vals), m2, st);
    } else {
      m' := SimCall(p, c2, call, InvokeE(rv, name, vals), m2, st);
    }
    StepsAdd(p.w, p.f, m, n1 + 1, 1);
    n := n1 + 1 + 1;
  }

  lemma InvokeEvent(w: World, recv: Operand, rv: Val, sym: Operand, name: string, argc: nat, argv: Option<nat>, vals: seq<Val>,
                    regs: Regs, mem: Memory)
    requires Value(w, recv, regs) == Some(rv) && Value(w, sym, regs) == Some(SymVal(name))
    requires ReadArgs(argv, argc, mem) == Some(vals)
    ensures CallEvent(w, OpInvoke(recv, sym, argc, argv), regs, mem) == Some(InvokeE(rv, name, vals))
  {
    hide Value, ReadArgs;
  }

  lemma SimInvoke(p: Program, cs: CS, call: CallOp, ev: Event, m: Config, st: State) returns (m': Config)
    requires Wf(cs) && cs.pad.Some? && Linked(p, GenInvoke(call, cs.pad.value, cs).0) && AtEnd(cs, m) && Match(p, st, m)
    requires CallEvent(p.w, call, m.regs, m.mem) == Some(ev) && ev.InvokeE?
    ensures m' == Steps(p.w, p.f, m, 1)
    ensures Agrees(p, GenInvoke(call, cs.pad.value, cs).0, Reg(cs.nreg), Send(p.w, ev.recv, ev.meth, ev.args, st), m')
    ensures m'.Run? && (Send(p.w, ev.recv, ev.meth, ev.args, st).Ok? ==> KeepsRegs(m, m', cs.nreg))
  {
    hide MemMatch, Emit, Advances;
    var c := GenInvoke(call, cs.pad.value, cs).0;
    assert SubBlock(c.blocks[cs.cur], p.f[cs.cur]);
    assert p.f[cs.cur] == Block(cs.blocks[cs.cur].instrs, Some(InvokeT(cs.nreg, call, |cs.blocks|, cs.pad.value)));
    m' := Jump(p.w, p.f[cs.cur].term.value, m);
    assert Steps(p.w, p.f, m, 1) == Steps(p.w, p.f, Step(p.w, p.f, m), 0);
    MemMatchIgnoresTrace(p.slots, st, m.mem, st.trace + [ev]);
  }

  // ----- expressions

  /** The main step: code for an expression agrees with its evaluation, whatever code follows. */
  lemma {:induction false} SimExpr(p: Program, e: Expr, cs: CS, m: Config, st: State) returns (n: nat, m': Config)
    requires Wf(cs) && Linked(p, GenExpr(e, cs).0) && AtEnd(cs, m) && Match(p, st, m)
    ensures m' == Steps(p.w, p.f, m, n)
    ensures var r := EvalExpr(p.w, e, cs.locals.Keys, st);
      && Agrees(p, GenExpr(e, cs).0, GenExpr(e, cs).1, r, m') && !r.Timeout?
      && (r.Ok? ==> KeepsRegs(m, m', cs.nreg))
    decreases e, 1
  {
    hide Steps, Grows;
    hide Wf, Linked, Emit, EmitPure, EmitCall, EmitLoad, Advances, MemMatch, GenInvocation, GetOrCreateLocal;
    match e
    case IntLit(k) => n := 1; m' := SimCall(p, cs, OpFixnum(k), FixnumE(k), m, st);
    case StrLit(s) => n := 1; m' := SimCall(p, cs, OpString(s), StringE(s), m, st);
    case BoolLit(b) => n := 1; m' := SimPure(p, cs, OpBool(b), if b then p.w.trueObj else p.w.falseObj, m, st);
    case SelfRef => n, m' := 0, m; StepsZero(p.w, p.f, m);
    case InstVar(x) => n, m' := SimIvGet(p, x, cs, m, st);
    case Const(x) => n, m' := SimConst(p, x, cs, m, st);
    case Name(x) =>
      if x in cs.locals {
        AdvancesGrows(cs, EmitLoad(cs, cs.locals[x]).0);
        LocalSlot(p, x, cs, EmitLoad(cs, cs.locals[x]).0);
        n := 1; m' := SimLoad(p, cs, cs.locals[x], Local(x), m, st);
      } else {
        n, m' := SimInvocation(p, Self, x, [], cs, p.w.self, [], m, st);
      }
    case Call(recv, x, args) => n, m' := SimCallExpr(p, e, cs, m, st);
    case Binary(kind, op, left, right) => n, m' := SimBinary(p, e, cs, m, st);
    case AssignLocal(x, rhs) => n, m' := SimAssignLocal(p, e, cs, m, st);
    case AssignInst(x, rhs) => n, m' := SimAssignInst(p, e, cs, m, st);
  }

  /** The slot of a known local holds that local in the finished program. */
  lemma LocalSlot(p: Program, x: string, cs: CS, c: CS)
    requires Wf(cs) && x in cs.locals && Linked(p, c) && Grows(cs, c)
    ensures cs.locals[x] < |p.slots| && p.slots[cs.locals[x]].tag == Some(Local(x))
  {
    assert SlotsOk(cs.slots, cs.locals, cs.whiles);
  }

  lemma SimIvGet(p: Program, x: string, cs: CS, m: Config, st: State) returns (n: nat, m': Config)
    requires Wf(cs) && Linked(p, GenExpr(InstVar(x), cs).0) && AtEnd(cs, m) && Match(p, st, m)
    ensures m' == Steps(p.w, p.f, m, n)
    ensures var r := Ask(p.w, IvGetE(p.w.self, x), st);
      && Agrees(p, GenExpr(InstVar(x), cs).0, GenExpr(InstVar(x), cs).1, r, m')
      && (r.Ok? ==> KeepsRegs(m, m', cs.nreg))
  {
    hide Steps, Grows;
    hide Wf, Linked, Emit, EmitPure, EmitCall, Advances, MemMatch;
    var (c1, sym) := EmitPure(cs, OpSym(x));
    LinkedBefore(p, c1, EmitCall(c1, OpIvGet(Self, sym)).0);
    var m1 := SimPure(p, cs, OpSym(x), SymVal(x), m, st);
    m' := SimCall(p, c1, OpIvGet(Self, sym), IvGetE(p.w.self, x), m1, st);
    StepsAdd(p.w, p.f, m, 1, 1);
    n := 2;
  }

  lemma SimConst(p: Program, x: string, cs: CS, m: Config, st: State) returns (n: nat, m': Config)
    requires Wf(cs) && Linked(p, GenConst(x, cs).0) && AtEnd(cs, m) && Match(p, st, m)
    ensures m' == Steps(p.w, p.f, m, n)
    ensures var r := GetConst(p.w, x, st);
      && Agrees(p, GenConst(x, cs).0, GenConst(x, cs).1, r, m')
      && (r.Ok? ==> KeepsRegs(m, m', cs.nreg) && m'.exc == m.exc)
  {
    hide Steps, Grows;
    hide Wf, Linked, Emit, EmitPure, EmitCall, Advances, MemMatch;
    var (c1, cls) := EmitPure(cs, OpClassContext(Self));
    var (c2, sym) := EmitPure(c1, OpSym(x));
    var c3 := EmitCall(c2, OpConstGet(cls, sym)).0;
    LinkedBefore(p, c2, c3);
    LinkedBefore(p, c1, c2);
    var m1 := SimPure(p, cs, OpClassContext(Self), p.w.classContext(p.w.self), m, st);
    var m2 := SimPure(p, c1, OpSym(x), SymVal(x), m1, st);
    m' := SimCall(p, c2, OpConstGet(cls, sym), ConstGetE(p.w.classContext(p.w.self), x), m2, st);
    StepsAdd(p.w, p.f, m, 1, 1);
    StepsAdd(p.w, p.f, m, 2, 1);
    n := 3;
  }

  lemma {:induction false} SimArgs(p: Program, args: seq<Expr>, cs: CS, m: Config, st: State) returns (n: nat, m': Config)
    requires Wf(cs) && Linked(p, GenArgs(args, cs).0) && AtEnd(cs, m) && Match(p, st, m)
    ensures m' == Steps(p.w, p.f, m, n)
    ensures var a := EvalArgs(p.w, args, cs.locals.Keys, st);
      match a
      case OkArgs(vals, st') =>
        && AtEnd(GenArgs(args, cs).0, m') && Match(p, st', m') && KeepsRegs(m, m', cs.nreg)
        && HaveValues(p.w, GenArgs(args, cs).1, vals, m'.regs)
      case NotOk(r) => Agrees(p, GenArgs(args, cs).0, Self, r, m') && !r.Timeout?
    decreases args, 0
  {
    hide Steps, Grows;
    hide Wf, Linked, Advances, MemMatch, Match, GenExpr, EvalExpr;
    if args == [] {
      n, m' := 0, m;
      StepsZero(p.w, p.f, m);
    } else {
      var (c1, op) := GenExpr(args[0], cs);
      var (c2, ops) := GenArgs(args[1..], c1);
      LinkedBefore(p, c1, c2);
      NamesOfExpr(args[0], cs);
      var n1, m1 := SimExpr(p, args[0], cs, m, st);
      var r := EvalExpr(p.w, args[0], cs.locals.Keys, st);
      n, m' := n1, m1;
      if r.Ok? {
        var n2;
        n2, m' := SimArgs(p, args[1..], c1, m1, r.st);
        StepsAdd(p.w, p.f, m, n1, n2);
        n := n1 + n2;
        if EvalArgs(p.w, args[1..], c1.locals.Keys, r.st).OkArgs? {
          ValueKept(p.w, op, c1, m1, m');
        }
      }
    }
  }

  /** The receiver: self when none is written. */
  lemma {:induction false} SimReceiver(p: Program, recv: Option<Expr>, cs: CS, m: Config, st: State) returns (n: nat, m': Config)
    requires Wf(cs) && (recv.Some? ==> Linked(p, GenExpr(recv.value, cs).0)) && AtEnd(cs, m) && Match(p, st, m)
    ensures m' == Steps(p.w, p.f, m, n)
    ensures var r := if recv.Some? then EvalExpr(p.w, recv.value, cs.locals.Keys, st) else Ok(p.w.self, st);
      var (c, op) := if recv.Some? then GenExpr(recv.value, cs) else (cs, Self);
      && Agrees(p, c, op, r, m') && !r.Timeout?
      && (r.Ok? ==> KeepsRegs(m, m', cs.nreg))
      && c.locals.Keys == (if recv.Some? then NamesExpr(recv.value, cs.locals.Keys) else cs.locals.Keys)
    decreases recv, 2
  {
    hide Steps, Grows, Wf, Linked, Advances, MemMatch, GenExpr, EvalExpr;
    if recv.Some? {
      NamesOfExpr(recv.value, cs);
      n, m' := SimExpr(p, recv.value, cs, m, st);
    } else {
      n, m' := 0, m;
      StepsZero(p.w, p.f, m);
    }
  }

  lemma {:induction false} SimCallExpr(p: Program, e: Expr, cs: CS, m: Config, st: State) returns (n: nat, m': Config)
    requires e.Call? && Wf(cs) && Linked(p, GenExpr(e, cs).0) && AtEnd(cs, m) && Match(p, st, m)
    ensures m' == Steps(p.w, p.f, m, n)
    ensures var r := EvalExpr(p.w, e, cs.locals.Keys, st);
      && Agrees(p, GenExpr(e, cs).0, GenExpr(e, cs).1, r, m') && !r.Timeout?
      && (r.Ok? ==> KeepsRegs(m, m', cs.nreg))
    decreases e, 0
  {
    hide Steps, Grows, Wf, Linked, Advances, MemMatch, GenInvocation, HaveValues, GenArgs, EvalArgs;
    var w := p.w;
    var (c1, rop) := if e.recv.Some? then GenExpr(e.recv.value, cs) else (cs, Self);
    var (c2, ops) := GenArgs(e.args, c1);
    LinkedBefore(p, c2, GenInvocation(rop, e.meth, ops, c2).0);
    LinkedBefore(p, c1, c2);
    var r := if e.recv.Some? then EvalExpr(w, e.recv.value, cs.locals.Keys, st) else Ok(w.self, st);
    n, m' := SimReceiver(p, e.recv, cs, m, st);
    if r.Ok? {
      var n1, m1 := n, m';
      var n2, m2 := SimArgs(p, e.args, c1, m1, r.st);
      StepsAdd(w, p.f, m, n1, n2);
      n, m' := n1 + n2, m2;
      var a := EvalArgs(w, e.args, c1.locals.Keys, r.st);
      if a.OkArgs? {
        ValueKept(w, rop, c1, m1, m2);
        var n3;
        n3, m' := SimInvocation(p, rop, e.meth, ops, c2, r.val, a.vals, m2, a.st);
        StepsAdd(w, p.f, m, n1 + n2, n3);
        n := n1 + n2 + n3;
      }
    }
  }

  lemma {:induction false} SimBinary(p: Program, e: Expr, cs: CS, m: Config, st: State) returns (n: nat, m': Config)
    requires e.Binary? && Wf(cs) && Linked(p, GenExpr(e, cs).0) && AtEnd(cs, m) && Match(p, st, m)
    ensures m' == Steps(p.w, p.f, m, n)
    ensures var r := EvalExpr(p.w, e, cs.locals.Keys, st);
      && Agrees(p, GenExpr(e, cs).0, GenExpr(e, cs).1, r, m') && !r.Timeout?
      && (r.Ok? ==> KeepsRegs(m, m', cs.nreg))
    decreases e, 0
  {
    hide Steps, Grows;
    hide Wf, Linked, Advances, MemMatch, GenInvocation;
    var w, names := p.w, cs.locals.Keys;
    var (c1, lop) := GenExpr(e.left, cs);
    var (c2, rop) := GenExpr(e.right, c1);
    var (c3, v) := GenInvocation(lop, SentMessage(e.kind, e.op), [rop], c2);
    LinkedBefore(p, c2, c3);
    LinkedBefore(p, c1, c2);
    NamesOfExpr(e.left, cs);
    var l := EvalExpr(w, e.left, names, st);
    var n1, m1 := SimExpr(p, e.left, cs, m, st);
    n, m' := n1, m1;
    if l.Ok? {
      var n2, m2 := SimExpr(p, e.right, c1, m1, l.st);
      StepsAdd(w, p.f, m, n1, n2);
      n, m' := n1 + n2, m2;
      var r := EvalExpr(w, e.right, c1.locals.Keys, l.st);
      if r.Ok? {
        ValueKept(w, lop, c1, m1, m2);
        var n3;
        n3, m' := SimInvocation(p, lop, SentMessage(e.kind, e.op), [rop], c2, l.val, [r.val], m2, r.st);
        StepsAdd(w, p.f, m, n1 + n2, n3);
        n := n1 + n2 + n3;
      }
    }
  }

  lemma {:induction false} SimAssignLocal(p: Program, e: Expr, cs: CS, m: Config, st: State) returns (n: nat, m': Config)
    requires e.AssignLocal? && Wf(cs) && Linked(p, GenExpr(e, cs).0) && AtEnd(cs, m) && Match(p, st, m)
    ensures m' == Steps(p.w, p.f, m, n)
    ensures var r := EvalExpr(p.w, e, cs.locals.Keys, st);
      && Agrees(p, GenExpr(e, cs).0, GenExpr(e, cs).1, r, m') && !r.Timeout?
      && (r.Ok? ==> KeepsRegs(m, m', cs.nreg))
    decreases e, 0
  {
    hide Steps, Grows;
    hide Wf, Linked, Emit, Advances, MemMatch, GetOrCreateLocal;
    var c1 := GetOrCreateLocal(cs, e.lhs);
    var (c2, v) := GenExpr(e.rhs, c1);
    var slot := c1.locals[e.lhs];
    LinkedBefore(p, c2, Emit(c2, Store(v, slot, 0)));
    LinkedBefore(p, c1, c2);
    AdvancesGrows(c1, c2);
    LocalSlot(p, e.lhs, c1, c2);
    var r := EvalExpr(p.w, e.rhs, c1.locals.Keys, st);
    n, m' := SimExpr(p, e.rhs, c1, m, st);
    if r.Ok? {
      var n1 := n;
      m' := SimStoreVar(p, c2, v, r.val, slot, Local(e.lhs), m', r.st);
      StepsAdd(p.w, p.f, m, n1, 1);
      n := n1 + 1;
    }
  }

  lemma {:induction false} SimAssignInst(p: Program, e: Expr, cs: CS, m: Config, st: State) returns (n: nat, m': Config)
    requires e.AssignInst? && Wf(cs) && Linked(p, GenExpr(e, cs).0) && AtEnd(cs, m) && Match(p, st, m)
    ensures m' == Steps(p.w, p.f, m, n)
    ensures var r := EvalExpr(p.w, e, cs.locals.Keys, st);
      && Agrees(p, GenExpr(e, cs).0, GenExpr(e, cs).1, r, m') && !r.Timeout?
      && (r.Ok? ==> KeepsRegs(m, m', cs.nreg))
    decreases e, 0
  {
    hide Steps, Grows;
    hide Wf, Linked, Emit, EmitPure, EmitCall, Advances, MemMatch;
    var (c1, v) := GenExpr(e.irhs, cs);
    var (c2, sym) := EmitPure(c1, OpSym(e.ilhs));
    var op := OpIvSet(Self, sym, v);
    LinkedBefore(p, c2, EmitCall(c2, op).0);
    LinkedBefore(p, c1, c2);
    var r := EvalExpr(p.w, e.irhs, cs.locals.Keys, st);
    n, m' := SimExpr(p, e.irhs, cs, m, st);
    if r.Ok? {
      var n1, m1 := n, m';
      var m2 := SimPure(p, c1, OpSym(e.ilhs), SymVal(e.ilhs), m1, r.st);
      ValueKept(p.w, v, c1, m1, m2);
      m' := SimCall(p, c2, op, IvSetE(p.w.self, e.ilhs, r.val), m2, r.st);
      if m'.Run? {
        ValueKept(p.w, v, c1, m2, m');
      }
      StepsAdd(p.w, p.f, m, n1, 1);
      StepsAdd(p.w, p.f, m, n1 + 1, 1);
      n := n1 + 2;
    }
  }
}
