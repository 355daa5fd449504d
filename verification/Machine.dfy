/** A small-step semantics for the intermediate representation. */
module Machine {
  import opened Options
  import opened Ir
  import opened Runtime

  type Regs = map<nat, Val>
  type Memory = map<(nat, nat), Val>  // by slot and cell

  datatype Config =
    | Run(blk: nat, pc: nat, regs: Regs, mem: Memory, trace: seq<Event>, exc: Val)
    | Returned(val: Val, mem: Memory, trace: seq<Event>)
    | Threw(thrown: Val, mem: Memory, trace: seq<Event>)
    | Stuck

  const INITIAL := Run(0, 0, map[], map[], [], Undef)

  function Value(w: World, op: Operand, regs: Regs): Option<Val> {
    match op
    case Self => Some(w.self)
    case NullPtr => Some(Null)
    case Reg(r) => if r in regs then Some(regs[r]) else None
  }

  /** The first n cells of an argument array. */
  function ReadArgs(argv: Option<nat>, n: nat, mem: Memory): Option<seq<Val>> {
    if n == 0 then Some([])
    else if argv.None? || (argv.value, n - 1) !in mem then None
    else
      var init := ReadArgs(argv, n - 1, mem);
      if init.None? then None else Some(init.value + [mem[(argv.value, n - 1)]])
  }

  function CallEvent(w: World, op: CallOp, regs: Regs, mem: Memory): Option<Event> {
    match op
    case OpFixnum(n) => Some(FixnumE(n))
    case OpString(s) => Some(StringE(s))
    case OpSafepoint => Some(SafepointE)
    case OpIvGet(o, s) =>
      (match (Value(w, o, regs), Value(w, s, regs))
       case (Some(obj), Some(SymVal(x))) => Some(IvGetE(obj, x))
       case _ => None)
    case OpIvSet(o, s, v) =>
      (match (Value(w, o, regs), Value(w, s, regs), Value(w, v, regs))
       case (Some(obj), Some(SymVal(x)), Some(val)) => Some(IvSetE(obj, x, val))
       case _ => None)
    case OpConstGet(c, s) =>
      (match (Value(w, c, regs), Value(w, s, regs))
       case (Some(cls), Some(SymVal(x))) => Some(ConstGetE(cls, x))
       case _ => None)
    case OpInvoke(r, s, argc, argv) =>
      (match (Value(w, r, regs), Value(w, s, regs), ReadArgs(argv, argc, mem))
       case (Some(recv), Some(SymVal(m)), Some(args)) => Some(InvokeE(recv, m, args))
       case _ => None)
  }

  function PureValue(w: World, op: PureOp, regs: Regs, exc: Val): Option<Val> {
    match op
    case OpBool(b) => Some(if b then w.trueObj else w.falseObj)
    case OpSym(x) => Some(SymVal(x))
    case OpClassContext(o) =>
      var v := Value(w, o, regs);
      if v.Some? then Some(w.classContext(v.value)) else None
    case OpEq(a, b) =>
      (match (Value(w, a, regs), Value(w, b, regs))
       case (Some(x), Some(y)) => Some(Bit(x == y))
       case _ => None)
    case OpException => Some(Unwinding(exc))
    case OpSelector(e) => Value(w, e, regs)
    case OpExtract(e) =>
      (match Value(w, e, regs)
       case Some(Unwinding(x)) => Some(x)
       case _ => None)
    case OpTypeOf(o) =>
      var v := Value(w, o, regs);
      if v.Some? then Some(w.classOf(v.value)) else None
    case OpDescendant(a, d) =>
      (match (Value(w, a, regs), Value(w, d, regs))
       case (Some(x), Some(y)) => Some(Bit(IsDescendant(w, x, y)))
       case _ => None)
  }

  function Cells(slot: nat, n: nat): Memory {
    map i: nat | i < n :: (slot, i) := Undef
  }

  function Exec(w: World, i: Instr, m: Config): Config
    requires m.Run?
  {
    match i
    case Alloca(s, info) => m.(pc := m.pc + 1, mem := m.mem + Cells(s, info.cells))
    case GcRoot(s) => if (s, 0) in m.mem then m.(pc := m.pc + 1, mem := m.mem[(s, 0) := Null]) else Stuck
    case Load(dst, s) =>
      if (s, 0) in m.mem then m.(pc := m.pc + 1, regs := m.regs[dst := m.mem[(s, 0)]]) else Stuck
    case Store(op, s, c) =>
      var v := Value(w, op, m.regs);
      if v.Some? && (s, c) in m.mem then m.(pc := m.pc + 1, mem := m.mem[(s, c) := v.value]) else Stuck
    case Pure(dst, op) =>
      var v := PureValue(w, op, m.regs, m.exc);
      if v.Some? then m.(pc := m.pc + 1, regs := m.regs[dst := v.value]) else Stuck
    case CallI(dst, op) =>
      var ev := CallEvent(w, op, m.regs, m.mem);
      if ev.None? then Stuck else
        var trace := m.trace + [ev.value];
        (match w.answer(trace)
         case Returns(v) => m.(pc := m.pc + 1, regs := m.regs[dst := v], trace := trace)
         case Raises(exc) => Threw(exc, m.mem, trace))
    case Rethrow(op) =>
      (match Value(w, op, m.regs)
       case Some(Unwinding(exc)) => Threw(exc, m.mem, m.trace)
       case _ => Stuck)
  }

  function Jump(w: World, t: Term, m: Config): Config
    requires m.Run?
  {
    match t
    case Br(b) => m.(blk := b, pc := 0)
    case CondBr(op, b, c) =>
      (match Value(w, op, m.regs)
       case Some(Bit(x)) => m.(blk := if x then b else c, pc := 0)
       case _ => Stuck)
    case Ret(op) =>
      var v := Value(w, op, m.regs);
      if v.Some? then Returned(v.value, m.mem, m.trace) else Stuck
    case InvokeT(dst, op, normal, unwind) =>
      var ev := CallEvent(w, op, m.regs, m.mem);
      if ev.None? then Stuck else
        var trace := m.trace + [ev.value];
        (match w.answer(trace)
         case Returns(v) => m.(blk := normal, pc := 0, regs := m.regs[dst := v], trace := trace)
         case Raises(exc) => m.(blk := unwind, pc := 0, trace := trace, exc := exc))
  }

  function Step(w: World, f: seq<Block>, m: Config): Config {
    if !m.Run? then m
    else if m.blk >= |f| then Stuck
    else if m.pc < |f[m.blk].instrs| then Exec(w, f[m.blk].instrs[m.pc], m)
    else if m.pc == |f[m.blk].instrs| && f[m.blk].term.Some? then Jump(w, f[m.blk].term.value, m)
    else Stuck
  }

  function Steps(w: World, f: seq<Block>, m: Config, n: nat): Config
    decreases n
  {
    if n == 0 then m else Steps(w, f, Step(w, f, m), n - 1)
  }

  lemma {:induction false} StepsAdd(w: World, f: seq<Block>, m: Config, a: nat, b: nat)
    ensures Steps(w, f, m, a + b) == Steps(w, f, Steps(w, f, m, a), b)
    decreases a
  {
    if a > 0 {
      StepsAdd(w, f, Step(w, f, m), a - 1, b);
    }
  }

  /** A machine that has stopped stays stopped. */
  lemma {:induction false} StoppedStays(w: World, f: seq<Block>, m: Config, n: nat)
    requires !m.Run?
    ensures Steps(w, f, m, n) == m
  {
    if n > 0 {
      StoppedStays(w, f, m, n - 1);
    }
  }
}
