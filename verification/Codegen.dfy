/** Code generation as a function on the state of the code generator.  The class in
    CodegenContext.dfy performs the same steps in place. */
module Codegen {
  import opened Options
  import opened PupAst
  import opened Ir

  /** blocks: the function under construction; cur: where the current builder is
      positioned; locals: the slot of each local; slots: every slot allocated in
      the entry block; nreg: the next unused register; whiles: how many while
      statements have been met; pad: the active landing pad. */
  datatype CS = CS(blocks: seq<Block>, cur: nat, locals: map<string, nat>,
                   slots: seq<Slot>, nreg: nat, whiles: nat, pad: Option<nat>)

  // ----- well-formedness of the generator's state

  /** The instructions that allocating these slots leaves in the entry block. */
  function EntryCode(slots: seq<Slot>): seq<Instr> {
    if slots == [] then []
    else EntryCode(slots[..|slots| - 1]) + SlotCode(|slots| - 1, slots[|slots| - 1])
  }

  function SlotCode(s: nat, info: Slot): seq<Instr> {
    if info.tag.Some? && info.tag.value.Local? then [Alloca(s, info), GcRoot(s)] else [Alloca(s, info)]
  }

  /** Each variable has one slot, and the table of locals lists exactly the slots of locals. */
  ghost predicate SlotsOk(slots: seq<Slot>, locals: map<string, nat>, whiles: nat) {
    && (forall s, t :: 0 <= s < t < |slots| && slots[s].tag.Some? ==> slots[s].tag != slots[t].tag)
    && (forall x :: x in locals ==> locals[x] < |slots| && slots[locals[x]] == Slot(Some(Local(x)), 1))
    && (forall s :: 0 <= s < |slots| && slots[s].tag.Some? ==>
          slots[s].cells == 1
          && match slots[s].tag.value
             case Local(x) => x in locals
             case WhileTmp(k) => k < whiles)
  }

  /** A jump never targets the entry block or a block that does not exist. */
  predicate TermOk(t: Term, n: nat) {
    match t
    case Br(b) => 0 < b < n
    case CondBr(_, b, c) => 0 < b < n && 0 < c < n
    case Ret(_) => true
    case InvokeT(_, _, b, c) => 0 < b < n && 0 < c < n
  }

  ghost predicate TermsOk(bs: seq<Block>) {
    forall i :: 0 <= i < |bs| && bs[i].term.Some? ==> TermOk(bs[i].term.value, |bs|)
  }

  ghost predicate Base(cs: CS) {
    && 0 < cs.cur < |cs.blocks|
    && cs.blocks[0] == Block(EntryCode(cs.slots), None)
    && SlotsOk(cs.slots, cs.locals, cs.whiles)
    && (cs.pad.Some? ==> 0 < cs.pad.value < |cs.blocks|)
    && TermsOk(cs.blocks)
  }

  ghost predicate Wf(cs: CS) {
    Base(cs) && IsOpen(cs, cs.cur)
  }

  /** A block still waiting for its terminator. */
  predicate IsOpen(cs: CS, b: nat) {
    0 < b < |cs.blocks| && cs.blocks[b].term.None?
  }

  // ----- how a generator step may change the state

  /** b may be completed to c by appending instructions and, at most once, a terminator. */
  predicate SubBlock(b: Block, c: Block) {
    b.instrs <= c.instrs && (b.term.Some? ==> b == c)
  }

  ghost predicate Within(bs: seq<Block>, cs: seq<Block>) {
    |bs| <= |cs| && forall i :: 0 <= i < |bs| ==> SubBlock(bs[i], cs[i])
  }

  ghost predicate Grows(a: CS, b: CS) {
    && Within(a.blocks, b.blocks)
    && a.slots <= b.slots
    && (forall x :: x in a.locals ==> x in b.locals && a.locals[x] == b.locals[x])
    && a.nreg <= b.nreg
    && a.whiles <= b.whiles
  }

  /** Only the entry block, block w and new blocks differ, and every new block other
      than the current one is complete. */
  ghost predicate Fills(a: CS, w: nat, b: CS) {
    && Base(b)
    && Grows(a, b)
    && (forall i :: 0 < i < |a.blocks| && i != w ==> b.blocks[i] == a.blocks[i])
    && (forall i :: |a.blocks| <= i < |b.blocks| && i != b.cur ==> b.blocks[i].term.Some?)
  }

  /** Straight-line progress: execution that enters at the end of a's current block
      leaves at the end of b's current block, and everything between is complete. */
  ghost predicate Advances(a: CS, b: CS) {
    && Fills(a, a.cur, b)
    && (b.cur == a.cur || (|a.blocks| <= b.cur && a.cur < |b.blocks| && b.blocks[a.cur].term.Some?))
  }

  predicate OperandOk(op: Operand, cs: CS) {
    op.Reg? ==> op.r < cs.nreg
  }

  // ----- builder primitives

  function Emit(cs: CS, i: Instr): (r: CS)
    requires Wf(cs)
    ensures r == cs.(blocks := r.blocks)
    ensures Wf(r) && Advances(cs, r) && r.pad == cs.pad && cs.nreg <= r.nreg && r.cur == cs.cur && |r.blocks| == |cs.blocks|
  {
    cs.(blocks := cs.blocks[cs.cur := Block(cs.blocks[cs.cur].instrs + [i], None)])
  }

  function EmitPure(cs: CS, op: PureOp): (r: (CS, Operand))
    requires Wf(cs)
    ensures r.0 == cs.(nreg := cs.nreg + 1, blocks := r.0.blocks) && r.1 == Reg(cs.nreg)
    ensures Wf(r.0) && Advances(cs, r.0) && r.0.pad == cs.pad && cs.nreg <= r.0.nreg
      && OperandOk(r.1, r.0) && r.0.cur == cs.cur && |r.0.blocks| == |cs.blocks|
  {
    (Emit(cs.(nreg := cs.nreg + 1), Pure(cs.nreg, op)), Reg(cs.nreg))
  }

  function EmitCall(cs: CS, op: CallOp): (r: (CS, Operand))
    requires Wf(cs)
    ensures r.0 == cs.(nreg := cs.nreg + 1, blocks := r.0.blocks) && r.1 == Reg(cs.nreg)
    ensures Wf(r.0) && Advances(cs, r.0) && r.0.pad == cs.pad && cs.nreg <= r.0.nreg
      && OperandOk(r.1, r.0) && r.0.cur == cs.cur && |r.0.blocks| == |cs.blocks|
  {
    (Emit(cs.(nreg := cs.nreg + 1), CallI(cs.nreg, op)), Reg(cs.nreg))
  }

  function EmitLoad(cs: CS, slot: nat): (r: (CS, Operand))
    requires Wf(cs)
    ensures r.0 == cs.(nreg := cs.nreg + 1, blocks := r.0.blocks) && r.1 == Reg(cs.nreg)
    ensures Wf(r.0) && Advances(cs, r.0) && r.0.pad == cs.pad && cs.nreg <= r.0.nreg
      && OperandOk(r.1, r.0) && r.0.cur == cs.cur && |r.0.blocks| == |cs.blocks|
  {
    (Emit(cs.(nreg := cs.nreg + 1), Load(cs.nreg, slot)), Reg(cs.nreg))
  }

  /** The state after info has been given the next slot, before the entry block is extended. */
  function WithSlot(cs: CS, info: Slot): CS {
    cs.(slots := cs.slots + [info],
        locals := if info.tag.Some? && info.tag.value.Local? then cs.locals[info.tag.value.name := |cs.slots|] else cs.locals,
        whiles := if info.tag.Some? && info.tag.value.WhileTmp? then cs.whiles + 1 else cs.whiles)
  }

  ghost predicate NewSlotOk(cs: CS, info: Slot) {
    info.tag.Some? ==>
      && info.cells == 1
      && (forall s :: 0 <= s < |cs.slots| ==> cs.slots[s].tag != info.tag)
      && (info.tag.value.WhileTmp? ==> info.tag.value.index == cs.whiles)
  }

  lemma WithSlotOk(cs: CS, info: Slot)
    requires SlotsOk(cs.slots, cs.locals, cs.whiles) && NewSlotOk(cs, info)
    ensures var r := WithSlot(cs, info); SlotsOk(r.slots, r.locals, r.whiles)
    ensures EntryCode(cs.slots + [info]) == EntryCode(cs.slots) + SlotCode(|cs.slots|, info)
    ensures forall x :: x in cs.locals ==> x in WithSlot(cs, info).locals && WithSlot(cs, info).locals[x] == cs.locals[x]
  {
    assert (cs.slots + [info])[..|cs.slots|] == cs.slots;
    if info.tag.Some? && info.tag.value.Local? {
      var x := info.tag.value.name;
      assert x !in cs.locals;
    }
  }

  /** Allocate a slot in the entry block, whatever the current block is. */
  function AllocSlot(cs: CS, info: Slot): (r: CS)
    requires Wf(cs) && NewSlotOk(cs, info)
    ensures Wf(r) && Advances(cs, r) && r.pad == cs.pad && cs.nreg <= r.nreg && r.cur == cs.cur
      && |r.blocks| == |cs.blocks| && r.blocks[r.cur] == cs.blocks[cs.cur]
    ensures r.slots == cs.slots + [info] && r.nreg == cs.nreg
    ensures r.locals == WithSlot(cs, info).locals && r.whiles == WithSlot(cs, info).whiles
  {
    WithSlotOk(cs, info);
    var entry := Block(cs.blocks[0].instrs + SlotCode(|cs.slots|, info), None);
    WithSlot(cs, info).(blocks := cs.blocks[0 := entry])
  }

  lemma NewWhileSlot(cs: CS)
    requires Wf(cs)
    ensures NewSlotOk(cs, Slot(Some(WhileTmp(cs.whiles)), 1))
  {
    forall s | 0 <= s < |cs.slots| ensures cs.slots[s].tag != Some(WhileTmp(cs.whiles)) {
      assert cs.slots[s].tag.Some? ==> cs.slots[s].cells == 1;
    }
  }

  /** The slot of a local, created on first use. */
  function GetOrCreateLocal(cs: CS, x: string): (r: CS)
    requires Wf(cs)
    ensures Wf(r) && Advances(cs, r) && r.pad == cs.pad && cs.nreg <= r.nreg && r.cur == cs.cur
      && |r.blocks| == |cs.blocks| && r.blocks[r.cur] == cs.blocks[cs.cur]
    ensures x in r.locals && r.locals.Keys == cs.locals.Keys + {x} && r.whiles == cs.whiles
  {
    if x in cs.locals then cs else
      assert cs.locals[x := |cs.slots|].Keys == cs.locals.Keys + {x};
      AllocSlot(cs, Slot(Some(Local(x)), 1))
  }

  function AppendBlock(cs: CS): (r: CS)
    requires Base(cs)
    ensures r == cs.(blocks := r.blocks)
    ensures Base(r) && Grows(cs, r) && |r.blocks| == |cs.blocks| + 1
    ensures r.blocks[..|cs.blocks|] == cs.blocks && IsOpen(r, |cs.blocks|) && r.blocks[|cs.blocks|].instrs == []
  {
    cs.(blocks := cs.blocks + [Block([], None)])
  }

  /** End the current block. */
  function Terminate(cs: CS, t: Term): (r: CS)
    requires Wf(cs) && TermOk(t, |cs.blocks|)
    ensures Fills(cs, cs.cur, r) && r.cur == cs.cur && |r.blocks| == |cs.blocks|
    ensures r.blocks[r.cur] == Block(cs.blocks[cs.cur].instrs, Some(t))
  {
    cs.(blocks := cs.blocks[cs.cur := Block(cs.blocks[cs.cur].instrs, Some(t))])
  }

  /** Position the builder at the end of an open block. */
  function At(cs: CS, b: nat): (r: CS)
    requires Base(cs) && IsOpen(cs, b)
    ensures Wf(r) && Grows(cs, r) && r == cs.(cur := b)
  {
    cs.(cur := b)
  }

  // ----- composing steps

  lemma GrowsTrans(a: CS, b: CS, c: CS)
    requires Grows(a, b) && Grows(b, c)
    ensures Grows(a, c)
  {
    forall i | 0 <= i < |a.blocks| ensures SubBlock(a.blocks[i], c.blocks[i]) {
      assert SubBlock(a.blocks[i], b.blocks[i]) && SubBlock(b.blocks[i], c.blocks[i]);
    }
  }

  lemma AdvancesRefl(a: CS)
    requires Wf(a)
    ensures Advances(a, a)
  {}

  lemma AdvancesTrans(a: CS, b: CS, c: CS)
    requires Wf(a) && Wf(b) && Advances(a, b) && Advances(b, c)
    ensures Advances(a, c)
  {
    GrowsTrans(a, b, c);
    assert forall i :: 0 <= i < |b.blocks| ==> SubBlock(b.blocks[i], c.blocks[i]);
  }

  /** All of a's blocks but the entry and w are as they were. */
  ghost predicate Keeps(a: CS, w: nat, b: CS) {
    |a.blocks| <= |b.blocks| && forall i :: 0 < i < |a.blocks| && i != w ==> b.blocks[i] == a.blocks[i]
  }

  /** A finished sub-graph: block w and everything new is complete. */
  ghost predicate Completes(a: CS, w: nat, b: CS) {
    && Fills(a, w, b)
    && w < |b.blocks| && b.blocks[w].term.Some?
    && b.cur < |b.blocks| && b.blocks[b.cur].term.Some?
  }

  /** Terminate the block where the code that started in block b of cs ended up. */
  function EndBlock(cs: CS, b: nat, c: CS, t: Term): (r: CS)
    requires Base(cs) && IsOpen(cs, b) && Wf(c) && Advances(At(cs, b), c) && TermOk(t, |cs.blocks|)
    ensures Completes(cs, b, r) && Keeps(cs, b, r) && Base(r) && r == Terminate(c, t)
  {
    GrowsTrans(cs, c, Terminate(c, t));
    assert forall i :: 0 <= i < |c.blocks| ==> SubBlock(c.blocks[i], Terminate(c, t).blocks[i]);
    Terminate(c, t)
  }

  lemma CompletesTrans(a: CS, v: nat, b: CS, w: nat, c: CS)
    requires Completes(a, v, b) && Completes(b, w, c) && |a.blocks| <= |b.blocks| && w < |b.blocks|
    ensures Grows(a, c) && Base(c) && v < |c.blocks| && c.blocks[v].term.Some? && c.blocks[w].term.Some?
    ensures forall i :: 0 < i < |a.blocks| && i != v && i != w ==> c.blocks[i] == a.blocks[i]
    ensures forall i :: |a.blocks| <= i < |c.blocks| ==> c.blocks[i].term.Some?
  {
    GrowsTrans(a, b, c);
    assert forall i :: 0 <= i < |b.blocks| ==> SubBlock(b.blocks[i], c.blocks[i]);
  }

  // ----- expressions

  function GenExpr(e: Expr, cs: CS): (r: (CS, Operand))
    requires Wf(cs)
    ensures Wf(r.0) && Advances(cs, r.0) && r.0.pad == cs.pad && cs.nreg <= r.0.nreg && OperandOk(r.1, r.0)
    ensures cs.pad.None? ==> r.0.cur == cs.cur && |r.0.blocks| == |cs.blocks|
    decreases e, 1
  {
    hide Wf, Advances, Base, Fills, Grows, Emit, EmitPure, EmitCall, EmitLoad, GetOrCreateLocal;
    match e
    case IntLit(n) => EmitCall(cs, OpFixnum(n))
    case StrLit(s) => EmitCall(cs, OpString(s))
    case BoolLit(b) => EmitPure(cs, OpBool(b))
    case SelfRef => AdvancesRefl(cs); (cs, Self)
    case InstVar(x) =>
      var (c1, sym) := EmitPure(cs, OpSym(x));
      var (c2, v) := EmitCall(c1, OpIvGet(Self, sym));
      AdvancesTrans(cs, c1, c2);
      (c2, v)
    case Const(x) => GenConst(x, cs)
    case Name(x) =>
      if x in cs.locals then EmitLoad(cs, cs.locals[x]) else GenInvocation(Self, x, [], cs)
    case Call(recv, x, args) =>
      AdvancesRefl(cs);
      var (c1, r) := if recv.Some? then GenExpr(recv.value, cs) else (cs, Self);
      var (c2, ops) := GenArgs(args, c1);
      AdvancesTrans(cs, c1, c2);
      var (c3, v) := GenInvocation(r, x, ops, c2);
      AdvancesTrans(cs, c2, c3);
      (c3, v)
    case Binary(kind, op, left, right) =>
      var (c1, l) := GenExpr(left, cs);
      var (c2, r) := GenExpr(right, c1);
      AdvancesTrans(cs, c1, c2);
      var (c3, v) := GenInvocation(l, SentMessage(kind, op), [r], c2);
      AdvancesTrans(cs, c2, c3);
      (c3, v)
    case AssignLocal(x, rhs) =>
      var c1 := GetOrCreateLocal(cs, x);
      var (c2, v) := GenExpr(rhs, c1);
      AdvancesTrans(cs, c1, c2);
      var c3 := Emit(c2, Store(v, c1.locals[x], 0));
      AdvancesTrans(cs, c2, c3);
      (c3, v)
    case AssignInst(x, rhs) =>
      var (c1, v) := GenExpr(rhs, cs);
      var (c2, sym) := EmitPure(c1, OpSym(x));
      AdvancesTrans(cs, c1, c2);
      var (c3, _) := EmitCall(c2, OpIvSet(Self, sym, v));
      AdvancesTrans(cs, c2, c3);
      (c3, v)
  }

  function GenArgs(args: seq<Expr>, cs: CS): (r: (CS, seq<Operand>))
    requires Wf(cs)
    ensures Wf(r.0) && Advances(cs, r.0) && r.0.pad == cs.pad && cs.nreg <= r.0.nreg && |r.1| == |args|
      && forall i :: 0 <= i < |r.1| ==> OperandOk(r.1[i], r.0)
    ensures cs.pad.None? ==> r.0.cur == cs.cur && |r.0.blocks| == |cs.blocks|
    decreases args, 0
  {
    hide Wf, Advances, GenExpr;
    if args == [] then AdvancesRefl(cs); (cs, []) else
      var (c1, op) := GenExpr(args[0], cs);
      var (c2, ops) := GenArgs(args[1..], c1);
      AdvancesTrans(cs, c1, c2);
      (c2, [op] + ops)
  }

  /** The value of a list of statements or expressions is that of its last one. */
  function GenExprs(es: seq<Expr>, cs: CS): (r: (CS, Operand))
    requires Wf(cs) && es != []
    ensures Wf(r.0) && Advances(cs, r.0) && r.0.pad == cs.pad && cs.nreg <= r.0.nreg && OperandOk(r.1, r.0)
    ensures cs.pad.None? ==> r.0.cur == cs.cur && |r.0.blocks| == |cs.blocks|
  {
    hide Wf, Advances, Base, Fills, Grows, Emit, EmitPure, EmitCall, EmitLoad, GetOrCreateLocal;
    var (c1, v) := GenExpr(es[0], cs);
    if |es| == 1 then (c1, v) else
      var (c2, v2) := GenExprs(es[1..], c1);
      AdvancesTrans(cs, c1, c2);
      (c2, v2)
  }

  /** Look a constant up from the class context of self. */
  function GenConst(x: string, cs: CS): (r: (CS, Operand))
    requires Wf(cs)
    ensures Wf(r.0) && Advances(cs, r.0) && r.0.pad == cs.pad && cs.nreg <= r.0.nreg
      && OperandOk(r.1, r.0) && r.0.cur == cs.cur && |r.0.blocks| == |cs.blocks|
    ensures r.0.locals == cs.locals && r.0.whiles == cs.whiles
  {
    hide Wf, Advances, Base, Fills, Grows, Emit;
    var (c1, cls) := EmitPure(cs, OpClassContext(Self));
    var (c2, sym) := EmitPure(c1, OpSym(x));
    AdvancesTrans(cs, c1, c2);
    var (c3, v) := EmitCall(c2, OpConstGet(cls, sym));
    AdvancesTrans(cs, c2, c3);
    (c3, v)
  }

  /** Store the operands into consecutive cells of an argument array. */
  function StoreArgs(ops: seq<Operand>, slot: nat, cell: nat, cs: CS): (r: CS)
    requires Wf(cs)
    ensures Wf(r) && Advances(cs, r) && r.pad == cs.pad && cs.nreg <= r.nreg && r.cur == cs.cur && |r.blocks| == |cs.blocks|
    ensures r.locals == cs.locals && r.slots == cs.slots && r.nreg == cs.nreg && r.whiles == cs.whiles
    decreases |ops|
  {
    hide Wf, Advances, Base, Fills, Grows, Emit;
    if ops == [] then AdvancesRefl(cs); cs else
      var c1 := Emit(cs, Store(ops[0], slot, cell));
      var c2 := StoreArgs(ops[1..], slot, cell + 1, c1);
      AdvancesTrans(cs, c1, c2);
      c2
  }

  /** Allocate and fill the argument array; no array is made for no arguments. */
  function GenArgv(ops: seq<Operand>, cs: CS): (r: (CS, Option<nat>))
    requires Wf(cs)
    ensures Wf(r.0) && Advances(cs, r.0) && r.0.pad == cs.pad && cs.nreg <= r.0.nreg && r.0.cur == cs.cur && |r.0.blocks| == |cs.blocks|
    ensures r.0.locals == cs.locals && r.0.whiles == cs.whiles && r.0.nreg == cs.nreg
    ensures if ops == [] then r == (cs, None) else r.1 == Some(|cs.slots|)
  {
    hide Wf, Advances, Base, Fills, Grows, AllocSlot, StoreArgs;
    if ops == [] then AdvancesRefl(cs); (cs, None) else
      var c1 := AllocSlot(cs, Slot(None, |ops|));
      assert c1.nreg == cs.nreg;
      var c2 := StoreArgs(ops, |cs.slots|, 0, c1);
      AdvancesTrans(cs, c1, c2);
      (c2, Some(|cs.slots|))
  }

  /** With a landing pad active the call ends its block and execution continues in a new one. */
  function GenInvocation(recv: Operand, name: string, ops: seq<Operand>, cs: CS): (r: (CS, Operand))
    requires Wf(cs)
    ensures Wf(r.0) && Advances(cs, r.0) && r.0.pad == cs.pad && cs.nreg <= r.0.nreg && OperandOk(r.1, r.0)
    ensures cs.pad.None? ==> r.0.cur == cs.cur && |r.0.blocks| == |cs.blocks|
    ensures r.0.locals == cs.locals && r.0.whiles == cs.whiles
  {
    hide Wf, Advances, Base, Fills, Grows, Emit;
    var (c1, argv) := GenArgv(ops, cs);
    var (c2, sym) := EmitPure(c1, OpSym(name));
    AdvancesTrans(cs, c1, c2);
    var call := OpInvoke(recv, sym, |ops|, argv);
    if c2.pad.Some? then
      var (c3, v) := GenInvoke(call, c2.pad.value, c2);
      AdvancesTrans(cs, c2, c3);
      (c3, v)
    else
      var (c3, v) := EmitCall(c2, call);
      AdvancesTrans(cs, c2, c3);
      (c3, v)
  }

  function GenInvoke(call: CallOp, lp: nat, cs: CS): (r: (CS, Operand))
    requires Wf(cs) && cs.pad == Some(lp)
    ensures Wf(r.0) && Advances(cs, r.0) && r.0.pad == cs.pad && cs.nreg <= r.0.nreg && r.1 == Reg(cs.nreg) && r.0.nreg == cs.nreg + 1
    ensures r.0.locals == cs.locals && r.0.whiles == cs.whiles && r.0.slots == cs.slots
    ensures r.0.cur == |cs.blocks| && r.0.blocks[r.0.cur].instrs == []
    ensures r.0.blocks[cs.cur] == Block(cs.blocks[cs.cur].instrs, Some(InvokeT(cs.nreg, call, |cs.blocks|, lp)))
  {
    var bk := |cs.blocks|;
    var c1 := AppendBlock(cs.(nreg := cs.nreg + 1));
    var c2 := Terminate(c1, InvokeT(cs.nreg, call, bk, lp));
    (At(c2, bk), Reg(cs.nreg))
  }

  // ----- statements

  lemma StartAt(cs: CS, b: nat)
    requires Base(cs) && IsOpen(cs, b)
    ensures Wf(At(cs, b)) && 0 < b < |cs.blocks|
  {}

  /** Position at block b, test an expression there and branch on whether it is false. */
  function GenCond(cond: Expr, b: nat, ifFalse: nat, ifTrue: nat, cs: CS): (r: CS)
    requires Base(cs) && IsOpen(cs, b) && 0 < ifFalse < |cs.blocks| && 0 < ifTrue < |cs.blocks|
    ensures Completes(cs, b, r) && Keeps(cs, b, r) && Base(r) && r.pad == cs.pad && cs.nreg <= r.nreg
  {
    hide Wf, Base, Fills, Advances, Completes, Grows, Keeps, Emit, EmitPure, EmitCall, GenExpr, GenStmts, EndBlock;
    StartAt(cs, b);
    var c0 := At(cs, b);
    var (c1, v) := GenExpr(cond, c0);
    var (c2, f) := EmitPure(c1, OpBool(false));
    AdvancesTrans(c0, c1, c2);
    var (c3, cmp) := EmitPure(c2, OpEq(v, f));
    AdvancesTrans(c0, c2, c3);
    EndBlock(cs, b, c3, CondBr(cmp, ifFalse, ifTrue))
  }

  /** Position at block b, generate statements, store their value and jump on. */
  function GenBranch(ss: seq<Stmt>, b: nat, result: nat, loops: bool, target: nat, cs: CS): (r: CS)
    requires Base(cs) && IsOpen(cs, b) && 0 < target < |cs.blocks| && WfStmts(ss, cs.pad.Some?)
    ensures Completes(cs, b, r) && Keeps(cs, b, r) && Base(r) && r.pad == cs.pad && cs.nreg <= r.nreg
    decreases ss, 1
  {
    hide Wf, Base, Fills, Advances, Completes, Grows, Keeps, Emit, EmitPure, EmitCall, GenExpr, GenStmts, EndBlock;
    StartAt(cs, b);
    var c0 := At(cs, b);
    var (c1, v) := GenStmts(ss, c0);
    var c2 := Emit(c1, Store(v, result, 0));
    AdvancesTrans(c0, c1, c2);
    AdvancesRefl(c2);
    var c3 := if loops then EmitCall(c2, OpSafepoint).0 else c2;
    AdvancesTrans(c0, c2, c3);
    EndBlock(cs, b, c3, Br(target))
  }

  function GenStmts(ss: seq<Stmt>, cs: CS): (r: (CS, Operand))
    requires Wf(cs) && WfStmts(ss, cs.pad.Some?)
    ensures Wf(r.0) && Advances(cs, r.0) && r.0.pad == cs.pad && cs.nreg <= r.0.nreg && OperandOk(r.1, r.0)
    decreases ss, 0
  {
    hide Wf, Advances, Base, Fills, Grows;
    var (c1, v) := GenStmt(ss[0], cs);
    if |ss| == 1 then (c1, v) else
      var (c2, v2) := GenStmts(ss[1..], c1);
      AdvancesTrans(cs, c1, c2);
      (c2, v2)
  }

  function GenStmt(s: Stmt, cs: CS): (r: (CS, Operand))
    requires Wf(cs) && WfStmt(s, cs.pad.Some?)
    ensures Wf(r.0) && Advances(cs, r.0) && r.0.pad == cs.pad && cs.nreg <= r.0.nreg && OperandOk(r.1, r.0)
    decreases s, 2
  {
    match s
    case ExprStmt(e) => GenExpr(e, cs)
    case If(_, _, _) => GenIf(s, cs)
    case While(_, _) => GenWhile(s, cs)
    case Begin(_, _) => GenBegin(s, cs)
  }

  function GenIf(s: Stmt, cs: CS): (r: (CS, Operand))
    requires Wf(cs) && WfStmt(s, cs.pad.Some?) && s.If?
    ensures Wf(r.0) && Advances(cs, r.0) && r.0.pad == cs.pad && cs.nreg <= r.0.nreg && OperandOk(r.1, r.0)
    decreases s, 1
  {
    hide Wf, Advances, Base, Grows, ArmsOpen, ArmsDone, AllocSlot, JumpToNew, GenArms, EmitResult;
    var c1 := AllocSlot(cs, Slot(None, 1));
    var c2 := JumpToNew(c1, 4);
    var b := |c1.blocks|;
    ArmsStart(s, cs, c1);
    var c3 := GenArms(s, b, |cs.slots|, c2);
    IfAdvances(cs, c1, c2, c3);
    EmitResult(cs, At(c3, b + 3), |cs.slots|)
  }

  /** The four blocks of an if statement are there and open. */
  ghost predicate ArmsOpen(s: Stmt, b: nat, c: CS) {
    && s.If? && WfStmt(s, c.pad.Some?) && Base(c) && 0 < b && b + 3 < |c.blocks|
    && IsOpen(c, b) && IsOpen(c, b + 1) && IsOpen(c, b + 2) && IsOpen(c, b + 3)
  }

  ghost predicate ArmsDone(b: nat, c: CS, d: CS) {
    && Grows(c, d) && IsOpen(d, b + 3)
    && (forall i :: 0 < i < |c.blocks| && !(b <= i < b + 3) ==> d.blocks[i] == c.blocks[i])
    && (forall i :: b <= i < |d.blocks| && (i < b + 3 || |c.blocks| <= i) ==> d.blocks[i].term.Some?)
  }

  /** The condition in block b, then both arms, each jumping to block b + 3. */
  function GenArms(s: Stmt, b: nat, result: nat, cs: CS): (r: CS)
    requires ArmsOpen(s, b, cs)
    ensures Base(r) && ArmsDone(b, cs, r) && r.pad == cs.pad && cs.nreg <= r.nreg
    decreases s, 0
  {
    hide Wf, Base, Completes, Keeps, IsOpen, GenCond, GenBranch, ArmsDone;
    var c1 := GenCond(s.cond, b, b + 2, b + 1, cs);
    StillOpen(cs, b, c1, b + 1); StillOpen(cs, b, c1, b + 2); StillOpen(cs, b, c1, b + 3);
    var c2 := GenBranch(s.thn, b + 1, result, false, b + 3, c1);
    StillOpen(c1, b + 1, c2, b + 2); StillOpen(c1, b + 1, c2, b + 3);
    var c3 := GenBranch(s.els, b + 2, result, false, b + 3, c2);
    StillOpen(c2, b + 2, c3, b + 3);
    ArmsFinish(b, cs, c1, c2, c3);
    c3
  }

  lemma StillOpen(a: CS, w: nat, b: CS, i: nat)
    requires Keeps(a, w, b) && IsOpen(a, i) && i != w
    ensures IsOpen(b, i) && i < |a.blocks| <= |b.blocks|
  {}

  lemma ArmsFinish(b: nat, c: CS, c1: CS, c2: CS, c3: CS)
    requires 0 < b && b + 3 < |c.blocks| && Completes(c, b, c1) && Completes(c1, b + 1, c2) && Completes(c2, b + 2, c3)
    requires IsOpen(c3, b + 3)
    ensures ArmsDone(b, c, c3)
  {
    hide Base;
    CompletesTrans(c, b, c1, b + 1, c2);
    GrowsTrans(c, c2, c3);
    assert forall i :: 0 <= i < |c2.blocks| ==> SubBlock(c2.blocks[i], c3.blocks[i]);
  }

  lemma ArmsStart(s: Stmt, cs: CS, c1: CS)
    requires Wf(cs) && WfStmt(s, cs.pad.Some?) && s.If? && c1 == AllocSlot(cs, Slot(None, 1))
    ensures ArmsOpen(s, |c1.blocks|, JumpToNew(c1, 4)) && 0 < cs.cur < |cs.blocks|
  {
    hide JumpToNew, AllocSlot;
    var c2 := JumpToNew(c1, 4);
    var b := |c1.blocks|;
    assert c2.blocks[b] == c2.blocks[b + 1] == c2.blocks[b + 2] == c2.blocks[b + 3] == Block([], None);
  }

  function GenWhile(s: Stmt, cs: CS): (r: (CS, Operand))
    requires Wf(cs) && WfStmt(s, cs.pad.Some?) && s.While?
    ensures Wf(r.0) && Advances(cs, r.0) && r.0.pad == cs.pad && cs.nreg <= r.0.nreg && OperandOk(r.1, r.0)
    decreases s, 0
  {
    hide Wf, Advances, Base, Fills, Grows, Completes, AllocSlot, JumpToNew, GenCond, GenBranch, EmitResult, GenExpr, GenStmts;
    NewWhileSlot(cs);
    var c1 := AllocSlot(cs, Slot(Some(WhileTmp(cs.whiles)), 1));
    var c2 := JumpToNew(c1, 3);
    var b := |c1.blocks|;
    assert c2.blocks[b] == c2.blocks[b + 1] == c2.blocks[b + 2] == Block([], None);
    var c3 := GenCond(s.wcond, b, b + 2, b + 1, c2);
    var c4 := GenBranch(s.body, b + 1, |cs.slots|, true, b, c3);
    WhileAdvances(cs, c1, c2, c3, c4);
    EmitResult(cs, At(c4, b + 2), |cs.slots|)
  }

  function GenBegin(s: Stmt, cs: CS): (r: (CS, Operand))
    requires Wf(cs) && WfStmt(s, cs.pad.Some?) && s.Begin?
    ensures Wf(r.0) && Advances(cs, r.0) && r.0.pad == cs.pad && cs.nreg <= r.0.nreg && OperandOk(r.1, r.0)
    decreases s, 0
  {
    hide Wf, Advances, Base, Fills, Grows, Completes, AllocSlot, JumpToNew, GenCond, GenBranch,
         EmitResult, GenExpr, GenStmts, Emit, GenHandler, HandlerAt, AllOpen, EnterBegin, CloseAll;
    var c1 := AllocSlot(cs, Slot(None, 1));
    var lp := |c1.blocks|;
    var c2 := EnterBegin(c1);
    var (c3, v) := GenStmts(s.bbody, c2);
    var c4 := Emit(c3, Store(v, |cs.slots|, 0));
    AdvancesTrans(c2, c3, c4);
    LeaveBegin(c1, c2, c4, cs.pad);
    var (c5, impls) := GenHandler(s.rescues, |cs.slots|, lp, c4.(pad := cs.pad));
    BeginEnds(cs, c1, c2, c4, c5, impls);
    var c6 := CloseAll(impls + [c4.cur], |c5.blocks|, AppendBlock(c5));
    BeginAdvances(cs, c1, c2, c4, c5, impls, c6);
    EmitResult(cs, At(c6, |c5.blocks|), |cs.slots|)
  }

  function EmitResult(cs: CS, c: CS, slot: nat): (r: (CS, Operand))
    requires Wf(cs) && Wf(c) && Advances(cs, c) && c.pad == cs.pad && cs.nreg <= c.nreg
    ensures Wf(r.0) && Advances(cs, r.0) && r.0.pad == cs.pad && cs.nreg <= r.0.nreg && OperandOk(r.1, r.0)
  {
    var (d, v) := EmitLoad(c, slot);
    AdvancesTrans(cs, c, d);
    (d, v)
  }

  /** Append n blocks, ending the current one with a jump to the first of them. */
  function JumpToNew(cs: CS, n: nat): (r: CS)
    requires Wf(cs) && 0 < n
    ensures Base(r) && Grows(cs, r) && |r.blocks| == |cs.blocks| + n && r.cur == cs.cur && 0 < |cs.blocks|
    ensures r.blocks[cs.cur] == Block(cs.blocks[cs.cur].instrs, Some(Br(|cs.blocks|)))
    ensures forall i :: 0 < i < |cs.blocks| && i != cs.cur ==> r.blocks[i] == cs.blocks[i]
    ensures forall i :: |cs.blocks| <= i < |r.blocks| ==> r.blocks[i] == Block([], None)
    ensures r.locals == cs.locals && r.slots == cs.slots && r.nreg == cs.nreg && r.whiles == cs.whiles && r.pad == cs.pad
    decreases n
  {
    if n == 1 then Terminate(AppendBlock(cs), Br(|cs.blocks|)) else AppendBlock(JumpToNew(cs, n - 1))
  }

  lemma IfAdvances(cs: CS, c1: CS, c2: CS, c3: CS)
    requires Wf(cs) && Wf(c1) && Advances(cs, c1) && c1.cur == cs.cur && |c1.blocks| == |cs.blocks|
    requires c2 == JumpToNew(c1, 4) && Base(c3) && ArmsDone(|cs.blocks|, c2, c3)
    ensures IsOpen(c3, |cs.blocks| + 3) && Wf(At(c3, |cs.blocks| + 3)) && Advances(cs, At(c3, |cs.blocks| + 3))
  {
    hide Base, JumpToNew, AllocSlot;
    GrowsTrans(cs, c1, c2);
    GrowsTrans(cs, c2, c3);
  }

  lemma WhileAdvances(cs: CS, c1: CS, c2: CS, c3: CS, c4: CS)
    requires Wf(cs) && Wf(c1) && Advances(cs, c1) && c1.cur == cs.cur && |c1.blocks| == |cs.blocks|
    requires c2 == JumpToNew(c1, 3)
    requires Completes(c2, |cs.blocks|, c3) && Completes(c3, |cs.blocks| + 1, c4)
    requires IsOpen(c4, |cs.blocks| + 2)
    ensures Advances(cs, At(c4, |cs.blocks| + 2))
  {
    hide Base, JumpToNew, At, AllocSlot;
    var b := |cs.blocks|;
    CompletesTrans(c2, b, c3, b + 1, c4);
    GrowsTrans(cs, c1, c2);
    GrowsTrans(cs, c2, c4);
  }

  // ----- rescue clauses

  /** The test made in block blk goes to the clause's body or to notMatched. */
  datatype TypeTest = TypeTest(blk: nat, matched: Operand, notMatched: nat)

  /** Advances, except that the listed blocks, the bodies of rescue clauses, are left open. */
  ghost predicate AdvancesBut(a: CS, b: CS, impls: seq<nat>) {
    && Keeps(a, a.cur, b)
    && Grows(a, b)
    && (forall i :: |a.blocks| <= i < |b.blocks| && i != b.cur && i !in impls ==> b.blocks[i].term.Some?)
    && (b.cur == a.cur || (|a.blocks| <= b.cur && a.cur < |b.blocks| && b.blocks[a.cur].term.Some?))
    && (forall k :: 0 <= k < |impls| ==> |a.blocks| <= impls[k] && IsOpen(b, impls[k]) && impls[k] != b.cur)
    && (forall j, k :: 0 <= j < k < |impls| ==> impls[j] != impls[k])
  }

  lemma AdvancesButTrans(a: CS, b: CS, c: CS, bs: seq<nat>, js: seq<nat>)
    requires Wf(a) && Wf(b) && Wf(c) && AdvancesBut(a, b, bs) && AdvancesBut(b, c, js)
    ensures AdvancesBut(a, c, bs + js)
  {
    hide Base;
    GrowsTrans(a, b, c);
    assert forall i :: 0 <= i < |b.blocks| ==> SubBlock(b.blocks[i], c.blocks[i]);
    assert forall i :: i in bs + js <==> i in bs || i in js;
  }

  lemma AdvancesIsAdvancesBut(a: CS, b: CS)
    requires Wf(a) && Wf(b) && Advances(a, b)
    ensures AdvancesBut(a, b, [])
  {}

  /** Emit the type tests of one clause, each in a block of its own. */
  function GenTypes(types: seq<string>, excType: Operand, cs: CS): (r: (CS, seq<TypeTest>))
    requires Wf(cs)
    ensures Wf(r.0) && r.0.pad == cs.pad && cs.nreg <= r.0.nreg && r.0.locals == cs.locals && r.0.whiles == cs.whiles
    ensures |r.1| == |types| && |r.0.blocks| == |cs.blocks| + |types| && Grows(cs, r.0) && Keeps(cs, cs.cur, r.0)
    ensures r.0.cur == (if types == [] then cs.cur else |cs.blocks| + |types| - 1)
    ensures TestsAt(r.1, cs.cur, |cs.blocks|, r.0)
  {
    hide Wf, Advances, Base, Grows, Keeps, IsOpen, TestsAt, GenConst, EmitPure, AppendBlock, NextTest;
    if types == [] then NoTests(cs); (cs, []) else
      var (c1, expected) := GenConst(types[0], cs);
      var (c2, matched) := EmitPure(c1, OpDescendant(expected, excType));
      AdvancesTrans(cs, c1, c2);
      var c3 := NextTest(c2);
      var (c4, tests) := GenTypes(types[1..], excType, c3);
      GenTypesGrows(cs, c2, c3, c4);
      TestsAtCons(TypeTest(c2.cur, matched, |c2.blocks|), tests, cs.cur, |cs.blocks|, c4);
      (c4, [TypeTest(c2.cur, matched, |c2.blocks|)] + tests)
  }

  lemma GenTypesStep(types: seq<string>, excType: Operand, cs: CS)
    requires Wf(cs) && types != []
    ensures var (c1, expected) := GenConst(types[0], cs);
      var (c2, matched) := EmitPure(c1, OpDescendant(expected, excType));
      var (c4, tests) := GenTypes(types[1..], excType, NextTest(c2));
      GenTypes(types, excType, cs) == (c4, [TypeTest(c2.cur, matched, |c2.blocks|)] + tests)
  {
    hide Wf, Advances, Base, Grows, Keeps, IsOpen, TestsAt, GenConst, EmitPure, AppendBlock, NextTest;
  }

  lemma GenTypesNone(excType: Operand, cs: CS)
    requires Wf(cs)
    ensures GenTypes([], excType, cs) == (cs, [])
  {
  }

  lemma NoTests(cs: CS)
    ensures Grows(cs, cs) && Keeps(cs, cs.cur, cs) && TestsAt([], cs.cur, |cs.blocks|, cs)
  {}

  function NextTest(cs: CS): (r: CS)
    requires Wf(cs)
    ensures Wf(r) && r == AppendBlock(cs).(cur := |cs.blocks|) && |r.blocks| == |cs.blocks| + 1
  {
    At(AppendBlock(cs), |cs.blocks|)
  }

  /** The first test is made in block first, each later one in the block that the one before
      falls through to; these are numbered from n. */
  ghost predicate TestsAt(tests: seq<TypeTest>, first: nat, n: nat, cs: CS) {
    forall k :: 0 <= k < |tests| ==>
      tests[k].blk == (if k == 0 then first else n + k - 1) && tests[k].notMatched == n + k && IsOpen(cs, tests[k].blk)
  }

  lemma TestsAtCons(t: TypeTest, tests: seq<TypeTest>, first: nat, n: nat, cs: CS)
    requires TestsAt(tests, n, n + 1, cs) && t.blk == first && t.notMatched == n && IsOpen(cs, first)
    ensures TestsAt([t] + tests, first, n, cs)
  {
    forall k | 0 < k <= |tests| ensures ([t] + tests)[k] == tests[k - 1] {}
  }

  lemma GrowsRefl(a: CS)
    ensures Grows(a, a)
  {}

  lemma GenTypesGrows(cs: CS, c2: CS, c3: CS, c4: CS)
    requires Wf(cs) && Wf(c2) && Advances(cs, c2) && c2.cur == cs.cur
    requires |c2.blocks| == |cs.blocks| && c3 == AppendBlock(c2).(cur := |c2.blocks|)
    requires Grows(c3, c4) && Keeps(c3, c3.cur, c4)
    ensures Grows(cs, c4) && Keeps(cs, cs.cur, c4) && c4.blocks[cs.cur] == c2.blocks[cs.cur] && IsOpen(c4, cs.cur)
  {
    hide Base;
    GrowsTrans(cs, c2, AppendBlock(c2));
    GrowsTrans(cs, c3, c4);
  }

  ghost predicate TestsOpen(tests: seq<TypeTest>, cs: CS) {
    && (forall k :: 0 <= k < |tests| ==> IsOpen(cs, tests[k].blk) && 0 < tests[k].notMatched < |cs.blocks|)
    && (forall j, k :: 0 <= j < k < |tests| ==> tests[j].blk != tests[k].blk)
  }

  /** Give each test block its conditional branch. */
  function PatchTests(tests: seq<TypeTest>, impl: nat, cs: CS): (r: CS)
    requires Base(cs) && 0 < impl < |cs.blocks| && TestsOpen(tests, cs)
    ensures Base(r) && r.(cur := cs.cur, blocks := cs.blocks) == cs && Grows(cs, r) && |r.blocks| == |cs.blocks|
    ensures forall k :: 0 <= k < |tests| ==>
      (r.blocks[tests[k].blk] == Block(cs.blocks[tests[k].blk].instrs, Some(CondBr(tests[k].matched, impl, tests[k].notMatched))))
    ensures forall i :: 0 <= i < |cs.blocks| && (forall k :: 0 <= k < |tests| ==> tests[k].blk != i) ==> r.blocks[i] == cs.blocks[i]
    decreases |tests|
  {
    hide Base, Wf, Fills;
    if tests == [] then GrowsRefl(cs); cs else
      var t := tests[0];
      var c1 := PatchBlock(cs, t.blk, CondBr(t.matched, impl, t.notMatched));
      assert TestsOpen(tests[1..], c1) by {
        assert forall k :: 0 <= k < |tests[1..]| ==> tests[1..][k] == tests[k + 1];
      }
      var c2 := PatchTests(tests[1..], impl, c1);
      GrowsTrans(cs, c1, c2);
      c2
  }

  /** Position at an open block and end it. */
  function PatchBlock(cs: CS, b: nat, t: Term): (r: CS)
    requires Base(cs) && IsOpen(cs, b) && TermOk(t, |cs.blocks|)
    ensures Base(r) && Grows(cs, r)
    ensures r == cs.(cur := b, blocks := cs.blocks[b := Block(cs.blocks[b].instrs, Some(t))])
  {
    Terminate(At(cs, b), t)
  }

  /** One clause: its tests, then its body in a block that the caller will complete. */
  function GenRescue(rescue: Rescue, result: nat, exc: Operand, excType: Operand, cs: CS): (r: (CS, nat))
    requires Wf(cs) && cs.pad.None? && rescue.body != []
    ensures Wf(r.0) && AdvancesBut(cs, r.0, [r.1]) && r.0.pad == cs.pad && cs.nreg <= r.0.nreg
  {
    hide Wf, Base, Fills, Advances, Grows, AdvancesBut, Emit, GenTypes, PatchTests, BindException, GenExprs;
    var (c1, tests) := GenTypes(RescueTypes(rescue), excType, cs);
    var impl := |c1.blocks|;
    var c3 := StartImpl(cs, c1, tests);
    var c4 := BindException(rescue.varName, exc, c3);
    var (c5, v) := GenExprs(rescue.body, c4);
    AdvancesTrans(c3, c4, c5);
    var c6 := Emit(c5, Store(v, result, 0));
    AdvancesTrans(c3, c5, c6);
    RescueAdvances(cs, c1, tests, c3, c6);
    (At(c6, c1.cur), impl)
  }

  /** Append the block for a clause's body, make the tests branch to it and position there. */
  function StartImpl(cs: CS, c1: CS, tests: seq<TypeTest>): (r: CS)
    requires Wf(cs) && Wf(c1) && |c1.blocks| == |cs.blocks| + |tests| && TestsAt(tests, cs.cur, |cs.blocks|, c1)
    ensures Wf(r) && r.cur == |c1.blocks| && |r.blocks| == |c1.blocks| + 1 && r.pad == c1.pad && r.nreg == c1.nreg
    ensures r.locals == c1.locals && r.slots == c1.slots && r.whiles == c1.whiles && r.blocks[r.cur] == Block([], None)
    ensures Grows(c1, r)
    ensures forall k :: 0 <= k < |tests| ==>
      (r.blocks[tests[k].blk] == Block(c1.blocks[tests[k].blk].instrs, Some(CondBr(tests[k].matched, |c1.blocks|, tests[k].notMatched))))
    ensures forall i :: 0 <= i < |c1.blocks| && (forall k :: 0 <= k < |tests| ==> tests[k].blk != i) ==> r.blocks[i] == c1.blocks[i]
  {
    hide PatchTests, Grows;
    var c2 := AppendBlock(c1);
    assert TestsOpen(tests, c2);
    var c3 := PatchTests(tests, |c1.blocks|, c2);
    GrowsTrans(c1, c2, c3);
    At(c3, |c1.blocks|)
  }

  lemma RescueAdvances(cs: CS, c1: CS, tests: seq<TypeTest>, c3: CS, c6: CS)
    requires Wf(cs) && Wf(c1) && Grows(cs, c1) && Keeps(cs, cs.cur, c1) && |c1.blocks| == |cs.blocks| + |tests|
    requires c1.cur == if tests == [] then cs.cur else |c1.blocks| - 1
    requires TestsAt(tests, cs.cur, |cs.blocks|, c1) && c3 == StartImpl(cs, c1, tests)
    requires Wf(c6) && Advances(c3, c6) && c6.cur == c3.cur && |c6.blocks| == |c3.blocks|
    ensures Base(c6) && IsOpen(c6, c1.cur) && Wf(At(c6, c1.cur)) && AdvancesBut(cs, At(c6, c1.cur), [|c1.blocks|])
  {
    hide Base, StartImpl;
    GrowsTrans(cs, c1, c3);
    GrowsTrans(cs, c3, c6);
    assert forall k :: 0 <= k < |tests| ==> tests[k].blk != c1.cur;
    forall i | |cs.blocks| <= i < |c1.blocks| - 1 ensures c6.blocks[i].term.Some? {
      assert tests[i - |cs.blocks| + 1].blk == i;
    }
    if tests != [] {
      assert tests[0].blk == cs.cur;
    }
  }

  function BindException(x: Option<string>, exc: Operand, cs: CS): (r: CS)
    requires Wf(cs)
    ensures Wf(r) && Advances(cs, r) && r.pad == cs.pad && cs.nreg <= r.nreg && r.cur == cs.cur && |r.blocks| == |cs.blocks|
  {
    hide Wf, Advances, Base, Fills, Grows, Emit;
    if x.None? then AdvancesRefl(cs); cs else
      var c1 := GetOrCreateLocal(cs, x.value);
      var c2 := Emit(c1, Store(exc, c1.locals[x.value], 0));
      AdvancesTrans(cs, c1, c2);
      c2
  }

  function GenRescues(rescues: seq<Rescue>, result: nat, exc: Operand, excType: Operand, cs: CS): (r: (CS, seq<nat>))
    requires Wf(cs) && cs.pad.None? && forall r :: r in rescues ==> r.body != []
    ensures Wf(r.0) && AdvancesBut(cs, r.0, r.1) && |r.1| == |rescues| && r.0.pad == cs.pad && cs.nreg <= r.0.nreg
  {
    hide Wf, Base, AdvancesBut, GenRescue;
    if rescues == [] then AdvancesRefl(cs); AdvancesIsAdvancesBut(cs, cs); (cs, []) else
      var (c1, impl) := GenRescue(rescues[0], result, exc, excType, cs);
      var (c2, impls) := GenRescues(rescues[1..], result, exc, excType, c1);
      AdvancesButTrans(cs, c1, c2, [impl], impls);
      (c2, [impl] + impls)
  }

  /** What the start of a landing pad does: fetch the exception and its class. */
  function GenLanding(cs: CS): (r: (CS, Operand, Operand, Operand))
    requires Wf(cs)
    ensures Wf(r.0) && Advances(cs, r.0) && r.0.pad == cs.pad && r.0.cur == cs.cur && |r.0.blocks| == |cs.blocks|
    ensures r.0.nreg == cs.nreg + 4 && r.0.locals == cs.locals && r.0.whiles == cs.whiles && r.0.slots == cs.slots
  {
    hide Wf, Advances, Base, Fills, Grows, Emit;
    var (c1, dw) := EmitPure(cs, OpException);
    var (c2, sel) := EmitPure(c1, OpSelector(dw));
    AdvancesTrans(cs, c1, c2);
    var (c3, exc) := EmitPure(c2, OpExtract(dw));
    AdvancesTrans(cs, c2, c3);
    var (c4, excType) := EmitPure(c3, OpTypeOf(exc));
    AdvancesTrans(cs, c3, c4);
    (c4, dw, exc, excType)
  }

  /** The landing pad: the clauses in order, then rethrow. */
  function GenHandler(rescues: seq<Rescue>, result: nat, lp: nat, cs: CS): (r: (CS, seq<nat>))
    requires Base(cs) && IsOpen(cs, lp) && cs.pad.None? && forall r :: r in rescues ==> r.body != []
    ensures Base(r.0) && HandlerAt(cs, lp, r.0, r.1) && Grows(cs, r.0) && r.0.pad == cs.pad && cs.nreg <= r.0.nreg
  {
    hide Wf, Base, Fills, Advances, AdvancesBut, Grows, Emit, GenLanding, GenRescues;
    var c0 := At(cs, lp);
    var (c1, dw, exc, excType) := GenLanding(c0);
    AdvancesIsAdvancesBut(c0, c1);
    var (c2, impls) := GenRescues(rescues, result, exc, excType, c1);
    AdvancesButTrans(c0, c1, c2, [], impls);
    assert [] + impls == impls && impls + [] == impls;
    var c3 := Emit(c2, Rethrow(dw));
    AdvancesIsAdvancesBut(c2, c3);
    AdvancesButTrans(c0, c2, c3, impls, []);
    HandlerEnds(cs, lp, c3, impls);
    (Terminate(c3, Ret(NullPtr)), impls)
  }

  /** The handler is complete but for the bodies of its clauses. */
  ghost predicate HandlerAt(a: CS, lp: nat, b: CS, impls: seq<nat>) {
    && Keeps(a, lp, b)
    && lp < |b.blocks| && b.blocks[lp].term.Some?
    && (forall i :: |a.blocks| <= i < |b.blocks| && i !in impls ==> b.blocks[i].term.Some?)
    && (forall k :: 0 <= k < |impls| ==> |a.blocks| <= impls[k] && IsOpen(b, impls[k]))
    && (forall j, k :: 0 <= j < k < |impls| ==> impls[j] != impls[k])
  }

  lemma HandlerEnds(cs: CS, lp: nat, c3: CS, impls: seq<nat>)
    requires Base(cs) && IsOpen(cs, lp) && Wf(c3) && AdvancesBut(At(cs, lp), c3, impls)
    ensures HandlerAt(cs, lp, Terminate(c3, Ret(NullPtr)), impls)
    ensures Base(Terminate(c3, Ret(NullPtr))) && Grows(cs, Terminate(c3, Ret(NullPtr)))
  {
    var c4 := Terminate(c3, Ret(NullPtr));
    hide Base, SlotsOk;
    GrowsTrans(At(cs, lp), c3, c4);
  }

  /** End each of the given blocks with a jump to out. */
  function CloseAll(bs: seq<nat>, out: nat, cs: CS): (r: CS)
    requires Base(cs) && 0 < out < |cs.blocks| && AllOpen(bs, cs)
    ensures Base(r) && r.(cur := cs.cur, blocks := cs.blocks) == cs && Grows(cs, r) && |r.blocks| == |cs.blocks|
    ensures forall k :: 0 <= k < |bs| ==> r.blocks[bs[k]] == Block(cs.blocks[bs[k]].instrs, Some(Br(out)))
    ensures forall i :: 0 <= i < |cs.blocks| && i !in bs ==> r.blocks[i] == cs.blocks[i]
    decreases |bs|
  {
    hide Base, Wf, Fills;
    if bs == [] then GrowsRefl(cs); cs else
      var c1 := PatchBlock(cs, bs[0], Br(out));
      assert AllOpen(bs[1..], c1) by {
        assert forall k :: 0 <= k < |bs[1..]| ==> bs[1..][k] == bs[k + 1];
      }
      var c2 := CloseAll(bs[1..], out, c1);
      GrowsTrans(cs, c1, c2);
      c2
  }

  ghost predicate AllOpen(bs: seq<nat>, cs: CS) {
    && (forall k :: 0 <= k < |bs| ==> IsOpen(cs, bs[k]) && bs[k] < |cs.blocks|)
    && (forall j, k :: 0 <= j < k < |bs| ==> bs[j] != bs[k])
  }

  /** Append the landing pad's block and make it the active one. */
  function EnterBegin(cs: CS): (r: CS)
    requires Wf(cs)
    ensures Wf(r) && r == AppendBlock(cs).(pad := Some(|cs.blocks|)) && IsOpen(r, |cs.blocks|)
  {
    AppendBlock(cs).(pad := Some(|cs.blocks|))
  }

  lemma LeaveBegin(c1: CS, c2: CS, c4: CS, pad: Option<nat>)
    requires Wf(c1) && c2 == EnterBegin(c1) && Wf(c4) && Advances(c2, c4) && pad == c1.pad
    ensures Base(c4.(pad := pad)) && IsOpen(c4.(pad := pad), |c1.blocks|) && c4.blocks[|c1.blocks|] == Block([], None)
  {}

  /** Before the final jumps of a begin statement are added, their blocks are open. */
  lemma BeginEnds(cs: CS, c1: CS, c2: CS, c4: CS, c5: CS, impls: seq<nat>)
    requires Wf(c1) && c2 == EnterBegin(c1) && Wf(c4) && Advances(c2, c4)
    requires Base(c5) && HandlerAt(c4.(pad := cs.pad), |c1.blocks|, c5, impls)
    ensures AllOpen(impls + [c4.cur], AppendBlock(c5)) && c4.cur != |c1.blocks|
  {
    hide Base, Grows;
  }

  lemma BeginAdvances(cs: CS, c1: CS, c2: CS, c4: CS, c5: CS, impls: seq<nat>, c6: CS)
    requires Wf(cs) && Wf(c1) && Advances(cs, c1) && c1.cur == cs.cur && |c1.blocks| == |cs.blocks|
    requires c2 == EnterBegin(c1) && Wf(c4) && Advances(c2, c4)
    requires Base(c5) && HandlerAt(c4.(pad := cs.pad), |c1.blocks|, c5, impls) && Grows(c4.(pad := cs.pad), c5)
    requires AllOpen(impls + [c4.cur], AppendBlock(c5)) && c6 == CloseAll(impls + [c4.cur], |c5.blocks|, AppendBlock(c5))
    ensures IsOpen(c6, |c5.blocks|) && Wf(At(c6, |c5.blocks|)) && Advances(cs, At(c6, |c5.blocks|))
  {
    hide Base, CloseAll;
    BeginGrows(cs, c1, c2, c4, c5, c6);
    var bs := impls + [c4.cur];
    assert forall i :: i in bs <==> i in impls || i == c4.cur;
    assert forall i :: i in bs ==> i < |c6.blocks| && c6.blocks[i].term.Some?;
    assert |c5.blocks| !in bs;
  }

  lemma BeginGrows(cs: CS, c1: CS, c2: CS, c4: CS, c5: CS, c6: CS)
    requires Wf(c1) && Grows(cs, c1) && c2 == EnterBegin(c1) && Grows(c2, c4) && Grows(c4.(pad := cs.pad), c5) && Base(c5)
    requires Grows(AppendBlock(c5), c6)
    ensures Grows(cs, c6)
  {
    hide Base;
    GrowsTrans(cs, c1, AppendBlock(c1));
    GrowsTrans(cs, c2, c4);
    GrowsTrans(cs, c4, c5);
    GrowsTrans(cs, c5, AppendBlock(c5));
    GrowsTrans(cs, AppendBlock(c5), c6);
  }

  // ----- a whole unit

  const START := CS([Block([], None), Block([], None)], 1, map[], [], 0, 0, None)

  /** The entry block only allocates slots and then jumps to block 1. */
  function CompileUnit(unit: seq<Stmt>): (blocks: seq<Block>)
    requires WfStmts(unit, false)
  {
    var (c, v) := GenStmts(unit, START);
    Finish(c, v)
  }

  function Finish(c: CS, v: Operand): (blocks: seq<Block>)
    requires Wf(c)
    ensures |blocks| == |c.blocks|
    ensures blocks[0] == Block(EntryCode(c.slots), Some(Br(1)))
    ensures blocks[c.cur] == Block(c.blocks[c.cur].instrs, Some(Ret(v)))
    ensures forall i :: 0 < i < |c.blocks| && i != c.cur ==> blocks[i] == c.blocks[i]
    ensures TermsOk(blocks)
  {
    var d := Terminate(c, Ret(v));
    d.blocks[0 := Block(d.blocks[0].instrs, Some(Br(1)))]
  }

  /** Every block of a compiled unit ends in a terminator, and no jump leaves the function
      or targets the entry block. */
  lemma CompiledGraphIsComplete(unit: seq<Stmt>)
    requires WfStmts(unit, false)
    ensures var f := CompileUnit(unit);
      && 2 <= |f|
      && (forall i :: 0 <= i < |f| ==> f[i].term.Some? && TermOk(f[i].term.value, |f|))
  {
  }
}
