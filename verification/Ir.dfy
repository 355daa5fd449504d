/** The intermediate representation: a function is a sequence of basic blocks, and
    block 0 is its entry. */
module Ir {
  import opened Options

  /** What a stack slot is for, when its content outlives one expression. */
  datatype Tag = Local(name: string) | WhileTmp(index: nat)

  datatype Slot = Slot(tag: Option<Tag>, cells: nat)

  datatype Operand = Self | NullPtr | Reg(r: nat)

  /** Calls with an effect: each is one event of the run. */
  datatype CallOp =
    | OpFixnum(n: int)
    | OpString(s: string)
    | OpIvGet(obj: Operand, sym: Operand)
    | OpIvSet(obj: Operand, sym: Operand, val: Operand)
    | OpConstGet(cls: Operand, sym: Operand)
    | OpInvoke(recv: Operand, sym: Operand, argc: nat, argv: Option<nat>)
    | OpSafepoint

  /** Operations without an effect. */
  datatype PureOp =
    | OpBool(b: bool)
    | OpSym(name: string)
    | OpClassContext(obj: Operand)
    | OpEq(lhs: Operand, rhs: Operand)
    | OpException
    | OpSelector(ex: Operand)
    | OpExtract(ex: Operand)
    | OpTypeOf(obj: Operand)
    | OpDescendant(ancestor: Operand, descendant: Operand)

  datatype Instr =
    | Alloca(slot: nat, info: Slot)
    | GcRoot(slot: nat)
    | Load(dst: nat, slot: nat)
    | Store(v: Operand, slot: nat, cell: nat)
    | Pure(dst: nat, pop: PureOp)
    | CallI(dst: nat, cop: CallOp)
    | Rethrow(ex: Operand)

  datatype Term =
    | Br(target: nat)
    | CondBr(c: Operand, ifTrue: nat, ifFalse: nat)
    | Ret(v: Operand)
    | InvokeT(dst: nat, cop: CallOp, normal: nat, unwind: nat)

  datatype Block = Block(instrs: seq<Instr>, term: Option<Term>)
}
