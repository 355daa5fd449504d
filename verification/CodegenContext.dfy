/** The code generator as it works: builders are repositioned and blocks, slots and the
    table of locals grow in place.  Each method is tied to the function of the same name
    in Codegen.dfy, about which the proofs are. */
module CodegenContext {
  import opened Options
  import opened PupAst
  import opened Ir
  import opened Codegen

  class Context {
    var blocks: seq<Block>       // the basic blocks of the function under construction
    var build: nat               // the block at whose end the current builder is positioned
    var locals: map<string, nat>
    var slots: seq<Slot>         // what the entry block's builder has allocated
    var nextReg: nat
    var landingpad: Option<nat>
    var whiles: nat              // tells apart the slots that share the name while_tmp_value

    ghost function State(): CS
      reads this
    {
      CS(blocks, build, locals, slots, nextReg, whiles, landingpad)
    }

    /** A function with an empty entry block and an empty body block. */
    constructor ()
      ensures State() == START
    {
      blocks := [Block([], None), Block([], None)];
      build, locals, slots, nextReg, landingpad := 1, map[], [], 0, None;
      whiles := 0;
    }

    // ----- the current builder

    method Insert(i: Instr)
      requires Wf(State())
      modifies this`blocks
      ensures State() == Emit(old(State()), i)
    {
      blocks := blocks[build := Block(blocks[build].instrs + [i], None)];
    }

    method InsertPure(op: PureOp) returns (v: Operand)
      requires Wf(State())
      modifies this`blocks, this`nextReg
      ensures (State(), v) == EmitPure(old(State()), op)
    {
      v := Reg(nextReg);
      nextReg := nextReg + 1;
      Insert(Pure(nextReg - 1, op));
    }

    method InsertCall(op: CallOp) returns (v: Operand)
      requires Wf(State())
      modifies this`blocks, this`nextReg
      ensures (State(), v) == EmitCall(old(State()), op)
    {
      v := Reg(nextReg);
      nextReg := nextReg + 1;
      Insert(CallI(nextReg - 1, op));
    }

    method InsertLoad(slot: nat) returns (v: Operand)
      requires Wf(State())
      modifies this`blocks, this`nextReg
      ensures (State(), v) == EmitLoad(old(State()), slot)
    {
      v := Reg(nextReg);
      nextReg := nextReg + 1;
      Insert(Load(nextReg - 1, slot));
    }

    method PositionAtEnd(b: nat)
      requires Base(State()) && IsOpen(State(), b)
      modifies this`build
      ensures State() == At(old(State()), b)
    {
      build := b;
    }

    method InsertTerm(t: Term)
      requires Wf(State()) && TermOk(t, |blocks|)
      modifies this`blocks
      ensures State() == Terminate(old(State()), t)
    {
      blocks := blocks[build := Block(blocks[build].instrs, Some(t))];
    }

    method Append() returns (b: nat)
      requires Base(State())
      modifies this`blocks
      ensures State() == AppendBlock(old(State())) && b == |old(blocks)|
    {
      b := |blocks|;
      blocks := blocks + [Block([], None)];
    }

    // ----- the entry block's builder

    method Alloc(info: Slot) returns (slot: nat)
      requires Wf(State()) && NewSlotOk(State(), info)
      modifies this
      ensures State() == AllocSlot(old(State()), info) && slot == |old(slots)|
    {
      assert 0 < |blocks| && blocks[0].term.None?;
      hide Wf, Base, NewSlotOk, Advances;
      slot := |slots|;
      blocks := blocks[0 := Block(blocks[0].instrs + [Alloca(slot, info)], None)];
      if info.tag.Some? && info.tag.value.Local? {
        blocks := blocks[0 := Block(blocks[0].instrs + [GcRoot(slot)], None)];
        locals := locals[info.tag.value.name := slot];
      }
      if info.tag.Some? && info.tag.value.WhileTmp? {
        whiles := whiles + 1;
      }
      assert blocks[0].instrs == old(blocks)[0].instrs + SlotCode(slot, info);
      assert blocks == old(blocks)[0 := Block(old(blocks)[0].instrs + SlotCode(slot, info), None)];
      slots := slots + [info];
    }

    method LocalFor(x: string) returns (slot: nat)
      requires Wf(State())
      modifies this
      ensures State() == GetOrCreateLocal(old(State()), x) && x in locals && slot == locals[x]
    {
      if x in locals {
        slot := locals[x];
      } else {
        NewLocalSlot(State(), x);
        slot := Alloc(Slot(Some(Local(x)), 1));
      }
    }

    // ----- expressions

    method GenerateExpr(e: Expr) returns (v: Operand)
      requires Wf(State())
      modifies this
      ensures (State(), v) == GenExpr(e, old(State()))
      decreases e, 1
    {
      hide Wf, Advances, Emit, EmitPure, EmitCall, EmitLoad, GetOrCreateLocal, GenInvocation;
      match e
      case IntLit(n) => v := InsertCall(OpFixnum(n));
      case StrLit(s) => v := InsertCall(OpString(s));
      case BoolLit(b) => v := InsertPure(OpBool(b));
      case SelfRef => v := Self;
      case InstVar(x) =>
        var sym := InsertPure(OpSym(x));
        v := InsertCall(OpIvGet(Self, sym));
      case Const(x) => v := GenerateConst(x);
      case Name(x) =>
        if x in locals {
          v := InsertLoad(locals[x]);
        } else {
          v := GenerateInvocation(Self, x, []);
        }
      case Call(recv, x, args) =>
        var r := Self;
        if recv.Some? {
          r := GenerateExpr(recv.value);
        }
        var ops := GenerateArgs(args);
        v := GenerateInvocation(r, x, ops);
      case Binary(kind, op, left, right) =>
        var l := GenerateExpr(left);
        var r := GenerateExpr(right);
        v := GenerateInvocation(l, SentMessage(kind, op), [r]);
      case AssignLocal(x, rhs) =>
        var slot := LocalFor(x);
        v := GenerateExpr(rhs);
        Insert(Store(v, slot, 0));
      case AssignInst(x, rhs) =>
        v := GenerateExpr(rhs);
        var sym := InsertPure(OpSym(x));
        var _ := InsertCall(OpIvSet(Self, sym, v));
    }

    method GenerateArgs(args: seq<Expr>) returns (ops: seq<Operand>)
      requires Wf(State())
      modifies this
      ensures (State(), ops) == GenArgs(args, old(State()))
      decreases args, 0
    {
      hide Wf, Advances, GenExpr;
      ops := [];
      assert args[0..] == args && [] + GenArgs(args, State()).1 == GenArgs(args, State()).1;
      for i := 0 to |args|
        invariant Wf(State())
        invariant GenArgs(args, old(State())) == (GenArgs(args[i..], State()).0, ops + GenArgs(args[i..], State()).1)
      {
        assert args[i..][1..] == args[i + 1..];
        ghost var rest := GenArgs(args[i..], State()).1;
        var op := GenerateExpr(args[i]);
        assert ops + rest == (ops + [op]) + GenArgs(args[i + 1..], State()).1;
        ops := ops + [op];
      }
      assert ops + [] == ops;
    }

    method GenerateExprs(es: seq<Expr>) returns (v: Operand)
      requires Wf(State()) && es != []
      modifies this
      ensures (State(), v) == GenExprs(es, old(State()))
    {
      hide Wf, Advances, GenExpr;
      v := GenerateExpr(es[0]);
      for i := 1 to |es|
        invariant Wf(State())
        invariant GenExprs(es, old(State())) == if i < |es| then GenExprs(es[i..], State()) else (State(), v)
      {
        assert es[i..][1..] == es[i + 1..];
        v := GenerateExpr(es[i]);
      }
    }

    method GenerateConst(x: string) returns (v: Operand)
      requires Wf(State())
      modifies this
      ensures (State(), v) == GenConst(x, old(State()))
    {
      hide Wf, Advances, Emit, EmitPure, EmitCall;
      var cls := InsertPure(OpClassContext(Self));
      var sym := InsertPure(OpSym(x));
      v := InsertCall(OpConstGet(cls, sym));
    }

    method GenerateArgv(ops: seq<Operand>) returns (argv: Option<nat>)
      requires Wf(State())
      modifies this
      ensures (State(), argv) == GenArgv(ops, old(State()))
    {
      hide Wf, Advances, Emit, AllocSlot;
      if ops == [] {
        return None;
      }
      var slot := Alloc(Slot(None, |ops|));
      ghost var c1 := State();
      for i := 0 to |ops|
        invariant Wf(State())
        invariant StoreArgs(ops, slot, 0, c1) == StoreArgs(ops[i..], slot, i, State())
      {
        assert ops[i..][1..] == ops[i + 1..];
        Insert(Store(ops[i], slot, i));
      }
      argv := Some(slot);
    }

    method GenerateInvocation(recv: Operand, name: string, ops: seq<Operand>) returns (v: Operand)
      requires Wf(State())
      modifies this
      ensures (State(), v) == GenInvocation(recv, name, ops, old(State()))
    {
      hide Advances, Emit, EmitPure, EmitCall, GenArgv, Base;
      var argv := GenerateArgv(ops);
      var sym := InsertPure(OpSym(name));
      var call := OpInvoke(recv, sym, |ops|, argv);
      if landingpad.Some? {
        ghost var c2 := State();
        var dst := nextReg;
        nextReg := nextReg + 1;
        PadInRange(c2);
        var bkcontinue := Append();
        InsertTerm(InvokeT(dst, call, bkcontinue, landingpad.value));
        PositionAtEnd(bkcontinue);
        v := Reg(dst);
      } else {
        v := InsertCall(call);
      }
    }

    // ----- statements

    /** Run with a fresh builder at the end of block b; the previous builder is restored after. */
    method GenerateCond(cond: Expr, b: nat, ifFalse: nat, ifTrue: nat)
      requires Base(State()) && IsOpen(State(), b) && 0 < ifFalse < |blocks| && 0 < ifTrue < |blocks|
      modifies this
      ensures State() == GenCond(cond, b, ifFalse, ifTrue, old(State())).(cur := old(build))
    {
      hide Wf, Base, Advances, Completes, Keeps, Emit, EmitPure, GenExpr, EndBlock;
      ghost var c0 := At(State(), b);
      StartAt(State(), b);
      var lastBuilder := build;
      PositionAtEnd(b);
      var v := GenerateExpr(cond);
      ghost var c1 := State();
      var f := InsertPure(OpBool(false));
      AdvancesTrans(c0, c1, State());
      ghost var c2 := State();
      var cmp := InsertPure(OpEq(v, f));
      AdvancesTrans(c0, c2, State());
      TermStaysOk(old(State()), b, State(), CondBr(cmp, ifFalse, ifTrue));
      InsertTerm(CondBr(cmp, ifFalse, ifTrue));
      build := lastBuilder;
    }

    method GenerateBranch(ss: seq<Stmt>, b: nat, result: nat, loops: bool, target: nat)
      requires Base(State()) && IsOpen(State(), b) && 0 < target < |blocks| && WfStmts(ss, landingpad.Some?)
      modifies this
      ensures State() == GenBranch(ss, b, result, loops, target, old(State())).(cur := old(build))
      decreases ss, 2
    {
      hide Wf, Base, Advances, Completes, Keeps, Emit, EmitCall, GenStmts, EndBlock;
      ghost var c0 := At(State(), b);
      StartAt(State(), b);
      var lastBuilder := build;
      PositionAtEnd(b);
      var v := GenerateStmts(ss);
      ghost var c1 := State();
      Insert(Store(v, result, 0));
      ghost var c2 := State();
      AdvancesTrans(c0, c1, c2);
      AdvancesRefl(c2);
      if loops {
        var _ := InsertCall(OpSafepoint);
      }
      AdvancesTrans(c0, c2, State());
      TermStaysOk(old(State()), b, State(), Br(target));
      InsertTerm(Br(target));
      build := lastBuilder;
    }

    method GenerateStmts(ss: seq<Stmt>) returns (v: Operand)
      requires Wf(State()) && WfStmts(ss, landingpad.Some?)
      modifies this
      ensures (State(), v) == GenStmts(ss, old(State()))
      decreases ss, 0
    {
      hide Wf, Advances, GenStmt;
      v := GenerateStmt(ss[0]);
      for i := 1 to |ss|
        invariant Wf(State()) && landingpad == old(landingpad)
        invariant i < |ss| ==> WfStmts(ss[i..], landingpad.Some?)
        invariant GenStmts(ss, old(State())) == if i < |ss| then GenStmts(ss[i..], State()) else (State(), v)
      {
        assert ss[i..][1..] == ss[i + 1..];
        v := GenerateStmt(ss[i]);
      }
    }

    method GenerateStmt(s: Stmt) returns (v: Operand)
      requires Wf(State()) && WfStmt(s, landingpad.Some?)
      modifies this
      ensures (State(), v) == GenStmt(s, old(State()))
      decreases s, 2
    {
      hide Wf, Advances, GenIf, GenWhile, GenBegin, GenExpr;
      match s
      case ExprStmt(e) => v := GenerateExpr(e);
      case If(_, _, _) => v := GenerateIf(s);
      case While(_, _) => v := GenerateWhile(s);
      case Begin(_, _) => v := GenerateBegin(s);
    }

    method GenerateIf(s: Stmt) returns (v: Operand)
      requires Wf(State()) && WfStmt(s, landingpad.Some?) && s.If?
      modifies this
      ensures (State(), v) == GenIf(s, old(State()))
      decreases s, 1
    {
      hide Wf, Base, Advances, Grows, Completes, Keeps, IsOpen, ArmsOpen, ArmsDone, AllocSlot, GenArms, EmitLoad, JumpToNew;
      ghost var cs := State();
      CurInRange(cs);
      var result := Alloc(Slot(None, 1));
      ghost var c1 := State();
      var bkcond := StartBlock();
      var bkthen := AddBlock(c1, 1);
      var bkelse := AddBlock(c1, 2);
      var bkcontinue := AddBlock(c1, 3);
      ghost var c2 := State();
      ArmsStart(s, cs, c1);
      GenerateArms(s, bkcond, bkthen, bkelse, bkcontinue, result);
      ghost var c3 := GenArms(s, bkcond, result, c2);
      IfAdvances(cs, c1, c2, c3);
      ArmsMove(bkcond, c2, c3, build);
      PositionAtEnd(bkcontinue);
      v := InsertLoad(result);
    }

    method GenerateArms(s: Stmt, bkcond: nat, bkthen: nat, bkelse: nat, bkcontinue: nat, result: nat)
      requires ArmsOpen(s, bkcond, State()) && 0 < build < |blocks|
      requires bkthen == bkcond + 1 && bkelse == bkcond + 2 && bkcontinue == bkcond + 3
      modifies this
      ensures State() == GenArms(s, bkcond, result, old(State())).(cur := old(build))
      decreases s, 0
    {
      hide Wf, Base, Advances, Grows, Completes, Keeps, IsOpen, GenCond, GenBranch;
      ghost var c2 := State();
      GenerateCond(s.cond, bkcond, bkelse, bkthen);
      ghost var c3 := GenCond(s.cond, bkcond, bkelse, bkthen, c2);
      StillOpen(c2, bkcond, c3, bkthen); StillOpen(c2, bkcond, c3, bkelse); StillOpen(c2, bkcond, c3, bkcontinue);
      CurMoves(c3, build);
      GenerateBranch(s.thn, bkthen, result, false, bkcontinue);
      ghost var c4 := GenBranch(s.thn, bkthen, result, false, bkcontinue, c3);
      BranchIgnoresCur(s.thn, bkthen, result, false, bkcontinue, c3, build);
      StillOpen(c3, bkthen, c4, bkelse);
      CurMoves(c4, build);
      GenerateBranch(s.els, bkelse, result, false, bkcontinue);
      BranchIgnoresCur(s.els, bkelse, result, false, bkcontinue, c4, build);
    }

    method GenerateWhile(s: Stmt) returns (v: Operand)
      requires Wf(State()) && WfStmt(s, landingpad.Some?) && s.While?
      modifies this
      ensures (State(), v) == GenWhile(s, old(State()))
      decreases s, 0
    {
      hide Wf, Base, Advances, Grows, Completes, Keeps, IsOpen, AllocSlot, GenCond, GenBranch, EmitLoad, JumpToNew;
      ghost var cs := State();
      CurInRange(cs);
      NewWhileSlot(cs);
      var result := AllocWhile();
      ghost var c1 := State();
      var bkcond := StartBlock();
      var bkbody := AddBlock(c1, 1);
      var bkcontinue := AddBlock(c1, 2);
      ghost var c2 := State();
      NewBlocksOpen(c1, 3);
      GenerateCond(s.wcond, bkcond, bkcontinue, bkbody);
      ghost var c3 := GenCond(s.wcond, bkcond, bkcontinue, bkbody, c2);
      StillOpen(c2, bkcond, c3, bkbody); StillOpen(c2, bkcond, c3, bkcontinue);
      CurMoves(c3, build);
      GenerateBranch(s.body, bkbody, result, true, bkcond);
      BranchIgnoresCur(s.body, bkbody, result, true, bkcond, c3, build);
      ghost var c4 := GenBranch(s.body, bkbody, result, true, bkcond, c3);
      StillOpen(c3, bkbody, c4, bkcontinue);
      WhileAdvances(cs, c1, c2, c3, c4);
      CurMoves(c4, build);
      PositionAtEnd(bkcontinue);
      v := InsertLoad(result);
    }

    method GenerateBegin(s: Stmt) returns (v: Operand)
      requires Wf(State()) && WfStmt(s, landingpad.Some?) && s.Begin?
      modifies this
      ensures (State(), v) == GenBegin(s, old(State()))
      decreases s, 0
    {
      hide Wf, Base, Advances, Grows, AllocSlot, GenStmts, Emit, GenHandler, HandlerAt, AllOpen, CloseAll, EmitLoad, EnterBegin;
      ghost var cs := State();
      var result := Alloc(Slot(None, 1));
      ghost var c1 := State();
      var lastLandingpad := landingpad;
      var lp := EnterLandingPad();
      ghost var c2 := State();
      var last := GenerateStmts(s.bbody);
      ghost var c3 := State();
      Insert(Store(last, result, 0));
      ghost var c4 := State();
      var beginBlock := build;
      AdvancesTrans(c2, c3, c4);
      LeaveBegin(c1, c2, c4, lastLandingpad);
      landingpad := lastLandingpad;
      var impls := GenerateHandler(s.rescues, result, lp);
      ghost var c5 := GenHandler(s.rescues, result, lp, c4.(pad := cs.pad)).0;
      BeginEnds(cs, c1, c2, c4, c5, impls);
      BeginMoves(c4.(pad := cs.pad), lp, c5, impls, beginBlock);
      var bkout := Append();
      CloseAllIgnoresCur(impls + [beginBlock], bkout, AppendBlock(c5), beginBlock);
      JumpAll(impls + [beginBlock], bkout);
      ghost var c6 := CloseAll(impls + [beginBlock], bkout, AppendBlock(c5));
      BeginAdvances(cs, c1, c2, c4, c5, impls, c6);
      PositionAtEnd(bkout);
      v := InsertLoad(result);
    }

    /** Append the landing pad's block and make it the active one. */
    method EnterLandingPad() returns (lp: nat)
      requires Wf(State())
      modifies this
      ensures State() == EnterBegin(old(State())) && lp == |old(blocks)|
    {
      lp := Append();
      landingpad := Some(lp);
    }

    /** The landing pad is generated with a fresh builder; the previous one is restored after. */
    method GenerateHandler(rescues: seq<Rescue>, result: nat, lp: nat) returns (impls: seq<nat>)
      requires Base(State()) && IsOpen(State(), lp) && landingpad.None? && forall r :: r in rescues ==> r.body != []
      modifies this
      ensures var (c, bs) := GenHandler(rescues, result, lp, old(State())); State() == c.(cur := old(build)) && impls == bs
    {
      hide Wf, Base, Advances, AdvancesBut, Grows, Emit, GenRescue, GenRescues, HandlerAt, GenLanding;
      ghost var c0 := State();
      StartAt(c0, lp);
      var lastBuilder := build;
      PositionAtEnd(lp);
      var dw, exc, excType := GenerateLanding();
      ghost var c1 := State();
      impls := [];
      assert rescues[0..] == rescues;
      assert [] + GenRescues(rescues, result, exc, excType, c1).1 == GenRescues(rescues, result, exc, excType, c1).1;
      for i := 0 to |rescues|
        invariant Wf(State()) && landingpad.None?
        invariant var (c, rest) := GenRescues(rescues[i..], result, exc, excType, State());
          GenRescues(rescues, result, exc, excType, c1) == (c, impls + rest)
      {
        assert rescues[i..][1..] == rescues[i + 1..];
        ghost var before := State();
        ghost var rest := GenRescues(rescues[i..], result, exc, excType, before).1;
        FirstRescue(rescues[i..], result, exc, excType, before);
        var impl := GenerateRescue(rescues[i], result, exc, excType);
        ghost var others := GenRescues(rescues[i + 1..], result, exc, excType, State()).1;
        assert rest == [impl] + others;
        assert impls + rest == (impls + [impl]) + others;
        impls := impls + [impl];
      }
      assert rescues[|rescues|..] == [] && impls + [] == impls;
      NoRescue(result, exc, excType, State());
      assert GenRescues(rescues, result, exc, excType, c1) == (State(), impls);
      Insert(Rethrow(dw));
      InsertTerm(Ret(NullPtr));
      assert (State(), impls) == GenHandler(rescues, result, lp, c0);
      build := lastBuilder;
    }

    method GenerateLanding() returns (dw: Operand, exc: Operand, excType: Operand)
      requires Wf(State())
      modifies this
      ensures (State(), dw, exc, excType) == GenLanding(old(State()))
    {
      hide Wf, Advances, Emit, EmitPure;
      dw := InsertPure(OpException);
      var sel := InsertPure(OpSelector(dw));
      exc := InsertPure(OpExtract(dw));
      excType := InsertPure(OpTypeOf(exc));
    }

    /** One clause: emit its tests, then the block of its body, then go back and make the
        tests branch to it. */
    method GenerateRescue(r: Rescue, result: nat, exc: Operand, excType: Operand) returns (impl: nat)
      requires Wf(State()) && landingpad.None? && r.body != []
      modifies this
      ensures (State(), impl) == GenRescue(r, result, exc, excType, old(State()))
    {
      hide Wf, Base, Advances, AdvancesBut, Grows, Emit, GenTypes, PatchTests, GenExprs, BindException, RescueTypes, Keeps;
      ghost var cs := State();
      var tests := GenerateTypes(RescueTypes(r), excType);
      ghost var c1 := State();
      var nextRescueBlock := build;
      TestsAreOpen(cs, c1, tests);
      impl := Append();
      PatchAllTests(tests, impl);
      PositionAtEnd(impl);
      ghost var c3 := State();
      BindTo(r.varName, exc);
      ghost var c4 := State();
      var v := GenerateExprs(r.body);
      ghost var c5 := State();
      AdvancesTrans(c3, c4, c5);
      Insert(Store(v, result, 0));
      AdvancesTrans(c3, c5, State());
      RescueAdvances(cs, c1, tests, c3, State());
      PositionAtEnd(nextRescueBlock);
    }

    method BindTo(x: Option<string>, exc: Operand)
      requires Wf(State())
      modifies this
      ensures State() == BindException(x, exc, old(State()))
    {
      hide Wf, Advances, Emit, GetOrCreateLocal;
      if x.Some? {
        var slot := LocalFor(x.value);
        Insert(Store(exc, slot, 0));
      }
    }

    method GenerateTypes(types: seq<string>, excType: Operand) returns (tests: seq<TypeTest>)
      requires Wf(State())
      modifies this
      ensures (State(), tests) == GenTypes(types, excType, old(State()))
    {
      hide Wf, Base, Advances, Grows, Keeps, TestsAt, Emit, EmitPure, GenConst, AppendBlock, GenTypes, NextTest, IsOpen;
      ghost var c0 := State();
      tests := [];
      assert types[0..] == types && [] + GenTypes(types, excType, c0).1 == GenTypes(types, excType, c0).1;
      for i := 0 to |types|
        invariant Wf(State())
        invariant var (c, rest) := GenTypes(types[i..], excType, State()); GenTypes(types, excType, c0) == (c, tests + rest)
      {
        assert types[i..][1..] == types[i + 1..];
        GenTypesStep(types[i..], excType, State());
        ghost var rest := GenTypes(types[i..], excType, State()).1;
        var expected := GenerateConst(types[i]);
        var matched := InsertPure(OpDescendant(expected, excType));
        var block := build;
        var bknotMatched := NextBlock();
        var t := TypeTest(block, matched, bknotMatched);
        assert tests + rest == (tests + [t]) + rest[1..];
        tests := tests + [t];
      }
      GenTypesNone(excType, State());
      assert types[|types|..] == [] && tests + [] == tests;
    }

    /** Append a block and position there. */
    method NextBlock() returns (b: nat)
      requires Wf(State())
      modifies this
      ensures State() == NextTest(old(State())) && b == |old(blocks)|
    {
      b := Append();
      PositionAtEnd(b);
    }

    method PatchOne(b: nat, t: Term)
      requires Base(State()) && IsOpen(State(), b) && TermOk(t, |blocks|)
      modifies this
      ensures State() == PatchBlock(old(State()), b, t)
    {
      PositionAtEnd(b);
      InsertTerm(t);
    }

    method PatchAllTests(tests: seq<TypeTest>, impl: nat)
      requires Base(State()) && 0 < impl < |blocks| && TestsOpen(tests, State())
      modifies this
      ensures State() == PatchTests(tests, impl, old(State()))
    {
      hide Base, Wf, Grows, PatchBlock, TestsOpen;
      ghost var c0 := State();
      assert tests[0..] == tests;
      for i := 0 to |tests|
        invariant Base(State()) && impl < |blocks| && TestsOpen(tests[i..], State())
        invariant PatchTests(tests, impl, c0) == PatchTests(tests[i..], impl, State())
      {
        assert tests[i..][1..] == tests[i + 1..];
        FirstTestOpen(tests[i..], impl, State());
        PatchOne(tests[i].blk, CondBr(tests[i].matched, impl, tests[i].notMatched));
      }
    }

    /** End each block with a jump to out. */
    method JumpAll(bs: seq<nat>, out: nat)
      requires Base(State()) && 0 < out < |blocks| && AllOpen(bs, State())
      modifies this
      ensures State() == CloseAll(bs, out, old(State()))
    {
      hide Base, Wf, Grows, PatchBlock, AllOpen;
      ghost var c0 := State();
      assert bs[0..] == bs;
      for i := 0 to |bs|
        invariant Base(State()) && out < |blocks| && AllOpen(bs[i..], State())
        invariant CloseAll(bs, out, c0) == CloseAll(bs[i..], out, State())
      {
        assert bs[i..][1..] == bs[i + 1..];
        FirstBlockOpen(bs[i..], out, State());
        PatchOne(bs[i], Br(out));
      }
    }

    /** The slot that receives the value of a while. */
    method AllocWhile() returns (slot: nat)
      requires Wf(State())
      modifies this
      ensures State() == AllocSlot(old(State()), Slot(Some(WhileTmp(old(whiles))), 1)) && slot == |old(slots)|
    {
      NewWhileSlot(State());
      slot := Alloc(Slot(Some(WhileTmp(whiles)), 1));
    }

    /** Append a block and end the current one with a jump to it. */
    method StartBlock() returns (b: nat)
      requires Wf(State())
      modifies this
      ensures State() == JumpToNew(old(State()), 1) && b == |old(blocks)|
    {
      b := Append();
      InsertTerm(Br(b));
    }

    method AddBlock(ghost c1: CS, ghost n: nat) returns (b: nat)
      requires Wf(c1) && 0 < n && State() == JumpToNew(c1, n)
      modifies this`blocks
      ensures State() == JumpToNew(c1, n + 1) && b == |c1.blocks| + n
    {
      b := Append();
    }
  }

  lemma NewLocalSlot(cs: CS, x: string)
    requires Wf(cs) && x !in cs.locals
    ensures NewSlotOk(cs, Slot(Some(Local(x)), 1))
  {}

  lemma PadInRange(cs: CS)
    requires Wf(cs) && cs.pad.Some?
    ensures Base(cs.(nreg := cs.nreg + 1)) && 0 < cs.pad.value < |cs.blocks|
  {}

  lemma NewBlocksOpen(c: CS, n: nat)
    requires Wf(c) && 0 < n
    ensures forall i :: |c.blocks| <= i < |c.blocks| + n ==> IsOpen(JumpToNew(c, n), i)
  {
    hide JumpToNew;
    assert forall i :: |c.blocks| <= i < |c.blocks| + n ==> JumpToNew(c, n).blocks[i] == Block([], None);
  }

  lemma ArmsMove(b: nat, c: CS, d: CS, x: nat)
    requires ArmsDone(b, c, d) && Base(d) && 0 < x < |c.blocks|
    ensures Base(d.(cur := x)) && IsOpen(d.(cur := x), b + 3)
  {}

  lemma CurInRange(c: CS)
    requires Wf(c)
    ensures 0 < c.cur < |c.blocks|
  {}

  lemma CurMoves(c: CS, b: nat)
    requires Base(c) && 0 < b < |c.blocks|
    ensures Base(c.(cur := b))
    ensures forall i :: IsOpen(c.(cur := b), i) <==> IsOpen(c, i)
  {}

  /** A branch starts by positioning the builder, wherever it was. */
  lemma BranchIgnoresCur(ss: seq<Stmt>, b: nat, result: nat, loops: bool, target: nat, c: CS, x: nat)
    requires Base(c) && Base(c.(cur := x)) && IsOpen(c, b) && 0 < target < |c.blocks| && WfStmts(ss, c.pad.Some?)
    ensures GenBranch(ss, b, result, loops, target, c.(cur := x)) == GenBranch(ss, b, result, loops, target, c)
  {
    hide Base, Wf, Advances, Emit, EmitCall, GenStmts;
    assert At(c.(cur := x), b) == At(c, b);
  }

  lemma TermStaysOk(a: CS, b: nat, c: CS, t: Term)
    requires Base(a) && IsOpen(a, b) && Wf(c) && Advances(At(a, b), c) && TermOk(t, |a.blocks|)
    ensures TermOk(t, |c.blocks|) && a.cur < |c.blocks|
  {}

  lemma FirstRescue(rescues: seq<Rescue>, result: nat, exc: Operand, excType: Operand, c: CS)
    requires Wf(c) && c.pad.None? && rescues != [] && forall r :: r in rescues ==> r.body != []
    ensures var (c1, impl) := GenRescue(rescues[0], result, exc, excType, c);
      var (c2, impls) := GenRescues(rescues[1..], result, exc, excType, c1);
      GenRescues(rescues, result, exc, excType, c) == (c2, [impl] + impls)
  {
    hide Wf, AdvancesBut, GenRescue;
  }

  lemma NoRescue(result: nat, exc: Operand, excType: Operand, c: CS)
    requires Wf(c) && c.pad.None?
    ensures GenRescues([], result, exc, excType, c) == (c, [])
  {
    hide Wf, AdvancesBut;
  }

  lemma FirstTestOpen(tests: seq<TypeTest>, impl: nat, c: CS)
    requires Base(c) && 0 < impl < |c.blocks| && tests != [] && TestsOpen(tests, c)
    ensures IsOpen(c, tests[0].blk) && 0 < tests[0].notMatched < |c.blocks|
    ensures var d := PatchBlock(c, tests[0].blk, CondBr(tests[0].matched, impl, tests[0].notMatched));
      TestsOpen(tests[1..], d) && |d.blocks| == |c.blocks|
  {
    hide Base;
    assert forall k :: 0 <= k < |tests[1..]| ==> tests[1..][k] == tests[k + 1];
  }

  lemma FirstBlockOpen(bs: seq<nat>, out: nat, c: CS)
    requires Base(c) && 0 < out < |c.blocks| && bs != [] && AllOpen(bs, c)
    ensures IsOpen(c, bs[0])
    ensures var d := PatchBlock(c, bs[0], Br(out)); AllOpen(bs[1..], d) && |d.blocks| == |c.blocks|
  {
    hide Base;
    assert forall k :: 0 <= k < |bs[1..]| ==> bs[1..][k] == bs[k + 1];
  }

  /** Closing blocks starts by positioning the builder, wherever it was. */
  lemma CloseAllIgnoresCur(bs: seq<nat>, out: nat, c: CS, x: nat)
    requires Base(c) && 0 < out < |c.blocks| && bs != [] && AllOpen(bs, c) && 0 < x < |c.blocks|
    ensures Base(c.(cur := x)) && AllOpen(bs, c.(cur := x))
    ensures CloseAll(bs, out, c.(cur := x)) == CloseAll(bs, out, c)
  {
    FirstBlockOpen(bs, out, c);
  }

  lemma TestsAreOpen(cs: CS, c1: CS, tests: seq<TypeTest>)
    requires Wf(cs) && Wf(c1) && |c1.blocks| == |cs.blocks| + |tests| && TestsAt(tests, cs.cur, |cs.blocks|, c1)
    ensures Base(c1) && TestsOpen(tests, AppendBlock(c1)) && Base(AppendBlock(c1))
  {
    hide Base;
  }

  /** Restoring the builder after the handler changes nothing else. */
  lemma BeginMoves(a: CS, lp: nat, c5: CS, impls: seq<nat>, b: nat)
    requires Base(c5) && HandlerAt(a, lp, c5, impls) && 0 < b < |a.blocks|
    ensures Base(c5.(cur := b)) && AppendBlock(c5.(cur := b)) == AppendBlock(c5).(cur := b) && 0 < |c5.blocks|
  {}

  /** The top-level unit: its statements go into the body block, whose value is returned;
      the entry block, complete once everything is generated, jumps to the body. */
  method GenerateUnit(unit: seq<Stmt>) returns (f: seq<Block>)
    requires WfStmts(unit, false)
    ensures f == CompileUnit(unit)
  {
    hide GenStmts, Advances, Base;
    var ctx := new Context();
    StartIsWf();
    var last := ctx.GenerateStmts(unit);
    CurInRange(ctx.State());
    ctx.InsertTerm(Ret(last));
    f := ctx.blocks[0 := Block(ctx.blocks[0].instrs, Some(Br(1)))];
  }

  lemma StartIsWf()
    ensures Wf(START)
  {}
}
