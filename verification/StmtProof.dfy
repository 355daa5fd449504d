/** Running the code generated for statements does what evaluating them does. */
module StmtProof {
  import opened Options
  import opened PupAst
  import opened Ir
  import opened Runtime
  import opened Machine
  import opened AstEval
  import opened Codegen
  import opened ExprProof

  // ----- what the generator knows is what the text establishes

  function Known(cs: CS): Static {
    Static(cs.locals.Keys, cs.whiles)
  }

  lemma {:induction false} KnownExprs(es: seq<Expr>, cs: CS)
    requires Wf(cs) && es != []
    ensures Known(GenExprs(es, cs).0) == Static(NamesArgs(es, cs.locals.Keys), cs.whiles)
  {
    hide Wf, Advances, GenExpr, NamesExpr;
    NamesOfExpr(es[0], cs);
    var c1 := GenExpr(es[0], cs).0;
    if |es| > 1 {
      KnownExprs(es[1..], c1);
    } else {
      assert NamesArgs(es[1..], c1.locals.Keys) == c1.locals.Keys;
    }
  }

  lemma KnownCond(cond: Expr, b: nat, ifFalse: nat, ifTrue: nat, cs: CS)
    requires Base(cs) && IsOpen(cs, b) && 0 < ifFalse < |cs.blocks| && 0 < ifTrue < |cs.blocks|
    ensures Known(GenCond(cond, b, ifFalse, ifTrue, cs)) == Static(NamesExpr(cond, cs.locals.Keys), cs.whiles)
  {
    hide Wf, Base, Advances, Completes, Keeps, Emit, GenExpr, NamesExpr;
    StartAt(cs, b);
    NamesOfExpr(cond, At(cs, b));
  }

  lemma {:induction false} KnownBranch(ss: seq<Stmt>, b: nat, result: nat, loops: bool, target: nat, cs: CS)
    requires Base(cs) && IsOpen(cs, b) && 0 < target < |cs.blocks| && WfStmts(ss, cs.pad.Some?)
    ensures Known(GenBranch(ss, b, result, loops, target, cs)) == StaticStmts(ss, Known(cs))
    decreases ss, 1
  {
    hide Wf, Base, Advances, Completes, Keeps, Emit, GenStmts, StaticStmts;
    StartAt(cs, b);
    KnownStmts(ss, At(cs, b));
  }

  lemma {:induction false} KnownStmts(ss: seq<Stmt>, cs: CS)
    requires Wf(cs) && WfStmts(ss, cs.pad.Some?)
    ensures Known(GenStmts(ss, cs).0) == StaticStmts(ss, Known(cs))
    decreases ss, 0
  {
    hide Wf, Advances, GenStmt, StaticStmt;
    KnownStmt(ss[0], cs);
    var c1 := GenStmt(ss[0], cs).0;
    if |ss| > 1 {
      KnownStmts(ss[1..], c1);
    } else {
      assert StaticStmts(ss[1..], Known(c1)) == Known(c1);
    }
  }

  lemma {:induction false} KnownStmt(s: Stmt, cs: CS)
    requires Wf(cs) && WfStmt(s, cs.pad.Some?)
    ensures Known(GenStmt(s, cs).0) == StaticStmt(s, Known(cs))
    decreases s, 2
  {
    hide Wf, Advances, GenIf, GenWhile, GenBegin, GenExpr, NamesExpr, StaticStmts;
    match s
    case ExprStmt(e) => NamesOfExpr(e, cs);
    case If(_, _, _) => KnownIf(s, cs);
    case While(_, _) => KnownWhile(s, cs);
    case Begin(_, _) => KnownBegin(s, cs);
  }

  lemma {:induction false} KnownIf(s: Stmt, cs: CS)
    requires Wf(cs) && WfStmt(s, cs.pad.Some?) && s.If?
    ensures Known(GenIf(s, cs).0) == StaticStmt(s, Known(cs))
    decreases s, 1
  {
    hide Wf, Base, Advances, Grows, ArmsOpen, ArmsDone, AllocSlot, JumpToNew, GenArms, EmitLoad, NamesExpr, StaticStmts;
    var c1 := AllocSlot(cs, Slot(None, 1));
    ArmsStart(s, cs, c1);
    KnownArms(s, |c1.blocks|, |cs.slots|, JumpToNew(c1, 4));
  }

  lemma {:induction false} KnownArms(s: Stmt, b: nat, result: nat, cs: CS)
    requires ArmsOpen(s, b, cs)
    ensures Known(GenArms(s, b, result, cs)) == StaticStmt(s, Known(cs))
    decreases s, 0
  {
    hide Wf, Base, Completes, Keeps, IsOpen, GenCond, GenBranch, ArmsDone, NamesExpr, StaticStmts;
    var c1 := GenCond(s.cond, b, b + 2, b + 1, cs);
    StillOpen(cs, b, c1, b + 1); StillOpen(cs, b, c1, b + 2); StillOpen(cs, b, c1, b + 3);
    var c2 := GenBranch(s.thn, b + 1, result, false, b + 3, c1);
    StillOpen(c1, b + 1, c2, b + 2);
    KnownCond(s.cond, b, b + 2, b + 1, cs);
    KnownBranch(s.thn, b + 1, result, false, b + 3, c1);
    KnownBranch(s.els, b + 2, result, false, b + 3, c2);
  }

  lemma {:induction false} KnownWhile(s: Stmt, cs: CS)
    requires Wf(cs) && WfStmt(s, cs.pad.Some?) && s.While?
    ensures Known(GenWhile(s, cs).0) == StaticStmt(s, Known(cs))
    decreases s, 0
  {
    hide Wf, Base, Advances, Completes, Grows, AllocSlot, JumpToNew, GenCond, GenBranch, EmitLoad, NamesExpr, StaticStmts;
    NewWhileSlot(cs);
    var c1 := AllocSlot(cs, Slot(Some(WhileTmp(cs.whiles)), 1));
    var c2 := JumpToNew(c1, 3);
    var b := |c1.blocks|;
    assert c2.blocks[b] == c2.blocks[b + 1] == c2.blocks[b + 2] == Block([], None);
    var c3 := GenCond(s.wcond, b, b + 2, b + 1, c2);
    KnownCond(s.wcond, b, b + 2, b + 1, c2);
    KnownBranch(s.body, b + 1, |cs.slots|, true, b, c3);
  }

  lemma {:induction false} KnownBegin(s: Stmt, cs: CS)
    requires Wf(cs) && WfStmt(s, cs.pad.Some?) && s.Begin?
    ensures Known(GenBegin(s, cs).0) == StaticStmt(s, Known(cs))
    decreases s, 0
  {
    hide Wf, Base, Advances, Grows, AllocSlot, GenStmts, Emit, GenHandler, HandlerAt, AllOpen, CloseAll, EmitLoad, StaticStmts, NamesRescues;
    var c1 := AllocSlot(cs, Slot(None, 1));
    var c2 := EnterBegin(c1);
    var (c3, v) := GenStmts(s.bbody, c2);
    var c4 := Emit(c3, Store(v, |cs.slots|, 0));
    KnownStmts(s.bbody, c2);
    AdvancesTrans(c2, c3, c4);
    LeaveBegin(c1, c2, c4, cs.pad);
    KnownHandler(s.rescues, |cs.slots|, |c1.blocks|, c4.(pad := cs.pad));
  }

  lemma KnownHandler(rescues: seq<Rescue>, result: nat, lp: nat, cs: CS)
    requires Base(cs) && IsOpen(cs, lp) && cs.pad.None? && forall r :: r in rescues ==> r.body != []
    ensures Known(GenHandler(rescues, result, lp, cs).0) == Static(NamesRescues(rescues, cs.locals.Keys), cs.whiles)
  {
    hide Wf, Base, Advances, AdvancesBut, HandlerAt, Grows, Emit, GenLanding, GenRescues, NamesRescues;
    var c0 := At(cs, lp);
    var (c1, dw, exc, excType) := GenLanding(c0);
    KnownRescues(rescues, result, exc, excType, c1);
  }

  lemma {:induction false} KnownRescues(rescues: seq<Rescue>, result: nat, exc: Operand, excType: Operand, cs: CS)
    requires Wf(cs) && cs.pad.None? && forall r :: r in rescues ==> r.body != []
    ensures Known(GenRescues(rescues, result, exc, excType, cs).0) == Static(NamesRescues(rescues, cs.locals.Keys), cs.whiles)
  {
    hide Wf, AdvancesBut, GenRescue, NamesRescue;
    if rescues != [] {
      KnownRescue(rescues[0], result, exc, excType, cs);
      KnownRescues(rescues[1..], result, exc, excType, GenRescue(rescues[0], result, exc, excType, cs).0);
    }
  }

  lemma KnownRescue(r: Rescue, result: nat, exc: Operand, excType: Operand, cs: CS)
    requires Wf(cs) && cs.pad.None? && r.body != []
    ensures Known(GenRescue(r, result, exc, excType, cs).0) == Static(NamesRescue(r, cs.locals.Keys), cs.whiles)
  {
    hide Wf, Base, Advances, AdvancesBut, Emit, GenTypes, StartImpl, GenExprs, TestsAt, Grows;
    var (c1, tests) := GenTypes(RescueTypes(r), excType, cs);
    var c3 := StartImpl(cs, c1, tests);
    var c4 := BindException(r.varName, exc, c3);
    KnownExprs(r.body, c4);
  }

  // ----- blocks

  predicate AtStart(b: nat, m: Config) {
    m.Run? && m.blk == b && m.pc == 0
  }

  lemma LinkedGrows(p: Program, a: CS, b: CS)
    requires Linked(p, b) && Grows(a, b)
    ensures Linked(p, a)
  {
    hide ProgramOk;
    LinkedEarlier(p, a, b);
  }

  lemma RunTerm(p: Program, c: CS, b: nat, m: Config)
    requires Linked(p, c) && b < |c.blocks| && c.blocks[b].term.Some? && m.Run? && m.blk == b && m.pc == |c.blocks[b].instrs|
    ensures Step(p.w, p.f, m) == Jump(p.w, c.blocks[b].term.value, m)
    ensures Steps(p.w, p.f, m, 1) == Jump(p.w, c.blocks[b].term.value, m)
  {
    assert SubBlock(c.blocks[b], p.f[b]);
    assert Steps(p.w, p.f, m, 1) == Steps(p.w, p.f, Step(p.w, p.f, m), 0);
  }

  /** The end of a block generated from block b of cs on. */
  lemma RunEndBlock(p: Program, cs: CS, b: nat, c: CS, t: Term, m: Config)
    requires Base(cs) && IsOpen(cs, b) && Wf(c) && Advances(At(cs, b), c) && TermOk(t, |cs.blocks|)
    requires Linked(p, EndBlock(cs, b, c, t))
    ensures Linked(p, c)
    ensures AtEnd(c, m) ==> Steps(p.w, p.f, m, 1) == Jump(p.w, t, m)
  {
    hide Base, ProgramOk, Advances;
    var r := EndBlock(cs, b, c, t);
    LinkedGrows(p, c, r);
    if AtEnd(c, m) {
      RunTerm(p, r, c.cur, m);
    }
  }

  // ----- conditions and branches

  /** Where a condition leads. */
  ghost predicate Branched(p: Program, pad: Option<nat>, r: Result, ifFalse: nat, ifTrue: nat, m: Config) {
    match r
    case Ok(v, st) => Match(p, st, m) && AtStart(if v == p.w.falseObj then ifFalse else ifTrue, m)
    case Raise(exc, st) => Caught(p, pad, exc, st, m)
    case Escape(exc, st) => Thrown(p, exc, st, m)
    case Timeout => false
  }

  lemma SimCond(p: Program, cond: Expr, b: nat, ifFalse: nat, ifTrue: nat, cs: CS, m: Config, st: State) returns (n: nat, m': Config)
    requires Base(cs) && IsOpen(cs, b) && cs.blocks[b].instrs == [] && 0 < ifFalse < |cs.blocks| && 0 < ifTrue < |cs.blocks|
    requires Linked(p, GenCond(cond, b, ifFalse, ifTrue, cs)) && AtStart(b, m) && Match(p, st, m)
    ensures m' == Steps(p.w, p.f, m, n)
    ensures Branched(p, cs.pad, EvalExpr(p.w, cond, cs.locals.Keys, st), ifFalse, ifTrue, m')
  {
    hide Wf, Base, Linked, Advances, MemMatch, Grows, Steps, Emit, EmitPure, GenExpr, EvalExpr, EndBlock, Keeps, Completes;
    var c0 := At(cs, b);
    StartAt(cs, b);
    var (c1, v) := GenExpr(cond, c0);
    var (c2, f) := EmitPure(c1, OpBool(false));
    AdvancesTrans(c0, c1, c2);
    var (c3, cmp) := EmitPure(c2, OpEq(v, f));
    AdvancesTrans(c0, c2, c3);
    var r := EvalExpr(p.w, cond, cs.locals.Keys, st);
    RunEndBlock(p, cs, b, c3, CondBr(cmp, ifFalse, ifTrue), m);
    LinkedBefore(p, c2, c3);
    LinkedBefore(p, c1, c2);
    n, m' := SimExpr(p, cond, c0, m, st);
    if r.Ok? {
      var n1, m1 := n, m';
      var m2 := SimPure(p, c1, OpBool(false), p.w.falseObj, m1, r.st);
      ValueKept(p.w, v, c1, m1, m2);
      var m3 := SimPure(p, c2, OpEq(v, f), Bit(r.val == p.w.falseObj), m2, r.st);
      RunEndBlock(p, cs, b, c3, CondBr(cmp, ifFalse, ifTrue), m3);
      m' := Jump(p.w, CondBr(cmp, ifFalse, ifTrue), m3);
      StepsAdd(p.w, p.f, m, n1, 1);
      StepsAdd(p.w, p.f, m, n1 + 1, 1);
      StepsAdd(p.w, p.f, m, n1 + 2, 1);
      n := n1 + 3;
    }
  }

  /** What a branch does after its statements: the value of an if goes to a temporary, that
      of a while body to its variable, followed by a safepoint. */
  function AfterBranch(w: World, r: Result, loopTag: Option<Tag>): Result {
    if r.Ok? && loopTag.Some? then Ask(w, SafepointE, Assign(r.st, loopTag.value, r.val)) else r
  }

  ghost predicate BranchEnds(p: Program, pad: Option<nat>, r: Result, loopTag: Option<Tag>, result: nat, target: nat, m: Config) {
    match AfterBranch(p.w, r, loopTag)
    case Ok(_, st) =>
      && Match(p, st, m) && AtStart(target, m)
      && (loopTag.None? ==> (result, 0) in m.mem && m.mem[(result, 0)] == r.val)
    case Raise(exc, st) => Caught(p, pad, exc, st, m)
    case Escape(exc, st) => Thrown(p, exc, st, m)
    case Timeout => m.Run?
  }

  /** Store a value in the slot that receives the value of an if or of a while body. */
  lemma SimStoreResult(p: Program, cs: CS, op: Operand, v: Val, slot: nat, tag: Option<Tag>, m: Config, st: State) returns (m': Config)
    requires Wf(cs) && Linked(p, Emit(cs, Store(op, slot, 0))) && AtEnd(cs, m) && Match(p, st, m)
    requires slot < |p.slots| && p.slots[slot] == Slot(tag, 1) && Value(p.w, op, m.regs) == Some(v)
    ensures m' == Steps(p.w, p.f, m, 1) && AtEnd(Emit(cs, Store(op, slot, 0)), m')
    ensures Match(p, if tag.Some? then Assign(st, tag.value, v) else st, m')
    ensures (slot, 0) in m'.mem && m'.mem[(slot, 0)] == v
  {
    hide Wf, Emit, Linked, Steps;
    if tag.Some? {
      m' := SimStoreVar(p, cs, op, v, slot, tag.value, m, st);
    } else {
      m' := SimStoreTemp(p, cs, op, v, slot, 0, m, st);
    }
    assert (slot, 0) in m'.mem;
  }

  lemma {:induction false} SimBranch(p: Program, ss: seq<Stmt>, b: nat, result: nat, loopTag: Option<Tag>, target: nat, cs: CS,
                                     m: Config, st: State, fuel: nat) returns (n: nat, m': Config)
    requires Base(cs) && IsOpen(cs, b) && cs.blocks[b].instrs == [] && 0 < target < |cs.blocks| && WfStmts(ss, cs.pad.Some?)
    requires Linked(p, GenBranch(ss, b, result, loopTag.Some?, target, cs)) && AtStart(b, m) && Match(p, st, m)
    requires result < |p.slots| && p.slots[result] == Slot(loopTag, 1)
    ensures m' == Steps(p.w, p.f, m, n) && (EvalStmts(p.w, ss, Known(cs), st, fuel).Timeout? ==> n >= fuel)
    ensures BranchEnds(p, cs.pad, EvalStmts(p.w, ss, Known(cs), st, fuel), loopTag, result, target, m')
    decreases fuel, ss, 3
  {
    hide Wf, Base, Linked, Advances, MemMatch, Grows, Steps, Emit, EmitCall, GenStmts, EvalStmts, EndBlock, Keeps, Completes;
    var c0 := At(cs, b);
    StartAt(cs, b);
    var (c1, v) := GenStmts(ss, c0);
    var c2 := Emit(c1, Store(v, result, 0));
    AdvancesTrans(c0, c1, c2);
    AdvancesRefl(c2);
    var c3 := if loopTag.Some? then EmitCall(c2, OpSafepoint).0 else c2;
    AdvancesTrans(c0, c2, c3);
    RunEndBlock(p, cs, b, c3, Br(target), m);
    LinkedBefore(p, c2, c3);
    LinkedBefore(p, c1, c2);
    n, m' := SimStmts(p, ss, c0, m, st, fuel);
    var r := EvalStmts(p.w, ss, Known(cs), st, fuel);
    if r.Ok? {
      var n1, m1 := n, m';
      var m2 := SimStoreResult(p, c1, v, r.val, result, loopTag, m1, r.st);
      StepsAdd(p.w, p.f, m, n1, 1);
      n, m' := n1 + 1, m2;
      if loopTag.Some? {
        var m3 := SimCall(p, c2, OpSafepoint, SafepointE, m2, Assign(r.st, loopTag.value, r.val));
        StepsAdd(p.w, p.f, m, n1 + 1, 1);
        n, m' := n1 + 2, m3;
      }
      if AfterBranch(p.w, r, loopTag).Ok? {
        RunEndBlock(p, cs, b, c3, Br(target), m');
        StepsAdd(p.w, p.f, m, n, 1);
        n, m' := n + 1, Jump(p.w, Br(target), m');
      }
    }
  }

  // ----- statements

  lemma {:induction false} SimStmts(p: Program, ss: seq<Stmt>, cs: CS, m: Config, st: State, fuel: nat) returns (n: nat, m': Config)
    requires Wf(cs) && WfStmts(ss, cs.pad.Some?) && Linked(p, GenStmts(ss, cs).0) && AtEnd(cs, m) && Match(p, st, m)
    ensures m' == Steps(p.w, p.f, m, n)
    ensures var r := EvalStmts(p.w, ss, Known(cs), st, fuel);
      Agrees(p, GenStmts(ss, cs).0, GenStmts(ss, cs).1, r, m') && (r.Timeout? ==> n >= fuel)
    decreases fuel, ss, 2
  {
    hide Wf, Linked, Advances, MemMatch, Grows, Steps, GenStmt, EvalStmt;
    var (c1, v) := GenStmt(ss[0], cs);
    if |ss| > 1 {
      LinkedBefore(p, c1, GenStmts(ss[1..], c1).0);
    }
    n, m' := SimStmt(p, ss[0], cs, m, st, fuel);
    var r := EvalStmt(p.w, ss[0], Known(cs), st, fuel);
    if r.Ok? && |ss| > 1 {
      KnownStmt(ss[0], cs);
      var n1, m1 := n, m';
      var n2;
      n2, m' := SimStmts(p, ss[1..], c1, m1, r.st, fuel);
      StepsAdd(p.w, p.f, m, n1, n2);
      n := n1 + n2;
    }
  }

  lemma {:induction false} SimStmt(p: Program, s: Stmt, cs: CS, m: Config, st: State, fuel: nat) returns (n: nat, m': Config)
    requires Wf(cs) && WfStmt(s, cs.pad.Some?) && Linked(p, GenStmt(s, cs).0) && AtEnd(cs, m) && Match(p, st, m)
    ensures m' == Steps(p.w, p.f, m, n)
    ensures var r := EvalStmt(p.w, s, Known(cs), st, fuel);
      Agrees(p, GenStmt(s, cs).0, GenStmt(s, cs).1, r, m') && (r.Timeout? ==> n >= fuel)
    decreases fuel, s, 2
  {
    hide Wf, Linked, Advances, MemMatch, Grows, Steps, GenIf, GenWhile, GenBegin, GenExpr, EvalExpr, Agrees;
    match s
    case ExprStmt(e) => n, m' := SimExpr(p, e, cs, m, st);
    case If(_, _, _) => n, m' := SimIf(p, s, cs, m, st, fuel);
    case While(_, _) => n, m' := SimWhile(p, s, cs, m, st, fuel);
    case Begin(_, _) => n, m' := SimBegin(p, s, cs, m, st, fuel);
  }

  /** Load the value of a finished statement from its slot. */
  lemma SimResult(p: Program, cs: CS, slot: nat, v: Val, m: Config, st: State) returns (m': Config)
    requires Wf(cs) && Linked(p, EmitLoad(cs, slot).0) && AtEnd(cs, m) && Match(p, st, m)
    requires slot < |p.slots| && p.slots[slot].cells == 1 && (slot, 0) in m.mem && m.mem[(slot, 0)] == v
    ensures m' == Steps(p.w, p.f, m, 1)
    ensures Agrees(p, EmitLoad(cs, slot).0, EmitLoad(cs, slot).1, Ok(v, st), m')
  {
    hide Wf, Emit, Steps, Linked, MemMatch;
    m' := SimLoadAny(p, cs, slot, m, st);
  }

  /** Jump from the end of c1 to the first of n new blocks. */
  lemma SimJumpToNew(p: Program, c1: CS, k: nat, c2: CS, m: Config)
    requires Wf(c1) && 0 < k && c2 == JumpToNew(c1, k) && Linked(p, c2) && AtEnd(c1, m)
    ensures Steps(p.w, p.f, m, 1) == m.(blk := |c1.blocks|, pc := 0)
  {
    hide Steps, Linked;
    RunTerm(p, c2, c1.cur, m);
  }

  lemma CompletesGrows(a: CS, w: nat, b: CS)
    requires Completes(a, w, b)
    ensures Grows(a, b)
  {}

  lemma {:induction false} SimIf(p: Program, s: Stmt, cs: CS, m: Config, st: State, fuel: nat) returns (n: nat, m': Config)
    requires Wf(cs) && WfStmt(s, cs.pad.Some?) && s.If? && Linked(p, GenIf(s, cs).0) && AtEnd(cs, m) && Match(p, st, m)
    ensures m' == Steps(p.w, p.f, m, n)
    ensures var r := EvalStmt(p.w, s, Known(cs), st, fuel);
      Agrees(p, GenIf(s, cs).0, GenIf(s, cs).1, r, m') && (r.Timeout? ==> n >= fuel)
    decreases fuel, s, 1
  {
    hide Wf, Base, Linked, Advances, MemMatch, Grows, Steps, ArmsOpen, ArmsDone, AllocSlot, JumpToNew, GenArms, EmitLoad, EvalStmt;
    var slot := |cs.slots|;
    var c1 := AllocSlot(cs, Slot(None, 1));
    var c2 := JumpToNew(c1, 4);
    var b := |c1.blocks|;
    assert c2.blocks[b] == c2.blocks[b + 1] == c2.blocks[b + 2] == c2.blocks[b + 3] == Block([], None);
    ArmsStart(s, cs, c1);
    var c3 := GenArms(s, b, slot, c2);
    IfAdvances(cs, c1, c2, c3);
    ArmsKeep(b, c2, c3);
    AtLinks(p, c3, b + 3, slot);
    LinkedGrows(p, c2, c3);
    LinkedSlot(p, c1, c2, slot, Slot(None, 1));
    SimJumpToNew(p, c1, 4, c2, m);
    var n1, m1 := SimArms(p, s, b, slot, c2, m.(blk := b, pc := 0), st, fuel);
    StepsAdd(p.w, p.f, m, 1, n1);
    n, m' := 1 + n1, m1;
    var q := EvalStmt(p.w, s, Known(cs), st, fuel);
    if q.Ok? {
      m' := SimResult(p, At(c3, b + 3), slot, q.val, m1, q.st);
      StepsAdd(p.w, p.f, m, 1 + n1, 1);
      n := 1 + n1 + 1;
    }
  }

  lemma ArmsKeep(b: nat, c: CS, d: CS)
    requires ArmsDone(b, c, d) && Base(c) && 0 < b && b + 3 < |c.blocks|
    ensures Grows(c, d) && IsOpen(d, b + 3) && d.blocks[b + 3] == c.blocks[b + 3]
  {}

  lemma {:induction false} SimArms(p: Program, s: Stmt, b: nat, slot: nat, cs: CS, m: Config, st: State, fuel: nat)
    returns (n: nat, m': Config)
    requires ArmsOpen(s, b, cs) && cs.blocks[b].instrs == cs.blocks[b + 1].instrs == cs.blocks[b + 2].instrs == []
    requires Linked(p, GenArms(s, b, slot, cs)) && AtStart(b, m) && Match(p, st, m)
    requires slot < |p.slots| && p.slots[slot] == Slot(None, 1)
    ensures m' == Steps(p.w, p.f, m, n)
    ensures var r := EvalStmt(p.w, s, Known(cs), st, fuel);
      BranchEnds(p, cs.pad, r, None, slot, b + 3, m') && (r.Timeout? ==> n >= fuel)
    decreases fuel, s, 0
  {
    hide Wf, Base, Linked, MemMatch, Completes, Grows, Steps, GenCond, GenBranch, EvalExpr, EvalStmts, NamesExpr, StaticStmts, ArmsDone;
    var c1 := GenCond(s.cond, b, b + 2, b + 1, cs);
    StillOpen(cs, b, c1, b + 1); StillOpen(cs, b, c1, b + 2); StillOpen(cs, b, c1, b + 3);
    var c2 := GenBranch(s.thn, b + 1, slot, false, b + 3, c1);
    StillOpen(c1, b + 1, c2, b + 2); StillOpen(c1, b + 1, c2, b + 3);
    var c3 := GenBranch(s.els, b + 2, slot, false, b + 3, c2);
    CompletesGrows(c2, b + 2, c3); LinkedGrows(p, c2, c3);
    CompletesGrows(c1, b + 1, c2); LinkedGrows(p, c1, c2);
    KnownCond(s.cond, b, b + 2, b + 1, cs);
    KnownBranch(s.thn, b + 1, slot, false, b + 3, c1);
    var r := EvalExpr(p.w, s.cond, cs.locals.Keys, st);
    var n1, m1 := SimCond(p, s.cond, b, b + 2, b + 1, cs, m, st);
    n, m' := n1, m1;
    if r.Ok? {
      var n2, m2;
      if r.val != p.w.falseObj {
        n2, m2 := SimBranch(p, s.thn, b + 1, slot, None, b + 3, c1, m1, r.st, fuel);
      } else {
        n2, m2 := SimBranch(p, s.els, b + 2, slot, None, b + 3, c2, m1, r.st, fuel);
      }
      StepsAdd(p.w, p.f, m, n1, n2);
      n, m' := n1 + n2, m2;
    }
  }

  lemma AtLinks(p: Program, c: CS, b: nat, slot: nat)
    requires Base(c) && IsOpen(c, b) && Linked(p, EmitLoad(At(c, b), slot).0)
    ensures Linked(p, At(c, b)) && Linked(p, c)
  {
    hide Base, ProgramOk;
    LinkedBefore(p, At(c, b), EmitLoad(At(c, b), slot).0) by { hide Linked; }
  }

  lemma LinkedSlot(p: Program, c1: CS, c2: CS, slot: nat, info: Slot)
    requires Linked(p, c2) && Grows(c1, c2) && slot < |c1.slots| && c1.slots[slot] == info
    ensures slot < |p.slots| && p.slots[slot] == info && Linked(p, c1)
  {
    hide ProgramOk;
    LinkedGrows(p, c1, c2);
  }

  /** The states of the generator around a while statement. */
  ghost predicate WhileCode(p: Program, s: Stmt, cs: CS, b: nat, c2: CS, c3: CS, c4: CS) {
    && s.While? && WfStmts(s.body, cs.pad.Some?) && Known(c2) == Static(cs.locals.Keys, cs.whiles + 1)
    && c2.pad == cs.pad && c3.pad == cs.pad
    && Base(c2) && IsOpen(c2, b) && c2.blocks[b].instrs == [] && 0 < b && b + 2 < |c2.blocks|
    && c3 == GenCond(s.wcond, b, b + 2, b + 1, c2) && Linked(p, c3)
    && Base(c3) && IsOpen(c3, b + 1) && c3.blocks[b + 1].instrs == [] && b + 2 < |c3.blocks|
    && c4 == GenBranch(s.body, b + 1, |cs.slots|, true, b, c3) && Linked(p, c4)
    && |cs.slots| < |p.slots| && p.slots[|cs.slots|] == Slot(Some(WhileTmp(cs.whiles)), 1)
  }

  ghost predicate LoopEnds(p: Program, pad: Option<nat>, r: Result, out: nat, tag: Tag, m: Config) {
    match r
    case Ok(v, st) => Match(p, st, m) && AtStart(out, m) && v == Lookup(st, tag)
    case Raise(exc, st) => Caught(p, pad, exc, st, m)
    case Escape(exc, st) => Thrown(p, exc, st, m)
    case Timeout => m.Run?
  }

  /** Each round trip through the loop's blocks is one iteration of the evaluator's loop. */
  lemma {:induction false} SimLoop(p: Program, s: Stmt, cs: CS, b: nat, c2: CS, c3: CS, c4: CS, m: Config, st: State, fuel: nat)
    returns (n: nat, m': Config)
    requires WhileCode(p, s, cs, b, c2, c3, c4) && AtStart(b, m) && Match(p, st, m)
    ensures m' == Steps(p.w, p.f, m, n) && (EvalWhile(p.w, s, Known(cs), st, fuel).Timeout? ==> n >= fuel)
    ensures LoopEnds(p, cs.pad, EvalWhile(p.w, s, Known(cs), st, fuel), b + 2, WhileTmp(cs.whiles), m')
    decreases fuel, s, 0
  {
    hide Wf, Base, Linked, MemMatch, Completes, Grows, Steps, GenCond, GenBranch, EvalExpr, EvalStmts, NamesExpr, StaticStmts;
    if fuel == 0 {
      n, m' := 0, m;
      StepsZero(p.w, p.f, m);
    } else {
      KnownCond(s.wcond, b, b + 2, b + 1, c2);
      var r := EvalExpr(p.w, s.wcond, cs.locals.Keys, st);
      var n1, m1 := SimCond(p, s.wcond, b, b + 2, b + 1, c2, m, st);
      n, m' := n1, m1;
      if r.Ok? && r.val != p.w.falseObj {
        var tag := WhileTmp(cs.whiles);
        var n2, m2 := SimBranch(p, s.body, b + 1, |cs.slots|, Some(tag), b, c3, m1, r.st, fuel - 1);
        StepsAdd(p.w, p.f, m, n1, n2);
        n, m' := n1 + n2, m2;
        var q := AfterBranch(p.w, EvalStmts(p.w, s.body, Known(c3), r.st, fuel - 1), Some(tag));
        if n1 == 0 {
          StepsZero(p.w, p.f, m);
        }
        if q.Ok? {
          var n3;
          n3, m' := SimLoop(p, s, cs, b, c2, c3, c4, m2, q.st, fuel - 1);
          StepsAdd(p.w, p.f, m, n1 + n2, n3);
          n := n1 + n2 + n3;
        }
      }
    }
  }

  lemma {:induction false} SimWhile(p: Program, s: Stmt, cs: CS, m: Config, st: State, fuel: nat) returns (n: nat, m': Config)
    requires Wf(cs) && WfStmt(s, cs.pad.Some?) && s.While? && Linked(p, GenWhile(s, cs).0) && AtEnd(cs, m) && Match(p, st, m)
    ensures m' == Steps(p.w, p.f, m, n)
    ensures var r := EvalStmt(p.w, s, Known(cs), st, fuel);
      Agrees(p, GenWhile(s, cs).0, GenWhile(s, cs).1, r, m') && (r.Timeout? ==> n >= fuel)
    decreases fuel, s, 1
  {
    hide Wf, Base, Linked, Advances, MemMatch, Completes, Grows, Steps, AllocSlot, JumpToNew, GenCond, GenBranch, EmitLoad, EvalWhile;
    var slot := |cs.slots|;
    var tag := WhileTmp(cs.whiles);
    NewWhileSlot(cs);
    var c1 := AllocSlot(cs, Slot(Some(tag), 1));
    var c2 := JumpToNew(c1, 3);
    var b := |c1.blocks|;
    assert c2.blocks[b] == c2.blocks[b + 1] == c2.blocks[b + 2] == Block([], None);
    var c3 := GenCond(s.wcond, b, b + 2, b + 1, c2);
    var c4 := GenBranch(s.body, b + 1, slot, true, b, c3);
    WhileAdvances(cs, c1, c2, c3, c4);
    var c6 := At(c4, b + 2);
    AtLinks(p, c4, b + 2, slot);
    CompletesGrows(c3, b + 1, c4); LinkedGrows(p, c3, c4);
    CompletesGrows(c2, b, c3); LinkedGrows(p, c2, c3);
    LinkedSlot(p, c1, c2, slot, Slot(Some(tag), 1));
    SimJumpToNew(p, c1, 3, c2, m);
    var n1, m1 := SimLoop(p, s, cs, b, c2, c3, c4, m.(blk := b, pc := 0), st, fuel);
    StepsAdd(p.w, p.f, m, 1, n1);
    n, m' := 1 + n1, m1;
    var q := EvalWhile(p.w, s, Known(cs), st, fuel);
    if q.Ok? {
      SlotHolds(p, slot, tag, q.st, m1);
      m' := SimResult(p, c6, slot, q.val, m1, q.st);
      StepsAdd(p.w, p.f, m, 1 + n1, 1);
      n := 1 + n1 + 1;
    }
  }

  lemma SlotHolds(p: Program, slot: nat, tag: Tag, st: State, m: Config)
    requires slot < |p.slots| && p.slots[slot] == Slot(Some(tag), 1) && Match(p, st, m)
    ensures (slot, 0) in m.mem && m.mem[(slot, 0)] == Lookup(st, tag)
  {}

  // ----- begin and rescue

  lemma {:induction false} SimExprs(p: Program, es: seq<Expr>, cs: CS, m: Config, st: State) returns (n: nat, m': Config)
    requires Wf(cs) && es != [] && Linked(p, GenExprs(es, cs).0) && AtEnd(cs, m) && Match(p, st, m)
    ensures m' == Steps(p.w, p.f, m, n)
    ensures var r := EvalExprs(p.w, es, cs.locals.Keys, st);
      Agrees(p, GenExprs(es, cs).0, GenExprs(es, cs).1, r, m') && !r.Timeout?
    decreases es
  {
    hide Wf, Linked, Advances, MemMatch, Grows, Steps, GenExpr, EvalExpr, NamesExpr;
    var (c1, v) := GenExpr(es[0], cs);
    if |es| > 1 {
      LinkedBefore(p, c1, GenExprs(es[1..], c1).0);
    }
    n, m' := SimExpr(p, es[0], cs, m, st);
    var r := EvalExpr(p.w, es[0], cs.locals.Keys, st);
    if r.Ok? && |es| > 1 {
      NamesOfExpr(es[0], cs);
      var n1, m1 := n, m';
      var n2;
      n2, m' := SimExprs(p, es[1..], c1, m1, r.st);
      StepsAdd(p.w, p.f, m, n1, n2);
      n := n1 + n2;
    }
  }

  /** Where the type tests of a clause lead: to its body, or past the last test. */
  ghost predicate Tested(p: Program, r: TestResult, impl: nat, cs: CS, m: Config) {
    match r
    case Matched(st) => Match(p, st, m) && AtStart(impl, m)
    case Unmatched(st) => Match(p, st, m) && AtEnd(cs, m)
    case TestFailed(exc, st) => Thrown(p, exc, st, m)
  }

  /** In the finished program every test block ends with its conditional branch. */
  ghost predicate TestsLinked(p: Program, tests: seq<TypeTest>, impl: nat, cs: CS) {
    forall k :: 0 <= k < |tests| ==>
      && tests[k].blk < |p.f| && tests[k].blk < |cs.blocks|
      && p.f[tests[k].blk] == Block(cs.blocks[tests[k].blk].instrs, Some(CondBr(tests[k].matched, impl, tests[k].notMatched)))
  }

  /** One test: a class is looked up and the branch behind the comparison taken. */
  lemma SimTest(p: Program, x: string, exc: Val, excType: Operand, impl: nat, cs: CS, m: Config, st: State) returns (n: nat, m': Config)
    requires Wf(cs) && AtEnd(cs, m) && Match(p, st, m)
    requires OperandOk(excType, cs) && Value(p.w, excType, m.regs) == Some(p.w.classOf(exc))
    requires var (c1, expected) := GenConst(x, cs);
      var (c2, matched) := EmitPure(c1, OpDescendant(expected, excType));
      && Linked(p, c2) && c2.cur < |p.f| && c2.cur < |c2.blocks|
      && p.f[c2.cur] == Block(c2.blocks[c2.cur].instrs, Some(CondBr(matched, impl, |c2.blocks|)))
    ensures m' == Steps(p.w, p.f, m, n)
    ensures var r := GetConst(p.w, x, st);
      if !r.Ok? then Thrown(p, r.exc, r.st, m')
      else
        && Match(p, r.st, m') && KeepsRegs(m, m', cs.nreg)
        && AtStart(if IsDescendant(p.w, r.val, p.w.classOf(exc)) then impl else |cs.blocks|, m')
  {
    hide Wf, Base, Linked, MemMatch, Advances, Grows, Steps, Emit, EmitPure, GenConst, Keeps;
    var (c1, expected) := GenConst(x, cs);
    var (c2, matched) := EmitPure(c1, OpDescendant(expected, excType));
    LinkedBefore(p, c1, c2);
    var r := GetConst(p.w, x, st);
    n, m' := SimConst(p, x, cs, m, st);
    if r.Ok? {
      ValueKept(p.w, excType, cs, m, m');
      var hit := IsDescendant(p.w, r.val, p.w.classOf(exc));
      var m2 := SimPure(p, c1, OpDescendant(expected, excType), Bit(hit), m', r.st);
      StepsAdd(p.w, p.f, m, n, 1);
      TakeTest(p, TypeTest(c2.cur, matched, |c2.blocks|), impl, c2, m2, hit);
      StepsAdd(p.w, p.f, m, n + 1, 1);
      n, m' := n + 2, m2.(blk := if hit then impl else |c2.blocks|, pc := 0);
    }
  }

  lemma {:induction false} SimTypes(p: Program, types: seq<string>, exc: Val, excType: Operand, impl: nat, cs: CS, m: Config, st: State)
    returns (n: nat, m': Config)
    requires Wf(cs) && Linked(p, GenTypes(types, excType, cs).0) && AtEnd(cs, m) && Match(p, st, m)
    requires TestsLinked(p, GenTypes(types, excType, cs).1, impl, GenTypes(types, excType, cs).0)
    requires OperandOk(excType, cs) && Value(p.w, excType, m.regs) == Some(p.w.classOf(exc))
    ensures m' == Steps(p.w, p.f, m, n)
    ensures Tested(p, TestTypes(p.w, types, exc, st), impl, GenTypes(types, excType, cs).0, m')
    ensures !TestTypes(p.w, types, exc, st).TestFailed? ==> KeepsRegs(m, m', cs.nreg)
    decreases types
  {
    hide Wf, Base, Linked, MemMatch, Advances, Grows, Steps, Emit, EmitPure, GenConst, AppendBlock, Keeps, TestsAt;
    if types == [] {
      n, m' := 0, m;
      StepsZero(p.w, p.f, m);
    } else {
      var (c1, expected) := GenConst(types[0], cs);
      var (c2, matched) := EmitPure(c1, OpDescendant(expected, excType));
      AdvancesTrans(cs, c1, c2);
      var c3 := NextTest(c2);
      var (c4, tests) := GenTypes(types[1..], excType, c3);
      TestLinks(p, cs, c2, c3, c4, TypeTest(c2.cur, matched, |c2.blocks|), tests, impl);
      var r := GetConst(p.w, types[0], st);
      n, m' := SimTest(p, types[0], exc, excType, impl, cs, m, st);
      if r.Ok? && !IsDescendant(p.w, r.val, p.w.classOf(exc)) {
        ValueKept(p.w, excType, cs, m, m');
        var n1, m1 := n, m';
        var n2;
        n2, m' := SimTypes(p, types[1..], exc, excType, impl, c3, m1, r.st);
        StepsAdd(p.w, p.f, m, n1, n2);
        n := n1 + n2;
      }
    }
  }

  lemma TestLinks(p: Program, cs: CS, c2: CS, c3: CS, c4: CS, t: TypeTest, tests: seq<TypeTest>, impl: nat)
    requires Wf(cs) && Wf(c2) && Advances(cs, c2) && c2.cur == cs.cur && |c2.blocks| == |cs.blocks| && c3 == NextTest(c2)
    requires Grows(c3, c4) && Keeps(c3, c3.cur, c4) && Linked(p, c4) && t.blk == c2.cur
    requires TestsLinked(p, [t] + tests, impl, c4)
    ensures TestsLinked(p, tests, impl, c4) && Linked(p, c2) && AtEnd(c3, Run(|c2.blocks|, 0, map[], map[], [], Undef))
    ensures c2.cur < |p.f| && p.f[c2.cur] == Block(c2.blocks[c2.cur].instrs, Some(CondBr(t.matched, impl, t.notMatched)))
  {
    hide Base, ProgramOk;
    GenTypesGrows(cs, c2, c3, c4);
    LinkedGrows(p, c3, c4);
    LinkedGrows(p, c2, c3);
    assert ([t] + tests)[0] == t;
    forall k | 0 <= k < |tests| ensures ([t] + tests)[k + 1] == tests[k] {}
  }

  lemma TakeTest(p: Program, t: TypeTest, impl: nat, c: CS, m: Config, hit: bool)
    requires AtEnd(c, m) && c.cur < |p.f| && p.f[c.cur] == Block(c.blocks[c.cur].instrs, Some(CondBr(t.matched, impl, t.notMatched)))
    requires Value(p.w, t.matched, m.regs) == Some(Bit(hit))
    ensures Steps(p.w, p.f, m, 1) == m.(blk := if hit then impl else t.notMatched, pc := 0)
  {
    assert Steps(p.w, p.f, m, 1) == Steps(p.w, p.f, Step(p.w, p.f, m), 0);
  }

  /** How a clause ends: its value is in the begin statement's slot and control is at out. */
  ghost predicate Rescued(p: Program, r: Result, result: nat, out: nat, m: Config) {
    match r
    case Ok(v, st) => Match(p, st, m) && AtStart(out, m) && (result, 0) in m.mem && m.mem[(result, 0)] == v
    case Raise(exc, st) => Thrown(p, exc, st, m)
    case Escape(exc, st) => Thrown(p, exc, st, m)
    case Timeout => false
  }

  lemma SimBind(p: Program, x: Option<string>, excOp: Operand, exc: Val, cs: CS, m: Config, st: State) returns (n: nat, m': Config)
    requires Wf(cs) && Linked(p, BindException(x, excOp, cs)) && AtEnd(cs, m) && Match(p, st, m)
    requires Value(p.w, excOp, m.regs) == Some(exc)
    ensures m' == Steps(p.w, p.f, m, n) && AtEnd(BindException(x, excOp, cs), m')
    ensures Match(p, if x.Some? then Assign(st, Local(x.value), exc) else st, m')
    ensures BindException(x, excOp, cs).locals.Keys == if x.Some? then cs.locals.Keys + {x.value} else cs.locals.Keys
  {
    hide Wf, Linked, MemMatch, Advances, Grows, Steps, Emit, GetOrCreateLocal;
    if x.None? {
      n, m' := 0, m;
      StepsZero(p.w, p.f, m);
    } else {
      var c1 := GetOrCreateLocal(cs, x.value);
      var c2 := BindException(x, excOp, cs);
      LinkedBefore(p, c1, c2);
      AdvancesGrows(c1, c2);
      LocalSlot(p, x.value, c1, c2);
      n := 1;
      m' := SimStoreVar(p, c1, excOp, exc, c1.locals[x.value], Local(x.value), m, st);
    }
  }

  /** The body of a matching clause, from the start of its block to the jump out. */
  lemma SimClause(p: Program, r: Rescue, result: nat, excOp: Operand, exc: Val, c3: CS, out: nat, m: Config, st: State)
    returns (n: nat, m': Config)
    requires Wf(c3) && c3.pad.None? && r.body != [] && c3.blocks[c3.cur].instrs == []
    requires result < |p.slots| && p.slots[result] == Slot(None, 1)
    requires var (c5, v) := GenExprs(r.body, BindException(r.varName, excOp, c3));
      var c6 := Emit(c5, Store(v, result, 0));
      Linked(p, c6) && c6.cur < |p.f| && p.f[c6.cur] == Block(c6.blocks[c6.cur].instrs, Some(Br(out)))
    requires AtStart(c3.cur, m) && Match(p, st, m) && Value(p.w, excOp, m.regs) == Some(exc)
    ensures m' == Steps(p.w, p.f, m, n)
    ensures Rescued(p, RunClause(p.w, r, c3.locals.Keys, exc, st), result, out, m')
  {
    hide Wf, Linked, MemMatch, Advances, Grows, Steps, Emit, BindException, GenExprs, EvalExprs, Value;
    var c4 := BindException(r.varName, excOp, c3);
    var (c5, v) := GenExprs(r.body, c4);
    var c6 := Emit(c5, Store(v, result, 0));
    LinkedBefore(p, c5, c6);
    LinkedBefore(p, c4, c5);
    assert Wf(c3) && c3.cur < |c3.blocks| by { WfCur(c3); }
    var n1, m1 := SimBind(p, r.varName, excOp, exc, c3, m, st);
    var st1 := if r.varName.Some? then Assign(st, Local(r.varName.value), exc) else st;
    var n2, m2 := SimExprs(p, r.body, c4, m1, st1);
    StepsAdd(p.w, p.f, m, n1, n2);
    n, m' := n1 + n2, m2;
    var q := EvalExprs(p.w, r.body, c4.locals.Keys, st1);
    if q.Ok? {
      var m3 := SimStoreTemp(p, c5, v, q.val, result, 0, m2, q.st);
      StepsAdd(p.w, p.f, m, n1 + n2, 1);
      TakeJump(p, c6, out, m3);
      StepsAdd(p.w, p.f, m, n1 + n2 + 1, 1);
      n, m' := n1 + n2 + 2, m3.(blk := out, pc := 0);
    }
  }

  lemma WfCur(c: CS)
    requires Wf(c)
    ensures c.cur < |c.blocks|
  {}

  lemma TakeJump(p: Program, c: CS, out: nat, m: Config)
    requires AtEnd(c, m) && c.cur < |p.f| && p.f[c.cur] == Block(c.blocks[c.cur].instrs, Some(Br(out)))
    ensures Steps(p.w, p.f, m, 1) == m.(blk := out, pc := 0)
  {
    assert Steps(p.w, p.f, m, 1) == Steps(p.w, p.f, Step(p.w, p.f, m), 0);
  }

  /** In the finished program the bodies of the clauses end with a jump to out. */
  ghost predicate ImplsLinked(p: Program, impls: seq<nat>, out: nat, cs: CS) {
    forall k :: 0 <= k < |impls| ==>
      && impls[k] < |p.f| && impls[k] < |cs.blocks|
      && p.f[impls[k]] == Block(cs.blocks[impls[k]].instrs, Some(Br(out)))
  }

  /** The registers that a landing pad keeps throughout. */
  ghost predicate PadRegs(p: Program, dw: Operand, excOp: Operand, excType: Operand, exc: Val, k: nat, m: Config) {
    && m.Run?
    && dw.Reg? && dw.r < k && Value(p.w, dw, m.regs) == Some(Unwinding(exc))
    && excOp.Reg? && excOp.r < k && Value(p.w, excOp, m.regs) == Some(exc)
    && excType.Reg? && excType.r < k && Value(p.w, excType, m.regs) == Some(p.w.classOf(exc))
  }

  lemma {:induction false} SimRescues(p: Program, rescues: seq<Rescue>, result: nat, dw: Operand, excOp: Operand, excType: Operand,
                                      exc: Val, cs: CS, out: nat, m: Config, st: State) returns (n: nat, m': Config)
    requires Wf(cs) && cs.pad.None? && forall r :: r in rescues ==> r.body != []
    requires var (c, impls) := GenRescues(rescues, result, excOp, excType, cs);
      Linked(p, Emit(c, Rethrow(dw))) && ImplsLinked(p, impls, out, c)
    requires result < |p.slots| && p.slots[result] == Slot(None, 1)
    requires AtEnd(cs, m) && Match(p, st, m) && PadRegs(p, dw, excOp, excType, exc, cs.nreg, m)
    ensures m' == Steps(p.w, p.f, m, n)
    ensures Rescued(p, EvalRescues(p.w, rescues, cs.locals.Keys, exc, st), result, out, m')
    decreases rescues
  {
    hide Wf, Linked, MemMatch, AdvancesBut, Grows, Steps, Emit, GenRescue, RunClause, TestTypes, NamesRescue;
    if rescues == [] {
      RunInstr(p, cs, Rethrow(dw), m);
      n, m' := 1, Exec(p.w, Rethrow(dw), m);
      assert m' == Steps(p.w, p.f, m, 1) by { OneStep(p, m); }
    } else {
      var (c1, impl) := GenRescue(rescues[0], result, excOp, excType, cs);
      var (c2, impls) := GenRescues(rescues[1..], result, excOp, excType, c1);
      RestLinked(p, cs, c1, c2, impl, impls, out, dw);
      var t := TestTypes(p.w, RescueTypes(rescues[0]), exc, st);
      n, m' := SimRescue(p, rescues[0], result, excOp, excType, exc, cs, out, m, st);
      if t.Unmatched? {
        var n1, m1 := n, m';
        KnownRescue(rescues[0], result, excOp, excType, cs);
        var n2;
        n2, m' := SimRescues(p, rescues[1..], result, dw, excOp, excType, exc, c1, out, m1, t.st);
        StepsAdd(p.w, p.f, m, n1, n2);
        n := n1 + n2;
      }
    }
  }

  lemma OneStep(p: Program, m: Config)
    ensures Steps(p.w, p.f, m, 1) == Step(p.w, p.f, m)
  {
    assert Steps(p.w, p.f, m, 1) == Steps(p.w, p.f, Step(p.w, p.f, m), 0);
  }

  lemma RestLinked(p: Program, cs: CS, c1: CS, c2: CS, impl: nat, impls: seq<nat>, out: nat, dw: Operand)
    requires Wf(cs) && Wf(c1) && Wf(c2) && AdvancesBut(cs, c1, [impl]) && AdvancesBut(c1, c2, impls)
    requires Linked(p, Emit(c2, Rethrow(dw))) && ImplsLinked(p, [impl] + impls, out, c2)
    ensures ImplsLinked(p, impls, out, c2) && Linked(p, c1)
    ensures impl < |p.f| && impl < |c1.blocks| && p.f[impl] == Block(c1.blocks[impl].instrs, Some(Br(out)))
  {
    hide Base, ProgramOk, Emit;
    assert [impl][0] == impl;
    LinkedBefore(p, c2, Emit(c2, Rethrow(dw))) by { hide Linked; }
    LinkedGrows(p, c1, c2);
    assert ([impl] + impls)[0] == impl;
    forall k | 0 <= k < |impls| ensures ([impl] + impls)[k + 1] == impls[k] {}
  }

  /** What one clause does with the exception: run its body, pass it on, or fail in a test. */
  ghost predicate ClauseDone(p: Program, r: Rescue, names: set<string>, exc: Val, t: TestResult, result: nat, out: nat,
                             c1: CS, m: Config) {
    match t
    case Matched(st) => Rescued(p, RunClause(p.w, r, names, exc, st), result, out, m)
    case Unmatched(st) => Match(p, st, m) && AtEnd(c1, m)
    case TestFailed(e, st) => Thrown(p, e, st, m)
  }

  /** The tests of a clause lead to its body's block, or to the block behind the last test. */
  lemma SimTests(p: Program, r: Rescue, result: nat, excOp: Operand, excType: Operand, exc: Val, cs: CS, m: Config, st: State)
    returns (n: nat, m': Config)
    requires Wf(cs) && cs.pad.None? && r.body != [] && AtEnd(cs, m) && Match(p, st, m)
    requires Linked(p, GenRescue(r, result, excOp, excType, cs).0)
    requires OperandOk(excType, cs) && Value(p.w, excType, m.regs) == Some(p.w.classOf(exc))
    ensures m' == Steps(p.w, p.f, m, n)
    ensures var t, (c, impl) := TestTypes(p.w, RescueTypes(r), exc, st), GenRescue(r, result, excOp, excType, cs);
      Tested(p, t, impl, c, m') && (!t.TestFailed? ==> KeepsRegs(m, m', cs.nreg))
  {
    hide Wf, Base, Linked, MemMatch, Advances, AdvancesBut, Grows, Keeps, Steps, Emit, GenTypes, StartImpl, BindException, GenExprs,
      TestTypes, TestsAt, TestsLinked, Value, Match, AtEnd, RescueTypes;
    var (c1, tests) := GenTypes(RescueTypes(r), excType, cs);
    var c3 := StartImpl(cs, c1, tests);
    var c4 := BindException(r.varName, excOp, c3);
    var (c5, v) := GenExprs(r.body, c4);
    AdvancesTrans(c3, c4, c5);
    var c6 := Emit(c5, Store(v, result, 0));
    AdvancesTrans(c3, c5, c6);
    LinkedAnywhere(p, c6, c1.cur);
    ClauseLinks(p, cs, c1, tests, c3, c6);
    n, m' := SimTypes(p, RescueTypes(r), exc, excType, |c1.blocks|, cs, m, st);
    if TestTypes(p.w, RescueTypes(r), exc, st).Unmatched? {
      EndOfTests(cs, c1, tests, c3, c6, m');
    }
  }

  lemma SimRescue(p: Program, r: Rescue, result: nat, excOp: Operand, excType: Operand, exc: Val, cs: CS, out: nat, m: Config, st: State)
    returns (n: nat, m': Config)
    requires Wf(cs) && cs.pad.None? && r.body != []
    requires var (c1, impl) := GenRescue(r, result, excOp, excType, cs);
      Linked(p, c1) && impl < |p.f| && impl < |c1.blocks| && p.f[impl] == Block(c1.blocks[impl].instrs, Some(Br(out)))
    requires result < |p.slots| && p.slots[result] == Slot(None, 1) && AtEnd(cs, m) && Match(p, st, m)
    requires OperandOk(excType, cs) && Value(p.w, excType, m.regs) == Some(p.w.classOf(exc))
    requires OperandOk(excOp, cs) && Value(p.w, excOp, m.regs) == Some(exc)
    ensures m' == Steps(p.w, p.f, m, n)
    ensures var t := TestTypes(p.w, RescueTypes(r), exc, st);
      && ClauseDone(p, r, cs.locals.Keys, exc, t, result, out, GenRescue(r, result, excOp, excType, cs).0, m')
      && (t.Unmatched? ==> KeepsRegs(m, m', cs.nreg))
  {
    hide Wf, Base, Linked, MemMatch, Advances, AdvancesBut, Grows, Keeps, Steps, Emit, GenTypes, StartImpl, BindException, GenExprs,
      RunClause, TestTypes, TestsAt, TestsLinked, Value, Match, Rescued, AtEnd, RescueTypes;
    var (c1, tests) := GenTypes(RescueTypes(r), excType, cs);
    var c3 := StartImpl(cs, c1, tests);
    var c4 := BindException(r.varName, excOp, c3);
    var (c5, v) := GenExprs(r.body, c4);
    AdvancesTrans(c3, c4, c5);
    var c6 := Emit(c5, Store(v, result, 0));
    AdvancesTrans(c3, c5, c6);
    LinkedAnywhere(p, c6, c1.cur);
    ClauseLinks(p, cs, c1, tests, c3, c6);
    var impl := |c1.blocks|;
    var n1, m1 := SimTypes(p, RescueTypes(r), exc, excType, impl, cs, m, st);
    n, m' := n1, m1;
    var t := TestTypes(p.w, RescueTypes(r), exc, st);
    if t.Matched? {
      ValueKept(p.w, excOp, cs, m, m1) by { assert m.Run? && m1.Run?; }
      var n2;
      n2, m' := SimClause(p, r, result, excOp, exc, c3, out, m1, t.st);
      StepsAdd(p.w, p.f, m, n1, n2);
      n := n1 + n2;
    } else if t.Unmatched? {
      EndOfTests(cs, c1, tests, c3, c6, m1);
    }
  }

  lemma LinkedAnywhere(p: Program, c: CS, b: nat)
    ensures Linked(p, c.(cur := b)) <==> Linked(p, c)
  {}

  lemma ClauseLinks(p: Program, cs: CS, c1: CS, tests: seq<TypeTest>, c3: CS, c6: CS)
    requires Wf(cs) && Wf(c1) && |c1.blocks| == |cs.blocks| + |tests| && TestsAt(tests, cs.cur, |cs.blocks|, c1)
    requires c3 == StartImpl(cs, c1, tests) && Wf(c6) && Advances(c3, c6) && Linked(p, c6)
    ensures Linked(p, c1) && Linked(p, c3) && TestsLinked(p, tests, |c1.blocks|, c1)
  {
    hide Base, ProgramOk, StartImpl;
    LinkedBefore(p, c3, c6) by { hide Linked, Advances; }
    LinkedGrows(p, c1, c3);
    forall k | 0 <= k < |tests|
      ensures tests[k].blk < |p.f| && tests[k].blk < |c1.blocks|
      ensures p.f[tests[k].blk] == Block(c1.blocks[tests[k].blk].instrs, Some(CondBr(tests[k].matched, |c1.blocks|, tests[k].notMatched)))
    {
      assert IsOpen(c1, tests[k].blk);
      assert SubBlock(c3.blocks[tests[k].blk], p.f[tests[k].blk]);
    }
  }

  /** The block after the last test is where the next clause continues. */
  lemma EndOfTests(cs: CS, c1: CS, tests: seq<TypeTest>, c3: CS, c6: CS, m: Config)
    requires Wf(cs) && Wf(c1) && |c1.blocks| == |cs.blocks| + |tests| && TestsAt(tests, cs.cur, |cs.blocks|, c1)
    requires c1.cur == if tests == [] then cs.cur else |c1.blocks| - 1
    requires c3 == StartImpl(cs, c1, tests) && Wf(c6) && Advances(c3, c6) && AtEnd(c1, m)
    ensures AtEnd(c6.(cur := c1.cur), m)
  {
    hide Base, StartImpl, Grows;
    assert forall k :: 0 <= k < |tests| ==> tests[k].blk != c1.cur;
  }

  /** A landing pad fetches the exception, tries the clauses and rethrows. */
  lemma SimHandler(p: Program, rescues: seq<Rescue>, result: nat, lp: nat, cs: CS, exc: Val, out: nat, m: Config, st: State)
    returns (n: nat, m': Config)
    requires Base(cs) && IsOpen(cs, lp) && cs.pad.None? && forall r :: r in rescues ==> r.body != []
    requires cs.blocks[lp].instrs == [] && AtStart(lp, m) && m.exc == exc && Match(p, st, m)
    requires result < |p.slots| && p.slots[result] == Slot(None, 1)
    requires var (c, impls) := GenHandler(rescues, result, lp, cs); Linked(p, c) && ImplsLinked(p, impls, out, c)
    ensures m' == Steps(p.w, p.f, m, n)
    ensures Rescued(p, EvalRescues(p.w, rescues, cs.locals.Keys, exc, st), result, out, m')
  {
    hide Wf, Base, Linked, MemMatch, Advances, AdvancesBut, Grows, Keeps, HandlerAt, Steps, Emit, GenLanding, GenRescues, EvalRescues,
      Match, Rescued;
    var c0 := At(cs, lp);
    StartAt(cs, lp);
    var (c1, dw, excOp, excType) := GenLanding(c0);
    AdvancesIsAdvancesBut(c0, c1);
    var (c2, impls) := GenRescues(rescues, result, excOp, excType, c1);
    HandlerLinks(p, c1, c2, impls, dw, out);
    var n1, m1 := SimLanding(p, c0, exc, m, st);
    var n2;
    n2, m' := SimRescues(p, rescues, result, dw, excOp, excType, exc, c1, out, m1, st);
    StepsAdd(p.w, p.f, m, n1, n2);
    n := n1 + n2;
  }

  lemma HandlerLinks(p: Program, c1: CS, c2: CS, impls: seq<nat>, dw: Operand, out: nat)
    requires Wf(c1) && Wf(c2) && AdvancesBut(c1, c2, impls)
    requires var c4 := Terminate(Emit(c2, Rethrow(dw)), Ret(NullPtr)); Linked(p, c4) && ImplsLinked(p, impls, out, c4)
    ensures Linked(p, c1) && Linked(p, Emit(c2, Rethrow(dw))) && ImplsLinked(p, impls, out, c2)
  {
    hide Base, ProgramOk;
    var c3 := Emit(c2, Rethrow(dw));
    LinkedGrows(p, c3, Terminate(c3, Ret(NullPtr)));
    LinkedBefore(p, c2, c3);
    LinkedGrows(p, c1, c2);
    forall k | 0 <= k < |impls| ensures c3.blocks[impls[k]] == c2.blocks[impls[k]] {}
  }

  lemma SimLanding(p: Program, cs: CS, exc: Val, m: Config, st: State) returns (n: nat, m': Config)
    requires Wf(cs) && Linked(p, GenLanding(cs).0) && AtEnd(cs, m) && Match(p, st, m) && m.exc == exc
    ensures m' == Steps(p.w, p.f, m, n) && AtEnd(GenLanding(cs).0, m') && Match(p, st, m')
    ensures var (c, dw, excOp, excType) := GenLanding(cs); PadRegs(p, dw, excOp, excType, exc, c.nreg, m')
  {
    hide Wf, Linked, MemMatch, Advances, Grows, Steps, Emit, EmitPure, Match;
    var (c1, dw) := EmitPure(cs, OpException);
    var (c2, sel) := EmitPure(c1, OpSelector(dw));
    var (c3, excOp) := EmitPure(c2, OpExtract(dw));
    var (c4, excType) := EmitPure(c3, OpTypeOf(excOp));
    LinkedBefore(p, c3, c4);
    LinkedBefore(p, c2, c3);
    LinkedBefore(p, c1, c2);
    var m1 := SimPure(p, cs, OpException, Unwinding(exc), m, st) by { assert Match(p, st, m); }
    var m2 := SimPure(p, c1, OpSelector(dw), Unwinding(exc), m1, st);
    var m3 := SimPure(p, c2, OpExtract(dw), exc, m2, st);
    m' := SimPure(p, c3, OpTypeOf(excOp), p.w.classOf(exc), m3, st);
    StepsAdd(p.w, p.f, m, 1, 1);
    StepsAdd(p.w, p.f, m, 2, 1);
    StepsAdd(p.w, p.f, m, 3, 1);
    n := 4;
  }

  lemma {:induction false} SimBegin(p: Program, s: Stmt, cs: CS, m: Config, st: State, fuel: nat) returns (n: nat, m': Config)
    requires Wf(cs) && WfStmt(s, cs.pad.Some?) && s.Begin? && Linked(p, GenBegin(s, cs).0) && AtEnd(cs, m) && Match(p, st, m)
    ensures m' == Steps(p.w, p.f, m, n)
    ensures var r := EvalStmt(p.w, s, Known(cs), st, fuel);
      Agrees(p, GenBegin(s, cs).0, GenBegin(s, cs).1, r, m') && (r.Timeout? ==> n >= fuel)
    decreases fuel, s, 1
  {
    hide Wf, Base, Linked, Advances, MemMatch, Grows, Keeps, Steps, AllocSlot, GenStmts, Emit, GenHandler, HandlerAt, AllOpen, EnterBegin,
      CloseAll, EmitLoad, EvalStmts, EvalRescues, StaticStmts, ImplsLinked;
    var slot := |cs.slots|;
    var c1 := AllocSlot(cs, Slot(None, 1));
    var lp := |c1.blocks|;
    var c2 := EnterBegin(c1);
    var (c3, v) := GenStmts(s.bbody, c2);
    var c4 := Emit(c3, Store(v, slot, 0));
    AdvancesTrans(c2, c3, c4);
    LeaveBegin(c1, c2, c4, cs.pad);
    var h := c4.(pad := cs.pad);
    var (c5, impls) := GenHandler(s.rescues, slot, lp, h);
    BeginEnds(cs, c1, c2, c4, c5, impls);
    var out := |c5.blocks|;
    var c6 := CloseAll(impls + [c4.cur], out, AppendBlock(c5));
    BeginAdvances(cs, c1, c2, c4, c5, impls, c6);
    var c7 := At(c6, out);
    AtLinks(p, c6, out, slot);
    BeginLinks(p, cs, c1, c2, c4, c5, impls, c6);
    LinkedBefore(p, c3, c4);
    EnterMatches(cs, c1, c2, m);
    KnownStmts(s.bbody, c2);
    n, m' := SimStmts(p, s.bbody, c2, m, st, fuel);
    var r := EvalStmts(p.w, s.bbody, Known(c2), st, fuel);
    var n1, m1 := n, m';
    if r.Ok? {
      var m2 := SimStoreTemp(p, c3, v, r.val, slot, 0, m1, r.st) by { assert Match(p, r.st, m1); }
      TakeJump(p, c4, out, m2);
      var m3 := m2.(blk := out, pc := 0);
      StepsAdd(p.w, p.f, m, n1, 1);
      StepsAdd(p.w, p.f, m, n1 + 1, 1);
      n, m' := SimOut(p, c5, c6, out, slot, r.val, m, n1 + 2, m3, r.st);
    } else if r.Raise? {
      var n2, m2 := SimHandler(p, s.rescues, slot, lp, h, r.exc, out, m1, r.st);
      StepsAdd(p.w, p.f, m, n1, n2);
      n, m' := n1 + n2, m2;
      var q := EvalRescues(p.w, s.rescues, h.locals.Keys, r.exc, r.st);
      if q.Ok? {
        n, m' := SimOut(p, c5, c6, out, slot, q.val, m, n1 + n2, m2, q.st);
      }
    }
  }

  /** From the block after a begin statement, load its value. */
  lemma SimOut(p: Program, c5: CS, c6: CS, out: nat, slot: nat, v: Val, m: Config, n1: nat, m1: Config, st: State)
    returns (n: nat, m': Config)
    requires m1 == Steps(p.w, p.f, m, n1) && AtStart(out, m1) && Match(p, st, m1) && (slot, 0) in m1.mem && m1.mem[(slot, 0)] == v
    requires slot < |p.slots| && p.slots[slot] == Slot(None, 1)
    requires Base(c6) && IsOpen(c6, out) && c6.blocks[out].instrs == [] && Linked(p, EmitLoad(At(c6, out), slot).0)
    ensures m' == Steps(p.w, p.f, m, n)
    ensures Agrees(p, EmitLoad(At(c6, out), slot).0, EmitLoad(At(c6, out), slot).1, Ok(v, st), m')
  {
    hide Base, Linked, MemMatch, Steps, EmitLoad, Match;
    StartAt(c6, out);
    m' := SimResult(p, At(c6, out), slot, v, m1, st) by { assert Match(p, st, m1); }
    StepsAdd(p.w, p.f, m, n1, 1);
    n := n1 + 1;
  }

  lemma EnterMatches(cs: CS, c1: CS, c2: CS, m: Config)
    requires Wf(cs) && c1 == AllocSlot(cs, Slot(None, 1)) && c2 == EnterBegin(c1) && AtEnd(cs, m)
    ensures AtEnd(c2, m) && Known(c2) == Known(cs)
  {
    hide Wf, AllocSlot;
  }

  lemma BeginLinks(p: Program, cs: CS, c1: CS, c2: CS, c4: CS, c5: CS, impls: seq<nat>, c6: CS)
    requires Wf(cs) && c1 == AllocSlot(cs, Slot(None, 1))
    requires c2 == EnterBegin(c1) && Wf(c4) && Advances(c2, c4) && c4.cur != |c1.blocks|
    requires Base(c5) && HandlerAt(c4.(pad := cs.pad), |c1.blocks|, c5, impls) && Grows(c4.(pad := cs.pad), c5)
    requires AllOpen(impls + [c4.cur], AppendBlock(c5)) && c6 == CloseAll(impls + [c4.cur], |c5.blocks|, AppendBlock(c5))
    requires Linked(p, c6)
    ensures Linked(p, c4) && Linked(p, c5) && ImplsLinked(p, impls, |c5.blocks|, c5)
    ensures |cs.slots| < |p.slots| && p.slots[|cs.slots|] == Slot(None, 1)
    ensures c4.cur < |p.f| && p.f[c4.cur] == Block(c4.blocks[c4.cur].instrs, Some(Br(|c5.blocks|)))
    ensures |c5.blocks| < |c6.blocks| && c6.blocks[|c5.blocks|].instrs == []
  {
    hide Base, ProgramOk, CloseAll, AllocSlot;
    LinkedGrows(p, AppendBlock(c5), c6);
    LinkedGrows(p, c5, AppendBlock(c5));
    LinkedGrows(p, c4, c5);
    LinkedBefore(p, c2, c4);
    assert c2.slots[|cs.slots|] == Slot(None, 1);
    var bs := impls + [c4.cur];
    forall k | 0 <= k < |bs|
      ensures bs[k] < |p.f| && p.f[bs[k]] == Block(AppendBlock(c5).blocks[bs[k]].instrs, Some(Br(|c5.blocks|)))
    {
      assert SubBlock(c6.blocks[bs[k]], p.f[bs[k]]);
    }
    assert bs[|impls|] == c4.cur;
    forall k | 0 <= k < |impls| ensures bs[k] == impls[k] && bs[k] < |c5.blocks| {}
  }
}
