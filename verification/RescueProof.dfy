/** Rescue dispatch picks the first clause, in source order, that lists an ancestor of
    the exception's class. */
module RescueProof {
  import opened AstEval
  import opened Codegen
  import opened ExprProof
  import opened Ir
  import opened Machine
  import opened Options
  import opened PupAst
  import opened Runtime
  import opened StmtProof
  import opened UnitProof

  /** These constants are defined: looking x up gives cls(x). */
  ghost predicate Defined(w: World, cls: string -> Val, types: seq<string>) {
    forall t: seq<Event>, x: string :: x in types ==> w.answer(t + [ConstGetE(w.classContext(w.self), x)]) == Returns(cls(x))
  }

  /** The classes that the clauses list are defined. */
  ghost predicate ClassesDefined(w: World, cls: string -> Val, rs: seq<Rescue>) {
    forall r :: r in rs ==> Defined(w, cls, RescueTypes(r))
  }

  /** The class called x is the exception's class or above it. */
  predicate Catches(w: World, cls: string -> Val, x: string, exc: Val) {
    cls(x) in w.ancestors(w.classOf(exc))
  }

  predicate Lists(w: World, cls: string -> Val, r: Rescue, exc: Val) {
    exists i :: 0 <= i < |RescueTypes(r)| && Catches(w, cls, RescueTypes(r)[i], exc)
  }

  /** The lookups that testing a list of classes makes: up to the first that catches. */
  function Lookups(w: World, cls: string -> Val, types: seq<string>, exc: Val): seq<Event> {
    if types == [] then [] else
      [ConstGetE(w.classContext(w.self), types[0])] +
      if Catches(w, cls, types[0], exc) then [] else Lookups(w, cls, types[1..], exc)
  }

  lemma {:induction false} TestsDecide(w: World, cls: string -> Val, types: seq<string>, exc: Val, st: State)
    requires Defined(w, cls, types)
    ensures var st' := st.(trace := st.trace + Lookups(w, cls, types, exc));
      TestTypes(w, types, exc, st) ==
        if exists i :: 0 <= i < |types| && Catches(w, cls, types[i], exc) then Matched(st') else Unmatched(st')
    decreases types
  {
    if types == [] {
      assert st.trace + [] == st.trace;
    } else {
      var ev := ConstGetE(w.classContext(w.self), types[0]);
      var st1 := st.(trace := st.trace + [ev]);
      assert GetConst(w, types[0], st) == Ok(cls(types[0]), st1);
      if Catches(w, cls, types[0], exc) {
        assert [ev] + [] == [ev];
      } else {
        TestsDecide(w, cls, types[1..], exc, st1);
        assert st.trace + ([ev] + Lookups(w, cls, types[1..], exc)) == st1.trace + Lookups(w, cls, types[1..], exc);
        if i :| 0 <= i < |types| && Catches(w, cls, types[i], exc) {
          assert types[1..][i - 1] == types[i];
        }
      }
    }
  }

  /** All the lookups of the first k clauses. */
  function LookupsOf(w: World, cls: string -> Val, rs: seq<Rescue>, exc: Val): seq<Event> {
    if rs == [] then [] else Lookups(w, cls, RescueTypes(rs[0]), exc) + LookupsOf(w, cls, rs[1..], exc)
  }

  /** k is the first clause that lists a class catching the exception, or none does. */
  ghost predicate FirstClause(w: World, cls: string -> Val, rs: seq<Rescue>, exc: Val, k: nat) {
    && k <= |rs|
    && (forall j :: 0 <= j < k ==> !Lists(w, cls, rs[j], exc))
    && (k < |rs| ==> Lists(w, cls, rs[k], exc))
  }

  /** Dispatch runs the body of the first matching clause and no other; when no clause
      matches, the exception goes on. */
  lemma {:induction false} FirstMatchWins(w: World, cls: string -> Val, rs: seq<Rescue>, names: set<string>, exc: Val, st: State, k: nat)
    requires ClassesDefined(w, cls, rs) && FirstClause(w, cls, rs, exc, k)
    ensures k < |rs| ==>
      EvalRescues(w, rs, names, exc, st)
      == RunClause(w, rs[k], NamesRescues(rs[..k], names), exc, st.(trace := st.trace + LookupsOf(w, cls, rs[..k + 1], exc)))
    ensures k == |rs| ==> EvalRescues(w, rs, names, exc, st) == Raise(exc, st.(trace := st.trace + LookupsOf(w, cls, rs, exc)))
    decreases rs
  {
    hide Lookups, Lists, TestTypes, RunClause, NamesRescue, RescueTypes;
    if rs == [] {
      assert st.trace + [] == st.trace;
    } else {
      var types := RescueTypes(rs[0]);
      TestsDecide(w, cls, types, exc, st);
      ListsIsExists(w, cls, rs[0], exc);
      var looked := Lookups(w, cls, types, exc);
      assert Lists(w, cls, rs[0], exc) <==> k == 0;
      if k == 0 {
        assert rs[..1] == [rs[0]] && rs[..0] == [];
        assert LookupsOf(w, cls, [rs[0]], exc) == looked + LookupsOf(w, cls, [], exc) == looked;
      } else {
        FirstInRest(w, cls, rs, exc, k);
        FirstMatchWins(w, cls, rs[1..], NamesRescue(rs[0], names), exc, st.(trace := st.trace + looked), k - 1);
        JoinLookups(w, cls, rs, exc, if k < |rs| then k + 1 else k, st.trace);
        assert rs[..k][1..] == rs[1..][..k - 1];
        assert rs[..|rs|] == rs && rs[1..][..|rs| - 1] == rs[1..];
      }
    }
  }

  lemma ListsIsExists(w: World, cls: string -> Val, r: Rescue, exc: Val)
    ensures Lists(w, cls, r, exc) <==> exists i :: 0 <= i < |RescueTypes(r)| && Catches(w, cls, RescueTypes(r)[i], exc)
  {}

  lemma FirstInRest(w: World, cls: string -> Val, rs: seq<Rescue>, exc: Val, k: nat)
    requires FirstClause(w, cls, rs, exc, k) && 0 < k
    ensures FirstClause(w, cls, rs[1..], exc, k - 1)
  {
    forall j | 0 <= j < k - 1 ensures !Lists(w, cls, rs[1..][j], exc) {
      assert rs[1..][j] == rs[j + 1];
    }
  }

  lemma JoinLookups(w: World, cls: string -> Val, rs: seq<Rescue>, exc: Val, n: nat, trace: seq<Event>)
    requires 0 < n <= |rs|
    ensures trace + Lookups(w, cls, RescueTypes(rs[0]), exc) + LookupsOf(w, cls, rs[1..][..n - 1], exc)
      == trace + LookupsOf(w, cls, rs[..n], exc)
  {
    assert rs[..n][1..] == rs[1..][..n - 1];
    var a, b := Lookups(w, cls, RescueTypes(rs[0]), exc), LookupsOf(w, cls, rs[1..][..n - 1], exc);
    assert trace + a + b == trace + (a + b);
  }

  lemma {:induction false} FirstClauseExists(w: World, cls: string -> Val, rs: seq<Rescue>, exc: Val) returns (k: nat)
    ensures FirstClause(w, cls, rs, exc, k)
  {
    hide Lists;
    k := 0;
    while k < |rs| && !Lists(w, cls, rs[k], exc)
      invariant k <= |rs| && forall j :: 0 <= j < k ==> !Lists(w, cls, rs[j], exc)
    {
      k := k + 1;
    }
  }

  // ----- the compiled tests

  /** The tests that are emitted for a clause look its classes up as far as the first ancestor;
      control comes to the clause's body if there is one, and else to the block behind them. */
  lemma EmittedTestsDecide(p: Program, cls: string -> Val, r: Rescue, result: nat, excOp: Operand, excType: Operand, exc: Val,
                           cs: CS, m: Config, st: State) returns (n: nat, m': Config)
    requires Defined(p.w, cls, RescueTypes(r))
    requires Wf(cs) && cs.pad.None? && r.body != [] && AtEnd(cs, m) && Match(p, st, m)
    requires Linked(p, GenRescue(r, result, excOp, excType, cs).0)
    requires OperandOk(excType, cs) && Value(p.w, excType, m.regs) == Some(p.w.classOf(exc))
    ensures m' == Steps(p.w, p.f, m, n) && KeepsRegs(m, m', cs.nreg)
    ensures Match(p, st.(trace := st.trace + Lookups(p.w, cls, RescueTypes(r), exc)), m')
    ensures var (c, impl) := GenRescue(r, result, excOp, excType, cs);
      if Lists(p.w, cls, r, exc) then AtStart(impl, m') else AtEnd(c, m')
  {
    hide Wf, Linked, MemMatch, GenRescue, Steps, TestTypes, Lookups, RescueTypes, Value, OperandOk, Lists;
    TestsDecide(p.w, cls, RescueTypes(r), exc, st);
    ListsIsExists(p.w, cls, r, exc);
    n, m' := SimTests(p, r, result, excOp, excType, exc, cs, m, st);
  }

  /** The emitted chain of tests enters the body of the first clause that lists an ancestor of
      the exception's class, having made the lookups up to there and nothing else; when there is
      none it comes to its end, where the exception is thrown again. */
  lemma {:induction false} ChainEntersFirst(p: Program, cls: string -> Val, rescues: seq<Rescue>, result: nat, dw: Operand,
                                            excOp: Operand, excType: Operand, exc: Val, cs: CS, out: nat, m: Config, st: State,
                                            k: nat) returns (n: nat, m': Config)
    requires ClassesDefined(p.w, cls, rescues) && FirstClause(p.w, cls, rescues, exc, k)
    requires Wf(cs) && cs.pad.None? && forall r :: r in rescues ==> r.body != []
    requires var (c, impls) := GenRescues(rescues, result, excOp, excType, cs);
      Linked(p, Emit(c, Rethrow(dw))) && ImplsLinked(p, impls, out, c)
    requires AtEnd(cs, m) && Match(p, st, m) && PadRegs(p, dw, excOp, excType, exc, cs.nreg, m)
    ensures m' == Steps(p.w, p.f, m, n)
    ensures var (c, impls) := GenRescues(rescues, result, excOp, excType, cs);
      && (k < |rescues| ==> AtStart(impls[k], m') && Match(p, st.(trace := st.trace + LookupsOf(p.w, cls, rescues[..k + 1], exc)), m'))
      && (k == |rescues| ==>
            && AtEnd(c, m') && Match(p, st.(trace := st.trace + LookupsOf(p.w, cls, rescues, exc)), m')
            && PadRegs(p, dw, excOp, excType, exc, cs.nreg, m'))
    decreases rescues
  {
    hide Wf, Linked, MemMatch, AdvancesBut, Grows, Steps, Emit, GenRescue, Lookups, RescueTypes, Lists, ImplsLinked;
    if rescues == [] {
      n, m' := 0, m;
      StepsZero(p.w, p.f, m);
      assert st.trace + [] == st.trace;
    } else {
      var (c1, impl) := GenRescue(rescues[0], result, excOp, excType, cs);
      var (c2, impls) := GenRescues(rescues[1..], result, excOp, excType, c1);
      RestLinked(p, cs, c1, c2, impl, impls, out, dw);
      n, m' := EmittedTestsDecide(p, cls, rescues[0], result, excOp, excType, exc, cs, m, st);
      var looked := Lookups(p.w, cls, RescueTypes(rescues[0]), exc);
      if k == 0 {
        assert rescues[..1] == [rescues[0]];
        assert LookupsOf(p.w, cls, [rescues[0]], exc) == looked + LookupsOf(p.w, cls, [], exc) == looked;
      } else {
        FirstInRest(p.w, cls, rescues, exc, k);
        var n1, m1 := n, m';
        var n2;
        n2, m' := ChainEntersFirst(p, cls, rescues[1..], result, dw, excOp, excType, exc, c1, out, m1,
                                   st.(trace := st.trace + looked), k - 1);
        StepsAdd(p.w, p.f, m, n1, n2);
        n := n1 + n2;
        JoinLookups(p.w, cls, rescues, exc, if k < |rescues| then k + 1 else k, st.trace);
        assert rescues[..|rescues|] == rescues && rescues[1..][..|rescues| - 1] == rescues[1..];
      }
    }
  }

  /** From the landing pad of a begin: the body of the first matching clause is entered, or the
      exception leaves the unit. */
  lemma PadEntersFirst(p: Program, cls: string -> Val, rescues: seq<Rescue>, result: nat, lp: nat, cs: CS, exc: Val, out: nat,
                       m: Config, st: State, k: nat) returns (n: nat, m': Config)
    requires ClassesDefined(p.w, cls, rescues) && FirstClause(p.w, cls, rescues, exc, k)
    requires Base(cs) && IsOpen(cs, lp) && cs.pad.None? && forall r :: r in rescues ==> r.body != []
    requires cs.blocks[lp].instrs == [] && AtStart(lp, m) && m.exc == exc && Match(p, st, m)
    requires var (c, impls) := GenHandler(rescues, result, lp, cs); Linked(p, c) && ImplsLinked(p, impls, out, c)
    ensures m' == Steps(p.w, p.f, m, n) && |GenHandler(rescues, result, lp, cs).1| == |rescues|
    ensures k < |rescues| ==>
      && AtStart(GenHandler(rescues, result, lp, cs).1[k], m')
      && Match(p, st.(trace := st.trace + LookupsOf(p.w, cls, rescues[..k + 1], exc)), m')
    ensures k == |rescues| ==> Thrown(p, exc, st.(trace := st.trace + LookupsOf(p.w, cls, rescues, exc)), m')
  {
    hide Wf, Base, Linked, MemMatch, Advances, AdvancesBut, Grows, Keeps, HandlerAt, Steps, Emit, GenLanding, GenRescues, Match, Lists,
      LookupsOf, ImplsLinked;
    var c0 := At(cs, lp);
    StartAt(cs, lp);
    var (c1, dw, excOp, excType) := GenLanding(c0);
    AdvancesIsAdvancesBut(c0, c1);
    var (c2, impls) := GenRescues(rescues, result, excOp, excType, c1);
    HandlerLinks(p, c1, c2, impls, dw, out);
    var n1, m1 := SimLanding(p, c0, exc, m, st);
    var n2;
    n2, m' := ChainEntersFirst(p, cls, rescues, result, dw, excOp, excType, exc, c1, out, m1, st, k);
    StepsAdd(p.w, p.f, m, n1, n2);
    n := n1 + n2;
    if k == |rescues| {
      var st' := st.(trace := st.trace + LookupsOf(p.w, cls, rescues, exc));
      m' := Rethrown(p, c2, dw, exc, m', st');
      StepsAdd(p.w, p.f, m, n, 1);
      n := n + 1;
    }
  }

  lemma Rethrown(p: Program, c: CS, dw: Operand, exc: Val, m: Config, st: State) returns (m': Config)
    requires Wf(c) && Linked(p, Emit(c, Rethrow(dw))) && AtEnd(c, m) && Match(p, st, m)
    requires Value(p.w, dw, m.regs) == Some(Unwinding(exc))
    ensures m' == Steps(p.w, p.f, m, 1) && Thrown(p, exc, st, m')
  {
    hide Wf, Linked, MemMatch, Emit, Steps;
    RunInstr(p, c, Rethrow(dw), m);
    OneStep(p, m);
    m' := Exec(p.w, Rethrow(dw), m);
  }

  /** What becomes of a begin whose body has come to b, when clause k is the first to match. */
  function Dispatched(w: World, cls: string -> Val, s: Stmt, sc: Static, b: Result, k: nat): Result
    requires s.Begin? && k <= |s.rescues|
  {
    if !b.Raise? then b
    else
      var names := StaticStmts(s.bbody, sc).names;
      if k < |s.rescues| then
        RunClause(w, s.rescues[k], NamesRescues(s.rescues[..k], names), b.exc,
                  b.st.(trace := b.st.trace + LookupsOf(w, cls, s.rescues[..k + 1], b.exc)))
      else Raise(b.exc, b.st.(trace := b.st.trace + LookupsOf(w, cls, s.rescues, b.exc)))
  }

  lemma BeginMeans(w: World, cls: string -> Val, s: Stmt, sc: Static, st: State, fuel: nat) returns (k: nat)
    requires s.Begin? && ClassesDefined(w, cls, s.rescues)
    ensures k <= |s.rescues|
    ensures var b := EvalStmts(w, s.bbody, sc, st, fuel);
      (b.Raise? ==> FirstClause(w, cls, s.rescues, b.exc, k)) && EvalStmt(w, s, sc, st, fuel) == Dispatched(w, cls, s, sc, b, k)
  {
    hide EvalStmts, EvalRescues, RunClause, LookupsOf, Lists, ClassesDefined;
    k := 0;
    var b := EvalStmts(w, s.bbody, sc, st, fuel);
    if b.Raise? {
      k := FirstClauseExists(w, cls, s.rescues, b.exc);
      FirstMatchWins(w, cls, s.rescues, StaticStmts(s.bbody, sc).names, b.exc, b.st, k);
      assert s.rescues[..|s.rescues|] == s.rescues;
    }
  }

  /** Any begin, wherever it stands in a program: when its body raises by an invocation, the
      compiled begin goes on as the first matching clause does, or raises the exception again;
      otherwise it comes to what its body comes to. */
  lemma BeginDispatches(p: Program, cls: string -> Val, s: Stmt, cs: CS, m: Config, st: State, fuel: nat)
    returns (k: nat, n: nat, m': Config)
    requires Wf(cs) && WfStmt(s, cs.pad.Some?) && s.Begin? && Linked(p, GenBegin(s, cs).0) && AtEnd(cs, m) && Match(p, st, m)
    requires ClassesDefined(p.w, cls, s.rescues)
    ensures m' == Steps(p.w, p.f, m, n) && k <= |s.rescues|
    ensures var b := EvalStmts(p.w, s.bbody, Known(cs), st, fuel);
      && (b.Raise? ==> FirstClause(p.w, cls, s.rescues, b.exc, k))
      && Agrees(p, GenBegin(s, cs).0, GenBegin(s, cs).1, Dispatched(p.w, cls, s, Known(cs), b, k), m')
  {
    hide Wf, Linked, MemMatch, GenBegin, Steps, EvalStmts, Known, Agrees, Dispatched, ClassesDefined, FirstClause;
    k := BeginMeans(p.w, cls, s, Known(cs), st, fuel);
    n, m' := SimBegin(p, s, cs, m, st, fuel);
  }

  /** A whole unit that is a begin: when its body comes to an end, the compiled unit's run stops
      with the outcome, the calls and the locals of what is dispatched. */
  lemma UnitDispatches(w: World, cls: string -> Val, s: Stmt, fuel: nat) returns (k: nat, n: nat)
    requires s.Begin? && WfStmts([s], false) && ClassesDefined(w, cls, s.rescues)
    requires !EvalStmts(w, s.bbody, Static({}, 0), NOTHING, fuel).Timeout?
    ensures k <= |s.rescues|
    ensures var b := EvalStmts(w, s.bbody, Static({}, 0), NOTHING, fuel);
      && (b.Raise? ==> FirstClause(w, cls, s.rescues, b.exc, k))
      && Observed([s], Dispatched(w, cls, s, Static({}, 0), b, k), Steps(w, CompileUnit([s]), INITIAL, n))
  {
    hide Steps, CompileUnit, RunClause, Observed, LookupsOf, ClassesDefined, FirstClause, Dispatched, EvalStmt;
    var sc := Static({}, 0);
    k := BeginMeans(w, cls, s, sc, NOTHING, fuel);
    assert EvalUnit(w, [s], fuel) == EvalStmt(w, [s][0], sc, NOTHING, fuel);
    DispatchEnds(w, cls, s, sc, EvalStmts(w, s.bbody, sc, NOTHING, fuel), k);
    var m;
    n, m := SimUnit(w, [s], fuel);
  }

  lemma DispatchEnds(w: World, cls: string -> Val, s: Stmt, sc: Static, b: Result, k: nat)
    requires s.Begin? && k <= |s.rescues| && !b.Timeout?
    ensures !Dispatched(w, cls, s, sc, b, k).Timeout?
  {
    hide LookupsOf, EvalExprs;
    if b.Raise? && k < |s.rescues| {
      var st' := b.st.(trace := b.st.trace + LookupsOf(w, cls, s.rescues[..k + 1], b.exc));
      ClauseEnds(w, s.rescues[k], NamesRescues(s.rescues[..k], StaticStmts(s.bbody, sc).names), b.exc, st');
    }
  }

  // ----- which exceptions a begin rescues

  /** Evaluation has come to an end, having added to the trace; if it threw, the last call in the
      trace is what raised, and the result is Raise exactly when that call was an invocation. */
  ghost predicate Ended(w: World, st: State, r: Result) {
    && !r.Timeout? && st.trace <= r.st.trace
    && (!r.Ok? ==>
          && r.st.trace != [] && w.answer(r.st.trace) == Raises(r.exc)
          && (r.Raise? <==> r.st.trace[|r.st.trace| - 1].InvokeE?))
  }

  lemma {:induction false} ExprEnds(w: World, e: Expr, names: set<string>, st: State)
    ensures Ended(w, st, EvalExpr(w, e, names, st))
    decreases e, 1
  {
    match e
    case Call(_, _, _) => CallEnds(w, e, names, st);
    case Binary(_, _, left, right) =>
      ExprEnds(w, left, names, st);
      var l := EvalExpr(w, left, names, st);
      if l.Ok? { ExprEnds(w, right, NamesExpr(left, names), l.st); }
    case AssignLocal(x, rhs) => ExprEnds(w, rhs, names + {x}, st);
    case AssignInst(_, rhs) => ExprEnds(w, rhs, names, st);
    case _ =>
  }

  lemma {:induction false} CallEnds(w: World, e: Expr, names: set<string>, st: State)
    requires e.Call?
    ensures Ended(w, st, EvalExpr(w, e, names, st))
    decreases e, 0
  {
    hide EvalArgs, NamesExpr;
    var r := if e.recv.Some? then EvalExpr(w, e.recv.value, names, st) else Ok(w.self, st);
    if e.recv.Some? { ExprEnds(w, e.recv.value, names, st); }
    if r.Ok? {
      ArgsEnd(w, e.args, if e.recv.Some? then NamesExpr(e.recv.value, names) else names, r.st);
    }
  }

  lemma {:induction false} ArgsEnd(w: World, es: seq<Expr>, names: set<string>, st: State)
    ensures var a := EvalArgs(w, es, names, st); if a.OkArgs? then st.trace <= a.st.trace else Ended(w, st, a.res)
    decreases es, 0
  {
    if es != [] {
      ExprEnds(w, es[0], names, st);
      var r := EvalExpr(w, es[0], names, st);
      if r.Ok? {
        ArgsEnd(w, es[1..], NamesExpr(es[0], names), r.st);
      }
    }
  }

  /** Straight-line code always comes to an end. */
  lemma {:induction false} ExprsEnd(w: World, es: seq<Expr>, names: set<string>, st: State)
    ensures Ended(w, st, EvalExprs(w, es, names, st))
    decreases es
  {
    if es != [] {
      ExprEnds(w, es[0], names, st);
      var r := EvalExpr(w, es[0], names, st);
      if r.Ok? {
        ExprsEnd(w, es[1..], NamesExpr(es[0], names), r.st);
      }
    }
  }

  lemma ClauseEnds(w: World, r: Rescue, names: set<string>, exc: Val, st: State)
    ensures Ended(w, st, RunClause(w, r, names, exc, st))
  {
    ExprsEnd(w, r.body, if r.varName.Some? then names + {r.varName.value} else names,
             if r.varName.Some? then Assign(st, Local(r.varName.value), exc) else st);
  }

  lemma {:induction false} StmtsEnd(w: World, ss: seq<Stmt>, sc: Static, st: State, fuel: nat)
    requires WfStmts(ss, true)
    ensures var r := EvalStmts(w, ss, sc, st, fuel); r.Timeout? || Ended(w, st, r)
    decreases fuel, ss, 0
  {
    StmtEnds(w, ss[0], sc, st, fuel);
    var r := EvalStmt(w, ss[0], sc, st, fuel);
    if r.Ok? && |ss| > 1 {
      StmtsEnd(w, ss[1..], StaticStmt(ss[0], sc), r.st, fuel);
    }
  }

  lemma {:induction false} StmtEnds(w: World, s: Stmt, sc: Static, st: State, fuel: nat)
    requires WfStmt(s, true)
    ensures var r := EvalStmt(w, s, sc, st, fuel); r.Timeout? || Ended(w, st, r)
    decreases fuel, s, 1
  {
    match s
    case ExprStmt(e) => ExprEnds(w, e, sc.names, st);
    case If(cond, thn, els) =>
      ExprEnds(w, cond, sc.names, st);
      var c := EvalExpr(w, cond, sc.names, st);
      var sc1 := sc.(names := NamesExpr(cond, sc.names));
      if c.Ok? && c.val != w.falseObj {
        StmtsEnd(w, thn, sc1, c.st, fuel);
      } else if c.Ok? {
        StmtsEnd(w, els, StaticStmts(thn, sc1), c.st, fuel);
      }
    case While(_, _) => WhileEnds(w, s, sc, st, fuel);
  }

  lemma {:induction false} WhileEnds(w: World, s: Stmt, sc: Static, st: State, fuel: nat)
    requires s.While? && WfStmt(s, true)
    ensures var r := EvalWhile(w, s, sc, st, fuel); r.Timeout? || Ended(w, st, r)
    decreases fuel, s, 0
  {
    if fuel > 0 {
      ExprEnds(w, s.wcond, sc.names, st);
      var c := EvalExpr(w, s.wcond, sc.names, st);
      if c.Ok? && c.val != w.falseObj {
        var sc1 := Static(NamesExpr(s.wcond, sc.names), sc.whiles + 1);
        StmtsEnd(w, s.body, sc1, c.st, fuel - 1);
        var b := EvalStmts(w, s.body, sc1, c.st, fuel - 1);
        if b.Ok? {
          var p := Ask(w, SafepointE, Assign(b.st, WhileTmp(sc.whiles), b.val));
          if p.Ok? {
            WhileEnds(w, s, sc, p.st, fuel - 1);
          }
        }
      }
    }
  }

  lemma {:induction false} TestsExtend(w: World, types: seq<string>, exc: Val, st: State)
    ensures st.trace <= TestTypes(w, types, exc, st).st.trace
    ensures types != [] ==> Tried(w, types[0], st.trace, TestTypes(w, types, exc, st).st.trace)
    decreases types
  {
    if types != [] {
      var r := GetConst(w, types[0], st);
      if r.Ok? {
        TestsExtend(w, types[1..], exc, r.st);
      }
    }
  }

  lemma {:induction false} RescuesExtend(w: World, rs: seq<Rescue>, names: set<string>, exc: Val, st: State)
    ensures var r := EvalRescues(w, rs, names, exc, st);
      && !r.Timeout? && st.trace <= r.st.trace
      && (rs != [] && RescueTypes(rs[0]) != [] ==> Tried(w, RescueTypes(rs[0])[0], st.trace, r.st.trace))
    decreases rs
  {
    hide TestTypes, RunClause;
    if rs != [] {
      TestsExtend(w, RescueTypes(rs[0]), exc, st);
      match TestTypes(w, RescueTypes(rs[0]), exc, st) {
        case Matched(st') => ClauseEnds(w, rs[0], names, exc, st');
        case Unmatched(st') => RescuesExtend(w, rs[1..], NamesRescue(rs[0], names), exc, st');
        case _ =>
      }
    }
  }

  /** Behind the calls of t, the trace goes on with the lookup of class x. */
  predicate Tried(w: World, x: string, t: seq<Event>, trace: seq<Event>) {
    t + [ConstGetE(w.classContext(w.self), x)] <= trace
  }

  /** A begin with a class to test first: the first of its first clause. */
  predicate TestsFirst(s: Stmt) {
    s.Begin? && s.rescues != [] && RescueTypes(s.rescues[0]) != []
  }

  function FirstTested(s: Stmt): string
    requires TestsFirst(s)
  {
    RescueTypes(s.rescues[0])[0]
  }

  /** The machine has come to m from a begin whose body threw: the clauses, the first of whose
      classes is x, were tried exactly when the call that raised was a method invocation, and
      otherwise the exception has left the unit. */
  ghost predicate TriedIfInvoked(p: Program, x: string, exc: Val, st: State, m: Config) {
    && (m.Run? || m.Threw?)
    && st.trace != [] && p.w.answer(st.trace) == Raises(exc)
    && (Tried(p.w, x, st.trace, m.trace) <==> st.trace[|st.trace| - 1].InvokeE?)
    && (!st.trace[|st.trace| - 1].InvokeE? ==> Thrown(p, exc, st, m))
  }

  /** The same, for a body that has come to b, if it threw. */
  ghost predicate ThrewTo(p: Program, s: Stmt, b: Result, m: Config) {
    TestsFirst(s) && (b.Raise? || b.Escape?) ==> TriedIfInvoked(p, FirstTested(s), b.exc, b.st, m)
  }

  /** A begin, wherever it stands in a program, whose body throws: its clauses are tried, starting
      with the first class of the first, exactly when the call that raised was a method
      invocation. An exception of any other runtime call leaves the unit past them. */
  lemma RescuedIffInvocation(p: Program, s: Stmt, cs: CS, m: Config, st: State, fuel: nat) returns (n: nat, m': Config)
    requires Wf(cs) && WfStmt(s, cs.pad.Some?) && s.Begin? && Linked(p, GenBegin(s, cs).0) && AtEnd(cs, m) && Match(p, st, m)
    ensures m' == Steps(p.w, p.f, m, n)
    ensures ThrewTo(p, s, EvalStmts(p.w, s.bbody, Known(cs), st, fuel), m')
  {
    hide Wf, WfStmts, Linked, MemMatch, GenBegin, Steps, EvalStmts, EvalStmt, Known, Agrees, FirstTested, TriedIfInvoked;
    n, m' := SimBegin(p, s, cs, m, st, fuel);
    var b, r := EvalStmts(p.w, s.bbody, Known(cs), st, fuel), EvalStmt(p.w, s, Known(cs), st, fuel);
    if TestsFirst(s) && (b.Raise? || b.Escape?) {
      BeginTries(p.w, s, Known(cs), st, fuel);
      AgreesTried(p, GenBegin(s, cs).0, GenBegin(s, cs).1, r, m', FirstTested(s), b.exc, b.st);
    }
  }

  ghost predicate TriesIfInvoked(w: World, x: string, exc: Val, st: State, r: Result) {
    && !r.Timeout? && st.trace != [] && w.answer(st.trace) == Raises(exc)
    && (Tried(w, x, st.trace, r.st.trace) <==> st.trace[|st.trace| - 1].InvokeE?)
    && (!st.trace[|st.trace| - 1].InvokeE? ==> r == Escape(exc, st))
  }

  lemma BeginTries(w: World, s: Stmt, sc: Static, st: State, fuel: nat)
    requires TestsFirst(s) && WfStmts(s.bbody, true)
    ensures var b := EvalStmts(w, s.bbody, sc, st, fuel);
      b.Raise? || b.Escape? ==> TriesIfInvoked(w, FirstTested(s), b.exc, b.st, EvalStmt(w, s, sc, st, fuel))
  {
    hide WfStmts, EvalStmts, EvalRescues, StaticStmts, RescueTypes;
    StmtsEnd(w, s.bbody, sc, st, fuel);
    var b := EvalStmts(w, s.bbody, sc, st, fuel);
    if b.Raise? {
      RescuesExtend(w, s.rescues, StaticStmts(s.bbody, sc).names, b.exc, b.st);
    }
  }

  lemma AgreesTried(p: Program, cs: CS, op: Operand, r: Result, m: Config, x: string, exc: Val, st: State)
    requires Agrees(p, cs, op, r, m) && TriesIfInvoked(p.w, x, exc, st, r)
    ensures TriedIfInvoked(p, x, exc, st, m)
  {}

  /** The smallest unit that shows it: a begin whose body is an undefined constant. Whatever its
      clauses are, the exception leaves the unit, and the lookup is the only call made. */
  lemma UndefinedConstantPassesBy(w: World, x: string, rs: seq<Rescue>, exc: Val) returns (n: nat)
    requires WfStmts([Begin([ExprStmt(Const(x))], rs)], false)
    requires w.answer([ConstGetE(w.classContext(w.self), x)]) == Raises(exc)
    ensures var m := Steps(w, CompileUnit([Begin([ExprStmt(Const(x))], rs)]), INITIAL, n);
      m.Threw? && m.thrown == exc && m.trace == [ConstGetE(w.classContext(w.self), x)]
  {
    hide Steps, CompileUnit, EvalRescues;
    var body, sc := [ExprStmt(Const(x))], Static({}, 0);
    var s := Begin(body, rs);
    var ev := ConstGetE(w.classContext(w.self), x);
    assert [] + [ev] == [ev];
    assert EvalStmts(w, body, sc, NOTHING, 0) == EvalStmt(w, body[0], sc, NOTHING, 0) == Escape(exc, State(map[], [ev]));
    assert EvalUnit(w, [s], 0) == EvalStmt(w, [s][0], sc, NOTHING, 0) == Escape(exc, State(map[], [ev]));
    var m;
    n, m := SimUnit(w, [s], 0);
  }
}
