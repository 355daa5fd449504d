/** Small units, taken as they are written: which message an operator sends, and which exceptions
    a clause rescues. */
module UnitExamples {
  import opened AstEval
  import opened Classes
  import opened Codegen
  import opened Machine
  import opened Options
  import opened PupAst
  import opened RescueProof
  import opened Runtime
  import opened UnitProof

  // ----- operators

  /** A unit that is one operator between any two expressions: when both have their values, the
      next call of the compiled unit is the message, to the left value with the right one, and it
      is the last. */
  lemma BinarySends(w: World, kind: BinaryKind, op: string, l: Expr, r: Expr, message: string) returns (n: nat)
    requires OperatorOf(kind, op)
    requires message == if op == "==" || op == "!=" then "==" else if op == "+" || op == "-" then "+" else op
    requires var left := EvalExpr(w, l, {}, NOTHING); left.Ok? && EvalExpr(w, r, NamesExpr(l, {}), left.st).Ok?
    ensures var left := EvalExpr(w, l, {}, NOTHING);
      var right := EvalExpr(w, r, NamesExpr(l, {}), left.st);
      var trace := right.st.trace + [InvokeE(left.val, message, [right.val])];
      var m := Steps(w, CompileUnit([ExprStmt(Binary(kind, op, l, r))]), INITIAL, n);
      match w.answer(trace)
      case Returns(v) => m.Returned? && m.val == v && m.trace == trace
      case Raises(exc) => m.Threw? && m.thrown == exc && m.trace == trace
  {
    hide Steps, CompileUnit, SentMessage;
    OperatorIsSent(kind, op);
    Literals();
    var unit := [ExprStmt(Binary(kind, op, l, r))];
    assert EvalUnit(w, unit, 0) == EvalStmt(w, unit[0], Static({}, 0), NOTHING, 0) == EvalExpr(w, Binary(kind, op, l, r), {}, NOTHING);
    var m;
    n, m := SimUnit(w, unit, 0);
  }

  lemma Literals()
    ensures "<" != "==" && "<" != "!=" && "<" != "+" && "<" != "-" && "<=" != "==" && "<=" != "!=" && "<=" != "+" && "<=" != "-"
    ensures ">" != "==" && ">" != "!=" && ">" != "+" && ">" != "-" && ">=" != "==" && ">=" != "!=" && ">=" != "+" && ">=" != "-"
    ensures "+" != "==" && "+" != "!=" && "-" != "==" && "-" != "!="
  {
    assert "<"[0] == '<' && ">"[0] == '>' && "<="[0] == '<' && ">="[0] == '>' && "=="[0] == '=' && "!="[0] == '!' && "+"[0] == '+' && "-"[0] == '-';
  }

  /** Every form of statement has its place: a unit of any expressions in an if, a while in one arm
      and a begin with any clause in the other. */
  lemma EveryFormCompiles(c: Expr, e: Expr, types: Option<seq<string>>, x: Option<string>)
    ensures WfStmts([ExprStmt(e), If(c, [While(c, [If(c, [ExprStmt(e)], [ExprStmt(e)])])],
                                     [Begin([While(c, [ExprStmt(e)]), ExprStmt(e)], [Rescue(types, x, [e]), Rescue(None, None, [e, c])])])], false)
  {
    var one, loop := [ExprStmt(e)], While(c, [ExprStmt(e)]);
    assert WfStmts(one, true) && WfStmts(one, false);
    assert WfStmts([If(c, one, one)], false);
    assert WfStmts([While(c, [If(c, one, one)])], false);
    var body := [loop, ExprStmt(e)];
    assert body[1..] == one && WfStmts(body, true);
    var begin := Begin(body, [Rescue(types, x, [e]), Rescue(None, None, [e, c])]);
    assert WfStmts([begin], false);
    var branch := If(c, [While(c, [If(c, one, one)])], [begin]);
    assert WfStmts([branch], false);
    assert [ExprStmt(e), branch][1..] == [branch];
  }

  // ----- classes

  /** The world's list of ancestors of a class is its chain of superclasses. */
  ghost predicate Describes(w: World, val: PupClass -> Val, c: PupClass) {
    && |w.ancestors(val(c))| == |c.Chain()|
    && forall i :: 0 <= i < |c.Chain()| ==> w.ancestors(val(c))[i] == val(c.Chain()[i])
  }

  /** The test that is compiled for a listed class answers what walking the superclass chain from
      the exception's class does (Classes.IsDescendantOrSame). */
  lemma TestFollowsSuperclasses(w: World, val: PupClass -> Val, cls: string -> Val, x: string, exc: Val, listed: PupClass, c: PupClass)
    requires Describes(w, val, c) && w.classOf(exc) == val(c) && cls(x) == val(listed)
    requires forall a :: a in c.Chain() && val(a) == val(listed) ==> a == listed
    ensures Catches(w, cls, x, exc) <==> listed in c.Chain()
    ensures IsDescendant(w, cls(x), w.classOf(exc)) <==> listed in c.Chain()
  {
    if i :| 0 <= i < |c.Chain()| && c.Chain()[i] == listed {
      assert w.ancestors(val(c))[i] == val(listed);
    }
    if j :| 0 <= j < |w.ancestors(val(c))| && w.ancestors(val(c))[j] == val(listed) {
      assert c.Chain()[j] in c.Chain();
    }
  }

  /** A begin that calls a method and whose one clause yields self. */
  function RescueUnit(types: Option<seq<string>>): (unit: seq<Stmt>)
    ensures WfStmts(unit, false)
  {
    var body := [ExprStmt(Call(None, "m", []))];
    assert WfStmts(body, true);
    [Begin(body, [Rescue(types, None, [SelfRef])])]
  }

  /** The class that the clause is tested against. */
  function Named(types: Option<seq<string>>): string
    requires types.Some? ==> |types.value| == 1
  {
    if types.Some? then types.value[0] else "RuntimeError"
  }

  lemma BodyRaises(w: World, exc: Val)
    requires w.answer([InvokeE(w.self, "m", [])]) == Raises(exc)
    ensures EvalStmts(w, [ExprStmt(Call(None, "m", []))], Static({}, 0), NOTHING, 0) == Raise(exc, State(map[], [InvokeE(w.self, "m", [])]))
  {
    var e := Call(None, "m", []);
    assert [] + [InvokeE(w.self, "m", [])] == [InvokeE(w.self, "m", [])];
    assert EvalArgs(w, [], {}, NOTHING) == OkArgs([], NOTHING);
    assert EvalExpr(w, e, {}, NOTHING) == Raise(exc, State(map[], [InvokeE(w.self, "m", [])]));
    assert EvalStmts(w, [ExprStmt(e)], Static({}, 0), NOTHING, 0) == EvalStmt(w, [ExprStmt(e)][0], Static({}, 0), NOTHING, 0);
  }

  lemma ClauseDecides(w: World, types: Option<seq<string>>, exc: Val, listed: Val, t: Event)
    requires types.Some? ==> |types.value| == 1
    requires w.answer([t, ConstGetE(w.classContext(w.self), Named(types))]) == Returns(listed)
    ensures var st := State(map[], [t, ConstGetE(w.classContext(w.self), Named(types))]);
      EvalRescues(w, [Rescue(types, None, [SelfRef])], {}, exc, State(map[], [t]))
      == if listed in w.ancestors(w.classOf(exc)) then Ok(w.self, st) else Raise(exc, st)
  {
    var r, x := Rescue(types, None, [SelfRef]), Named(types);
    var looked := ConstGetE(w.classContext(w.self), x);
    var st := State(map[], [t, looked]);
    assert [t] + [looked] == [t, looked];
    assert RescueTypes(r) == [x];
    assert GetConst(w, x, State(map[], [t])) == Ok(listed, st);
    assert TestTypes(w, [x], exc, State(map[], [t])) ==
      if listed in w.ancestors(w.classOf(exc)) then Matched(st) else TestTypes(w, [x][1..], exc, st);
    assert RunClause(w, r, {}, exc, st) == EvalExprs(w, [SelfRef], {}, st) == Ok(w.self, st);
    assert [r][1..] == [];
  }

  /** The method raises. The class that the clause names, or RuntimeError when it names none, is
      looked up; the clause rescues the exception if and only if that class is the exception's
      class or above it. */
  lemma ListedAncestorRescues(w: World, types: Option<seq<string>>, exc: Val, listed: Val) returns (n: nat)
    requires types.Some? ==> |types.value| == 1
    requires w.answer([InvokeE(w.self, "m", [])]) == Raises(exc)
    requires w.answer([InvokeE(w.self, "m", []), ConstGetE(w.classContext(w.self), Named(types))]) == Returns(listed)
    ensures var m := Steps(w, CompileUnit(RescueUnit(types)), INITIAL, n);
      && (if listed in w.ancestors(w.classOf(exc)) then m.Returned? && m.val == w.self else m.Threw? && m.thrown == exc)
      && m.trace == [InvokeE(w.self, "m", []), ConstGetE(w.classContext(w.self), Named(types))]
  {
    hide Steps, CompileUnit, EvalStmts, EvalRescues;
    var unit, sc := RescueUnit(types), Static({}, 0);
    BodyRaises(w, exc);
    ClauseDecides(w, types, exc, listed, InvokeE(w.self, "m", []));
    NoNames();
    UnitIsStmt(w, unit[0]);
    var m;
    n, m := SimUnit(w, unit, 0);
  }

  lemma NoNames()
    ensures StaticStmts([ExprStmt(Call(None, "m", []))], Static({}, 0)).names == {}
  {
    assert NamesArgs([], {}) == {};
    assert NamesExpr(Call(None, "m", []), {}) == {};
    assert [ExprStmt(Call(None, "m", []))][1..] == [];
  }

  lemma UnitIsStmt(w: World, s: Stmt)
    ensures EvalUnit(w, [s], 0) == EvalStmt(w, s, Static({}, 0), NOTHING, 0)
  {
    assert EvalStmts(w, [s], Static({}, 0), NOTHING, 0) == EvalStmt(w, [s][0], Static({}, 0), NOTHING, 0);
  }
}
