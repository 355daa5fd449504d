/** A direct evaluator for the abstract syntax: the meaning that compiled code must keep. */
module AstEval {
  import opened PupAst
  import opened Runtime
  import opened Ir

  /** What reading the text so far has established: the names assigned textually
      earlier, and the number of while statements passed. */
  datatype Static = Static(names: set<string>, whiles: nat)

  /** vars also holds, for each while statement, the value its body last had. */
  datatype State = State(vars: map<Tag, Val>, trace: seq<Event>)

  /** Raise: a method invocation raised, which an enclosing begin can rescue.
      Escape: some other runtime call raised, which leaves the unit at once. */
  datatype Result = Ok(val: Val, st: State) | Raise(exc: Val, st: State) | Escape(exc: Val, st: State) | Timeout

  datatype ArgsResult = OkArgs(vals: seq<Val>, st: State) | NotOk(res: Result)

  /** What a variable holds before anything is stored in it: a local is a root for the
      collector, and roots are set to null at entry. */
  function Initial(t: Tag): Val {
    if t.Local? then Null else Undef
  }

  function Lookup(st: State, t: Tag): Val {
    if t in st.vars then st.vars[t] else Initial(t)
  }

  function Assign(st: State, t: Tag, v: Val): State {
    st.(vars := st.vars[t := v])
  }

  function Ask(w: World, ev: Event, st: State): Result {
    var st' := st.(trace := st.trace + [ev]);
    match w.answer(st'.trace)
    case Returns(v) => Ok(v, st')
    case Raises(exc) => Escape(exc, st')
  }

  function Send(w: World, recv: Val, meth: string, args: seq<Val>, st: State): Result {
    match Ask(w, InvokeE(recv, meth, args), st)
    case Escape(exc, st') => Raise(exc, st')
    case r => r
  }

  function GetConst(w: World, x: string, st: State): Result {
    Ask(w, ConstGetE(w.classContext(w.self), x), st)
  }

  // ----- the names an expression or statement introduces

  function NamesExpr(e: Expr, names: set<string>): set<string>
    decreases e, 1
  {
    match e
    case Call(recv, _, args) =>
      NamesArgs(args, if recv.Some? then NamesExpr(recv.value, names) else names)
    case Binary(_, _, left, right) => NamesExpr(right, NamesExpr(left, names))
    case AssignLocal(x, rhs) => NamesExpr(rhs, names + {x})
    case AssignInst(_, rhs) => NamesExpr(rhs, names)
    case _ => names
  }

  function NamesArgs(es: seq<Expr>, names: set<string>): set<string>
    decreases es, 0
  {
    if es == [] then names else NamesArgs(es[1..], NamesExpr(es[0], names))
  }

  function NamesRescue(r: Rescue, names: set<string>): set<string> {
    NamesArgs(r.body, if r.varName.Some? then names + {r.varName.value} else names)
  }

  function NamesRescues(rs: seq<Rescue>, names: set<string>): set<string> {
    if rs == [] then names else NamesRescues(rs[1..], NamesRescue(rs[0], names))
  }

  function StaticStmt(s: Stmt, sc: Static): Static
    decreases s, 1
  {
    match s
    case ExprStmt(e) => sc.(names := NamesExpr(e, sc.names))
    case If(c, t, f) => StaticStmts(f, StaticStmts(t, sc.(names := NamesExpr(c, sc.names))))
    case While(c, b) => StaticStmts(b, Static(NamesExpr(c, sc.names), sc.whiles + 1))
    case Begin(b, rs) =>
      var sc' := StaticStmts(b, sc);
      sc'.(names := NamesRescues(rs, sc'.names))
  }

  function StaticStmts(ss: seq<Stmt>, sc: Static): Static
    decreases ss, 0
  {
    if ss == [] then sc else StaticStmts(ss[1..], StaticStmt(ss[0], sc))
  }

  // ----- evaluation

  function EvalExpr(w: World, e: Expr, names: set<string>, st: State): Result
    decreases e, 1
  {
    match e
    case IntLit(n) => Ask(w, FixnumE(n), st)
    case StrLit(s) => Ask(w, StringE(s), st)
    case BoolLit(b) => Ok(if b then w.trueObj else w.falseObj, st)
    case SelfRef => Ok(w.self, st)
    case InstVar(x) => Ask(w, IvGetE(w.self, x), st)
    case Const(x) => GetConst(w, x, st)
    case Name(x) => if x in names then Ok(Lookup(st, Local(x)), st) else Send(w, w.self, x, [], st)
    case Call(recv, m, args) =>
      var r := if recv.Some? then EvalExpr(w, recv.value, names, st) else Ok(w.self, st);
      if !r.Ok? then r else
        var names' := if recv.Some? then NamesExpr(recv.value, names) else names;
        var a := EvalArgs(w, args, names', r.st);
        if a.NotOk? then a.res else Send(w, r.val, m, a.vals, a.st)
    case Binary(kind, op, left, right) =>
      var l := EvalExpr(w, left, names, st);
      if !l.Ok? then l else
        var r := EvalExpr(w, right, NamesExpr(left, names), l.st);
        if !r.Ok? then r else Send(w, l.val, SentMessage(kind, op), [r.val], r.st)
    case AssignLocal(x, rhs) =>
      var r := EvalExpr(w, rhs, names + {x}, st);
      if !r.Ok? then r else Ok(r.val, Assign(r.st, Local(x), r.val))
    case AssignInst(x, rhs) =>
      var r := EvalExpr(w, rhs, names, st);
      if !r.Ok? then r else
        var r' := Ask(w, IvSetE(w.self, x, r.val), r.st);
        if !r'.Ok? then r' else Ok(r.val, r'.st)
  }

  function EvalArgs(w: World, es: seq<Expr>, names: set<string>, st: State): (r: ArgsResult)
    ensures r.OkArgs? ==> |r.vals| == |es|
    ensures r.NotOk? ==> !r.res.Ok?
    decreases es, 0
  {
    if es == [] then OkArgs([], st) else
      var r := EvalExpr(w, es[0], names, st);
      if !r.Ok? then NotOk(r) else
        var a := EvalArgs(w, es[1..], NamesExpr(es[0], names), r.st);
        if a.NotOk? then a else OkArgs([r.val] + a.vals, a.st)
  }

  /** A straight-line body: evaluate each expression, keep the value of the last. */
  function EvalExprs(w: World, es: seq<Expr>, names: set<string>, st: State): Result {
    if es == [] then Ok(Undef, st) else
      var r := EvalExpr(w, es[0], names, st);
      if !r.Ok? || |es| == 1 then r else EvalExprs(w, es[1..], NamesExpr(es[0], names), r.st)
  }

  function EvalStmts(w: World, ss: seq<Stmt>, sc: Static, st: State, fuel: nat): Result
    decreases fuel, ss, 0
  {
    if ss == [] then Ok(Undef, st) else
      var r := EvalStmt(w, ss[0], sc, st, fuel);
      if !r.Ok? || |ss| == 1 then r else EvalStmts(w, ss[1..], StaticStmt(ss[0], sc), r.st, fuel)
  }

  function EvalStmt(w: World, s: Stmt, sc: Static, st: State, fuel: nat): Result
    decreases fuel, s, 1
  {
    match s
    case ExprStmt(e) => EvalExpr(w, e, sc.names, st)
    case If(cond, thn, els) =>
      var c := EvalExpr(w, cond, sc.names, st);
      if !c.Ok? then c else
        var sc1 := sc.(names := NamesExpr(cond, sc.names));
        if c.val != w.falseObj then EvalStmts(w, thn, sc1, c.st, fuel)
        else EvalStmts(w, els, StaticStmts(thn, sc1), c.st, fuel)
    case While(cond, body) => EvalWhile(w, s, sc, st, fuel)
    case Begin(body, rescues) =>
      var r := EvalStmts(w, body, sc, st, fuel);
      if !r.Raise? then r
      else EvalRescues(w, rescues, StaticStmts(body, sc).names, r.exc, r.st)
  }

  /** The value of a while is the one its body last had, undefined if it never ran. */
  function EvalWhile(w: World, s: Stmt, sc: Static, st: State, fuel: nat): Result
    requires s.While?
    decreases fuel, s, 0
  {
    if fuel == 0 then Timeout else
      var c := EvalExpr(w, s.wcond, sc.names, st);
      if !c.Ok? then c
      else if c.val == w.falseObj then Ok(Lookup(c.st, WhileTmp(sc.whiles)), c.st)
      else
        var b := EvalStmts(w, s.body, Static(NamesExpr(s.wcond, sc.names), sc.whiles + 1), c.st, fuel - 1);
        if !b.Ok? then b else
          var p := Ask(w, SafepointE, Assign(b.st, WhileTmp(sc.whiles), b.val));
          if !p.Ok? then p else EvalWhile(w, s, sc, p.st, fuel - 1)
  }

  /** The result of testing the exception against a clause's classes, in order. */
  datatype TestResult = Matched(st: State) | Unmatched(st: State) | TestFailed(exc: Val, st: State)

  function TestTypes(w: World, types: seq<string>, exc: Val, st: State): TestResult {
    if types == [] then Unmatched(st) else
      var r := GetConst(w, types[0], st);
      if !r.Ok? then TestFailed(r.exc, r.st)
      else if IsDescendant(w, r.val, w.classOf(exc)) then Matched(r.st)
      else TestTypes(w, types[1..], exc, r.st)
  }

  function RunClause(w: World, r: Rescue, names: set<string>, exc: Val, st: State): Result {
    var names' := if r.varName.Some? then names + {r.varName.value} else names;
    var st' := if r.varName.Some? then Assign(st, Local(r.varName.value), exc) else st;
    EvalExprs(w, r.body, names', st')
  }

  /** Clauses are tried in source order; an exception that none matches is raised again. */
  function EvalRescues(w: World, rs: seq<Rescue>, names: set<string>, exc: Val, st: State): Result {
    if rs == [] then Raise(exc, st) else
      match TestTypes(w, RescueTypes(rs[0]), exc, st)
      case Matched(st') => RunClause(w, rs[0], names, exc, st')
      case Unmatched(st') => EvalRescues(w, rs[1..], NamesRescue(rs[0], names), exc, st')
      case TestFailed(e, st') => Escape(e, st')
  }
}
