/** The abstract syntax that the parser hands to code generation, restricted to a
    top-level unit: literals, self, instance variables, constants, locals, method
    invocations, if/else, while and begin/rescue. */
module PupAst {
  import opened Options

  /** Which binary expression class the parser built. */
  datatype BinaryKind = Equality | Relational | Additive

  datatype Expr =
    | IntLit(n: int)
    | StrLit(s: string)
    | BoolLit(b: bool)
    | SelfRef
    | InstVar(ivar: string)
    | Const(cname: string)
    | Name(name: string)  // a bare name: a local if one was assigned textually earlier, else a call on self
    | Call(recv: Option<Expr>, meth: string, args: seq<Expr>)
    | Binary(kind: BinaryKind, op: string, left: Expr, right: Expr)
    | AssignLocal(lhs: string, rhs: Expr)
    | AssignInst(ilhs: string, irhs: Expr)

  /** A rescue clause; types == None means that the source named no class.  The
      body is straight-line: a sequence of expressions. */
  datatype Rescue = Rescue(types: Option<seq<string>>, varName: Option<string>, body: seq<Expr>)

  datatype Stmt =
    | ExprStmt(e: Expr)
    | If(cond: Expr, thn: seq<Stmt>, els: seq<Stmt>)
    | While(wcond: Expr, body: seq<Stmt>)
    | Begin(bbody: seq<Stmt>, rescues: seq<Rescue>)

  /** The shape the grammar guarantees (no empty statement list), plus the two
      conditions under which begin/rescue is compiled soundly: at least one
      clause, and no begin inside another. */
  predicate WfStmt(s: Stmt, inBegin: bool)
    decreases s, 1
  {
    match s
    case ExprStmt(_) => true
    case If(_, t, f) => WfStmts(t, inBegin) && WfStmts(f, inBegin)
    case While(_, b) => WfStmts(b, inBegin)
    case Begin(b, rs) => !inBegin && WfStmts(b, true) && rs != [] && forall r :: r in rs ==> r.body != []
  }

  predicate WfStmts(ss: seq<Stmt>, inBegin: bool)
    decreases ss, 0
  {
    ss != [] && WfStmt(ss[0], inBegin) && (|ss| > 1 ==> WfStmts(ss[1..], inBegin))
  }

  /** The message a binary expression sends: equality always sends "==" and
      addition always sends "+", whatever operator was parsed. */
  function SentMessage(kind: BinaryKind, op: string): string {
    match kind
    case Equality => "=="
    case Relational => op
    case Additive => "+"
  }

  predicate OperatorOf(kind: BinaryKind, op: string) {
    match kind
    case Equality => op == "==" || op == "!="
    case Relational => op == "<" || op == "<=" || op == ">" || op == ">="
    case Additive => op == "+" || op == "-"
  }

  /** What is sent: equality always sends "==" and addition always sends "+"; so the operator that
      was written is sent exactly when it is neither "!=" nor "-". */
  lemma OperatorIsSent(kind: BinaryKind, op: string)
    requires OperatorOf(kind, op)
    ensures op == "==" || op == "!=" ==> SentMessage(kind, op) == "=="
    ensures op == "+" || op == "-" ==> SentMessage(kind, op) == "+"
    ensures op == "<" || op == "<=" || op == ">" || op == ">=" ==> SentMessage(kind, op) == op
    ensures SentMessage(kind, op) == op <==> op != "!=" && op != "-"
  {
    assert "!="[0] != "=="[0];
    assert "-"[0] != "+"[0];
  }

  /** The rescue clause that names no class rescues RuntimeError. */
  function RescueTypes(r: Rescue): seq<string> {
    if r.types.Some? then r.types.value else ["RuntimeError"]
  }
}
