/** What compiled code and the evaluator have in common: values, the events of a run
    and the runtime that answers them. */
module Runtime {
  datatype Val =
    | Undef
    | Null
    | Obj(id: nat)
    | SymVal(name: string)
    | Bit(b: bool)
    | Unwinding(exc: Val)  // the unwinder's header around an exception object

  datatype Event =
    | FixnumE(n: int)
    | StringE(s: string)
    | IvGetE(obj: Val, ivar: string)
    | IvSetE(obj: Val, ivar: string, val: Val)
    | ConstGetE(cls: Val, cname: string)
    | InvokeE(recv: Val, meth: string, args: seq<Val>)
    | SafepointE

  datatype Outcome = Returns(val: Val) | Raises(exc: Val)

  /** The answer to an event may depend on the whole run so far, which ends in that event. */
  datatype World = World(
    self: Val,
    trueObj: Val,
    falseObj: Val,
    answer: seq<Event> -> Outcome,
    classContext: Val -> Val,
    classOf: Val -> Val,
    ancestors: Val -> seq<Val>)  // a class followed by its superclasses

  predicate IsDescendant(w: World, ancestor: Val, descendant: Val) {
    ancestor in w.ancestors(descendant)
  }
}
