/** The evaluator: every node evaluates itself against an Environment object.
    Atoms evaluate to themselves, a symbol to its binding, a list by its head:
    `quote` returns its argument, a keyword selects a special form, any other
    symbol is looked up and the list evaluated again with the value in its
    place, a list head is evaluated first, and a closure is applied.

    Environment objects live in a store (see module Environments), so every
    evaluation takes the store and yields the store after it, also when it
    fails: definitions made before an exception stay made. Lisp programs need
    not terminate, so evaluation carries fuel; a list evaluation spends one
    unit and running out is reported as OutOfFuel. */
module Evaluator {
  import opened Results
  import opened Ints
  import opened Nodes
  import Operators
  import opened Environments

  /** The outcome of one evaluation step and the store after it. */
  datatype Out<T> = Out(result: Result<T>, store: Store)

  /** The special forms, in the order Symbol.evaluate tests for them. */
  datatype Form =
    | AtomForm | EqForm | MathForm(op: Operators.MathOp) | LargerThanForm
    | IfForm | DefineForm | LambdaForm | ConsForm | HeadForm | TailForm
    | EmptyForm | CondForm | LetForm | DefnForm

  /** The keyword test chain of Symbol.evaluate(exps, env); None for a name
      that is not a keyword, which is then looked up. */
  function FormOf(name: string): Option<Form>
  {
    if name == "atom" then Some(AtomForm)
    else if name == "eq" then Some(EqForm)
    else if Operators.IsMathOperator(name) then Some(MathForm(Operators.GetOperator(name).value))
    else if Operators.IsLargerThanOperator(name) then Some(LargerThanForm)
    else if name == "if" then Some(IfForm)
    else if name == "define" then Some(DefineForm)
    else if name == "lambda" then Some(LambdaForm)
    else if name == "cons" then Some(ConsForm)
    else if name == "head" then Some(HeadForm)
    else if name == "tail" then Some(TailForm)
    else if name == "empty" then Some(EmptyForm)
    else if name == "cond" then Some(CondForm)
    else if name == "let" then Some(LetForm)
    else if name == "defn" then Some(DefnForm)
    else None
  }

  /** `exps.get(i)`: an IndexOutOfBoundsException past the end. */
  function Arg(exps: seq<Node>, i: nat): (r: Result<Node>)
    ensures r.Ok? <==> i < |exps|
    ensures r.Ok? ==> r.value == exps[i]
    ensures r.Err? ==> r.error == HostError(IndexOutOfBounds)
  {
    if i < |exps| then Ok(exps[i]) else Err(HostError(IndexOutOfBounds))
  }

  /** SList.asSymbols succeeds only when every parameter is a Symbol. */
  predicate AllSymbols(params: seq<Node>)
  {
    forall i :: 0 <= i < |params| ==> params[i].Sym?
  }

  // ---- evaluate and evaluateList --------------------------------------------

  /** Evaluator.evaluate(ast, env). No evaluation removes an environment or
      changes or removes a binding: definitions are write-once. */
  function Eval(n: Node, env: EnvId, st: Store, fuel: nat): (o: Out<Node>)
    requires env < |st|
    ensures Grows(st, o.store)
    decreases fuel, 0, 0
  {
    match n
    case Bool(_) => Out(Ok(n), st)
    case Int(_) => Out(Ok(n), st)
    case Str(_) => Out(Ok(n), st)
    case Sym(name) => Out(Lookup(st[env], name), st)
    case Closure(_, _, _) => Out(Err(HostError(NullResult)), st)
    case List(items) =>
      if |items| == 0 then Out(Err(LispError(EmptyListEvaluated)), st)
      else if items[0] == Quote then Out(Arg(items, 1), st)
      else if fuel == 0 then Out(Err(OutOfFuel), st)
      else EvalList(items, env, st, fuel - 1)
  }

  /** Evaluator.evaluateList: `exps.get(0).evaluate(exps, env)`. */
  function EvalList(exps: seq<Node>, env: EnvId, st: Store, fuel: nat): (o: Out<Node>)
    requires env < |st|
    ensures Grows(st, o.store)
    decreases fuel, 6, 0
  {
    if |exps| == 0 then Out(Err(HostError(IndexOutOfBounds)), st)
    else Call(exps, env, st, fuel)
  }

  /** `evaluate(exps, env)` of the head node: a symbol dispatches, a closure
      is applied, a list is evaluated and replaced by its value, and any
      other node is not a function. */
  function Call(exps: seq<Node>, env: EnvId, st: Store, fuel: nat): (o: Out<Node>)
    requires |exps| > 0 && env < |st|
    ensures Grows(st, o.store)
    decreases fuel, 5, 0
  {
    match exps[0]
    case Sym(name) => SymbolCall(name, exps, env, st, fuel)
    case Closure(cenv, params, body) => Apply(cenv, params, body, exps, env, st, fuel)
    case List(inner) =>
      if fuel == 0 then Out(Err(OutOfFuel), st)
      else
        var h := EvalList(inner, env, st, fuel - 1);
        if h.result.Err? then Out(Err(h.result.error), h.store)
        else
          var o := Call(exps[0 := h.result.value], env, h.store, fuel - 1);
          GrowsTransitive(st, h.store, o.store);
          o
    case _ => Out(Err(LispError(NotAFunction)), st)
  }

  /** Symbol.evaluate(exps, env): a keyword selects its special form and is
      never looked up; any other symbol is looked up, put in place of the
      head, and the list evaluated again. */
  function SymbolCall(name: string, exps: seq<Node>, env: EnvId, st: Store, fuel: nat): (o: Out<Node>)
    requires |exps| > 0 && env < |st|
    ensures Grows(st, o.store)
    decreases fuel, 4, 0
  {
    match FormOf(name)
    case Some(form) => Special(form, exps, env, st, fuel)
    case None =>
      match Lookup(st[env], name)
      case Err(e) => Out(Err(e), st)
      case Ok(val) => Eval(List(exps[0 := val]), env, st, fuel)
  }

  function Special(form: Form, exps: seq<Node>, env: EnvId, st: Store, fuel: nat): (o: Out<Node>)
    requires |exps| > 0 && env < |st|
    ensures Grows(st, o.store)
    decreases fuel, 3, 0
  {
    match form
    case AtomForm => EvalAtom(exps, env, st, fuel)
    case EqForm => EvalEq(exps, env, st, fuel)
    case MathForm(op) => EvalMath(op, exps, env, st, fuel)
    case LargerThanForm => EvalLargerThan(exps, env, st, fuel)
    case IfForm => EvalIf(exps, env, st, fuel)
    case DefineForm => EvalDefine(exps, env, st, fuel)
    case LambdaForm => Out(EvalLambda(exps, env), st)
    case ConsForm => EvalCons(exps, env, st, fuel)
    case HeadForm => EvalHead(exps, env, st, fuel)
    case TailForm => EvalTail(exps, env, st, fuel)
    case EmptyForm => EvalEmpty(exps, env, st, fuel)
    case CondForm => EvalCond(exps, env, st, fuel)
    case LetForm => EvalLet(exps, env, st, fuel)
    case DefnForm => EvalDefn(exps, env, st)
  }

  // ---- closure application --------------------------------------------------

  /** Closure.evaluate(exps, env): the argument count must equal the
      parameter count; with parameters, the arguments are evaluated in the
      caller's environment and bound in a fresh extension of the captured
      one, in which the body runs; without, the body runs in the captured
      environment itself. */
  function Apply(cenv: EnvId, params: seq<Node>, body: Node, exps: seq<Node>,
                 env: EnvId, st: Store, fuel: nat): (o: Out<Node>)
    requires |exps| > 0 && env < |st|
    ensures Grows(st, o.store)
    decreases fuel, 3, 0
  {
    if cenv >= |st| then Out(Err(HostError(DanglingEnvironment)), st)
    else if |params| != |exps| - 1 then Out(Err(LispError(CallArity)), st)
    else if |params| == 0 then Eval(body, cenv, st, fuel)
    else if !AllSymbols(params) then Out(Err(HostError(ClassCast)), st)
    else
      var m := MergeFrom(params, exps, 0, map[], env, st, fuel);
      if m.result.Err? then Out(Err(m.result.error), m.store)
      else
        var (st', callee) := ExtendEnv(m.store, cenv, m.result.value);
        var o := Eval(body, callee, st', fuel);
        GrowsTransitive(st, m.store, st');
        GrowsTransitive(st, st', o.store);
        o
  }

  /** Closure.merge from parameter i on: each argument evaluated in the
      caller's environment and bound to its parameter; a later duplicate
      parameter wins. */
  function MergeFrom(params: seq<Node>, exps: seq<Node>, i: nat, acc: Frame,
                     env: EnvId, st: Store, fuel: nat): (o: Out<Frame>)
    requires |exps| == |params| + 1 && AllSymbols(params) && i <= |params| && env < |st|
    ensures Grows(st, o.store)
    decreases fuel, 1, |params| - i
  {
    if i == |params| then Out(Ok(acc), st)
    else
      var v := Eval(exps[i + 1], env, st, fuel);
      if v.result.Err? then Out(Err(v.result.error), v.store)
      else
        var o := MergeFrom(params, exps, i + 1, acc[params[i].name := v.result.value], env, v.store, fuel);
        GrowsTransitive(st, v.store, o.store);
        o
  }

  // ---- argument helpers -----------------------------------------------------

  /** `evaluate(exps.get(i), env)`. */
  function EvalArg(exps: seq<Node>, i: nat, env: EnvId, st: Store, fuel: nat): (o: Out<Node>)
    requires env < |st|
    ensures Grows(st, o.store)
    decreases fuel, 0, 1
  {
    if i < |exps| then Eval(exps[i], env, st, fuel) else Out(Err(HostError(IndexOutOfBounds)), st)
  }

  /** evaluateNumber: the argument's value must be an Int. */
  function EvalNumber(exps: seq<Node>, i: nat, env: EnvId, st: Store, fuel: nat): (o: Out<i32>)
    requires env < |st|
    ensures Grows(st, o.store)
    decreases fuel, 0, 2
  {
    var a := EvalArg(exps, i, env, st, fuel);
    if a.result.Err? then Out(Err(a.result.error), a.store)
    else if a.result.value.Int? then Out(Ok(a.result.value.v), a.store)
    else Out(Err(LispError(NotANumber)), a.store)
  }

  /** evaluateBoolean: the argument's value must be a Bool. */
  function EvalBoolean(exps: seq<Node>, i: nat, env: EnvId, st: Store, fuel: nat): (o: Out<bool>)
    requires env < |st|
    ensures Grows(st, o.store)
    decreases fuel, 0, 2
  {
    var a := EvalArg(exps, i, env, st, fuel);
    if a.result.Err? then Out(Err(a.result.error), a.store)
    else if a.result.value.Bool? then Out(Ok(a.result.value.b), a.store)
    else Out(Err(LispError(NotABool)), a.store)
  }

  // ---- the special forms ----------------------------------------------------

  function EvalAtom(exps: seq<Node>, env: EnvId, st: Store, fuel: nat): (o: Out<Node>)
    requires env < |st|
    ensures Grows(st, o.store)
    decreases fuel, 2, 0
  {
    var a := EvalArg(exps, 1, env, st, fuel);
    if a.result.Err? then a else Out(Ok(Bool(IsAtom(a.result.value))), a.store)
  }

  /** eq: #t exactly when the first value is an atom equal to the second. */
  function EvalEq(exps: seq<Node>, env: EnvId, st: Store, fuel: nat): (o: Out<Node>)
    requires env < |st|
    ensures Grows(st, o.store)
    decreases fuel, 2, 0
  {
    var a := EvalArg(exps, 1, env, st, fuel);
    if a.result.Err? then a
    else
      var b := EvalArg(exps, 2, env, a.store, fuel);
      GrowsTransitive(st, a.store, b.store);
      if b.result.Err? then b
      else Out(Ok(Bool(a.result.value == b.result.value && IsAtom(a.result.value))), b.store)
  }

  function EvalMath(op: Operators.MathOp, exps: seq<Node>, env: EnvId, st: Store, fuel: nat): (o: Out<Node>)
    requires env < |st|
    ensures Grows(st, o.store)
    decreases fuel, 2, 0
  {
    var a := EvalNumber(exps, 1, env, st, fuel);
    if a.result.Err? then Out(Err(a.result.error), a.store)
    else
      var b := EvalNumber(exps, 2, env, a.store, fuel);
      GrowsTransitive(st, a.store, b.store);
      if b.result.Err? then Out(Err(b.result.error), b.store)
      else
        match Operators.Apply(op, a.result.value, b.result.value)
        case Err(e) => Out(Err(e), b.store)
        case Ok(v) => Out(Ok(Int(v)), b.store)
  }

  /** `>` (evaluateBooleanMath): strict comparison of two Ints. */
  function EvalLargerThan(exps: seq<Node>, env: EnvId, st: Store, fuel: nat): (o: Out<Node>)
    requires env < |st|
    ensures Grows(st, o.store)
    decreases fuel, 2, 0
  {
    var a := EvalNumber(exps, 1, env, st, fuel);
    if a.result.Err? then Out(Err(a.result.error), a.store)
    else
      var b := EvalNumber(exps, 2, env, a.store, fuel);
      GrowsTransitive(st, a.store, b.store);
      if b.result.Err? then Out(Err(b.result.error), b.store)
      else Out(Ok(Bool(LargerThan(a.result.value, b.result.value))), b.store)
  }

  /** if: the condition must be a Bool; both branches must be present (they
      are fetched before the choice), and only the chosen one is evaluated. */
  function EvalIf(exps: seq<Node>, env: EnvId, st: Store, fuel: nat): (o: Out<Node>)
    requires env < |st|
    ensures Grows(st, o.store)
    decreases fuel, 2, 0
  {
    var c := EvalBoolean(exps, 1, env, st, fuel);
    if c.result.Err? then Out(Err(c.result.error), c.store)
    else if |exps| < 4 then Out(Err(HostError(IndexOutOfBounds)), c.store)
    else
      var o := Eval(if c.result.value then exps[2] else exps[3], env, c.store, fuel);
      GrowsTransitive(st, c.store, o.store);
      o
  }

  /** define: exactly two arguments, the first a Symbol; the value is
      evaluated and then bound by `set`, which refuses a bound name. */
  function EvalDefine(exps: seq<Node>, env: EnvId, st: Store, fuel: nat): (o: Out<Node>)
    requires env < |st|
    ensures Grows(st, o.store)
    decreases fuel, 2, 0
  {
    if |exps| != 3 then Out(Err(LispError(DefineArity)), st)
    else if !exps[1].Sym? then Out(Err(LispError(NotASymbol)), st)
    else
      var v := Eval(exps[2], env, st, fuel);
      if v.result.Err? then v
      else
        match Define(v.store, env, exps[1].name, v.result.value)
        case Err(e) => Out(Err(e), v.store)
        case Ok(st') =>
          GrowsTransitive(st, v.store, st');
          Out(Ok(exps[1]), st')
  }

  /** lambda: exactly two arguments, the first a list; the closure keeps the
      current environment and the unevaluated body. */
  function EvalLambda(exps: seq<Node>, env: EnvId): (r: Result<Node>)
    ensures r.Ok? <==> |exps| == 3 && exps[1].List?
    ensures r.Ok? ==> r.value == Closure(env, exps[1].items, exps[2])
    ensures |exps| != 3 ==> r == Err(LispError(LambdaArity))
    ensures |exps| == 3 && !exps[1].List? ==> r == Err(LispError(NotAList))
  {
    if |exps| != 3 then Err(LispError(LambdaArity))
    else if !exps[1].List? then Err(LispError(NotAList))
    else Ok(Closure(env, exps[1].items, exps[2]))
  }

  /** cons: onto a list it prepends; otherwise both values must be strings,
      the tail checked first, and they are concatenated. */
  function EvalCons(exps: seq<Node>, env: EnvId, st: Store, fuel: nat): (o: Out<Node>)
    requires env < |st|
    ensures Grows(st, o.store)
    decreases fuel, 2, 0
  {
    var h := EvalArg(exps, 1, env, st, fuel);
    if h.result.Err? then h
    else
      var t := EvalArg(exps, 2, env, h.store, fuel);
      GrowsTransitive(st, h.store, t.store);
      if t.result.Err? then t
      else Out(ConsValues(h.result.value, t.result.value), t.store)
  }

  function ConsValues(h: Node, t: Node): (r: Result<Node>)
    ensures t.List? ==> r == Ok(Cons(t.items, h))
    ensures t.Str? && h.Str? ==> r == Ok(StrCons(h.s, t.s))
    ensures r.Err? <==> !t.List? && !(t.Str? && h.Str?)
    ensures r.Err? ==> r.error == LispError(NotAString)
  {
    if t.List? then Ok(Cons(t.items, h))
    else if !t.Str? || !h.Str? then Err(LispError(NotAString))
    else Ok(StrCons(h.s, t.s))
  }

  function EvalHead(exps: seq<Node>, env: EnvId, st: Store, fuel: nat): (o: Out<Node>)
    requires env < |st|
    ensures Grows(st, o.store)
    decreases fuel, 2, 0
  {
    var a := EvalArg(exps, 1, env, st, fuel);
    if a.result.Err? then a
    else if a.result.value.List? then Out(Head(a.result.value.items), a.store)
    else if a.result.value.Str? then Out(StrHead(a.result.value.s), a.store)
    else Out(Err(LispError(NotAString)), a.store)
  }

  function EvalTail(exps: seq<Node>, env: EnvId, st: Store, fuel: nat): (o: Out<Node>)
    requires env < |st|
    ensures Grows(st, o.store)
    decreases fuel, 2, 0
  {
    var a := EvalArg(exps, 1, env, st, fuel);
    if a.result.Err? then a
    else if a.result.value.List? then Out(Tail(a.result.value.items), a.store)
    else if a.result.value.Str? then Out(StrTail(a.result.value.s), a.store)
    else Out(Err(LispError(NotAString)), a.store)
  }

  function EvalEmpty(exps: seq<Node>, env: EnvId, st: Store, fuel: nat): (o: Out<Node>)
    requires env < |st|
    ensures Grows(st, o.store)
    decreases fuel, 2, 0
  {
    var a := EvalArg(exps, 1, env, st, fuel);
    if a.result.Err? then a
    else if a.result.value.List? then Out(Ok(IsEmpty(a.result.value.items)), a.store)
    else if a.result.value.Str? then Out(Ok(IsEmpty(a.result.value.s)), a.store)
    else Out(Err(LispError(NotAString)), a.store)
  }

  /** cond: the clause list itself is not evaluated. */
  function EvalCond(exps: seq<Node>, env: EnvId, st: Store, fuel: nat): (o: Out<Node>)
    requires env < |st|
    ensures Grows(st, o.store)
    decreases fuel, 2, 0
  {
    if |exps| < 2 then Out(Err(HostError(IndexOutOfBounds)), st)
    else if !exps[1].List? then Out(Err(LispError(NotAList)), st)
    else CondFrom(exps[1].items, 0, env, st, fuel)
  }

  /** The loop of evaluateCond from clause i on: each clause must be a list
      whose condition evaluates to a Bool; the first true one gives the value
      of its expression, and #f when none is true. */
  function CondFrom(clauses: seq<Node>, i: nat, env: EnvId, st: Store, fuel: nat): (o: Out<Node>)
    requires i <= |clauses| && env < |st|
    ensures Grows(st, o.store)
    decreases fuel, 1, |clauses| - i
  {
    if i == |clauses| then Out(Ok(Bool(false)), st)
    else if !clauses[i].List? then Out(Err(LispError(NotAList)), st)
    else
      var c := EvalBoolean(clauses[i].items, 0, env, st, fuel);
      if c.result.Err? then Out(Err(c.result.error), c.store)
      else
        var o := if c.result.value then EvalArg(clauses[i].items, 1, env, c.store, fuel)
                 else CondFrom(clauses, i + 1, env, c.store, fuel);
        GrowsTransitive(st, c.store, o.store);
        o
  }

  /** let: the bindings are taken one by one, then the body is evaluated in
      the last environment. */
  function EvalLet(exps: seq<Node>, env: EnvId, st: Store, fuel: nat): (o: Out<Node>)
    requires env < |st|
    ensures Grows(st, o.store)
    decreases fuel, 2, 0
  {
    if |exps| < 2 then Out(Err(HostError(IndexOutOfBounds)), st)
    else if !exps[1].List? then Out(Err(LispError(NotAList)), st)
    else
      var b := LetFrom(exps[1].items, 0, env, st, fuel);
      if b.result.Err? then Out(Err(b.result.error), b.store)
      else
        var o := EvalArg(exps, 2, b.result.value, b.store, fuel);
        GrowsTransitive(st, b.store, o.store);
        o
  }

  /** The loop of evaluateLet from binding i on. Yields the final
      environment. */
  function LetFrom(bindings: seq<Node>, i: nat, env: EnvId, st: Store, fuel: nat): (o: Out<EnvId>)
    requires i <= |bindings| && env < |st|
    ensures Grows(st, o.store)
    ensures o.result.Ok? ==> o.result.value < |o.store|
    decreases fuel, 1, |bindings| - i
  {
    if i == |bindings| then Out(Ok(env), st)
    else
      var s := LetBind(bindings[i], env, st, fuel);
      if s.result.Err? then s
      else
        var o := LetFrom(bindings, i + 1, s.result.value, s.store, fuel);
        GrowsTransitive(st, s.store, o.store);
        o
  }

  /** One binding of evaluateLet: a list of a Symbol and an expression; the
      expression is evaluated in the current environment, and the result is
      a fresh extension of it with that one binding. */
  function LetBind(binding: Node, env: EnvId, st: Store, fuel: nat): (o: Out<EnvId>)
    requires env < |st|
    ensures Grows(st, o.store)
    ensures o.result.Ok? ==> o.result.value < |o.store|
    decreases fuel, 0, 3
  {
    if !binding.List? then Out(Err(LispError(NotAList)), st)
    else
      var items := binding.items;
      if |items| == 0 then Out(Err(HostError(IndexOutOfBounds)), st)
      else if !items[0].Sym? then Out(Err(LispError(NotASymbol)), st)
      else
        var v := EvalArg(items, 1, env, st, fuel);
        if v.result.Err? then Out(Err(v.result.error), v.store)
        else
          var (st', env') := ExtendEnv(v.store, env, map[items[0].name := v.result.value]);
          GrowsTransitive(st, v.store, st');
          Out(Ok(env'), st')
  }

  /** defn: `(defn name params body)` builds the lambda from the last two
      arguments, then binds it under the name; the closure is returned. */
  function EvalDefn(exps: seq<Node>, env: EnvId, st: Store): (o: Out<Node>)
    requires |exps| > 0 && env < |st|
    ensures Grows(st, o.store)
  {
    match EvalLambda(exps[1..], env)
    case Err(e) => Out(Err(e), st)
    case Ok(closure) =>
      if !exps[1].Sym? then Out(Err(LispError(NotASymbol)), st)
      else
        match Define(st, env, exps[1].name, closure)
        case Err(e) => Out(Err(e), st)
        case Ok(st') => Out(Ok(closure), st')
  }

  // ---- the loops of Evaluator and Closure, as the source writes them --------

  /** evaluateCond's loop over the clauses. */
  method EvaluateCond(clauses: seq<Node>, env: EnvId, st: Store, fuel: nat) returns (o: Out<Node>)
    requires env < |st|
    ensures o == CondFrom(clauses, 0, env, st, fuel)
  {
    var store := st;
    for i := 0 to |clauses|
      invariant env < |store|
      invariant CondFrom(clauses, i, env, store, fuel) == CondFrom(clauses, 0, env, st, fuel)
    {
      if !clauses[i].List? {
        return Out(Err(LispError(NotAList)), store);
      }
      var c := EvalBoolean(clauses[i].items, 0, env, store, fuel);
      if c.result.Err? {
        return Out(Err(c.result.error), c.store);
      }
      if c.result.value {
        return EvalArg(clauses[i].items, 1, env, c.store, fuel);
      }
      store := c.store;
    }
    return Out(Ok(Bool(false)), store);
  }

  /** evaluateLet's loop over the bindings; yields the final environment. */
  method EvaluateLet(bindings: seq<Node>, env: EnvId, st: Store, fuel: nat) returns (o: Out<EnvId>)
    requires env < |st|
    ensures o == LetFrom(bindings, 0, env, st, fuel)
  {
    var store: Store, current: EnvId := st, env;
    for i := 0 to |bindings|
      invariant current < |store|
      invariant LetFrom(bindings, i, current, store, fuel) == LetFrom(bindings, 0, env, st, fuel)
    {
      var s := LetBind(bindings[i], current, store, fuel);
      if s.result.Err? {
        return s;
      }
      store, current := s.store, s.result.value;
    }
    return Out(Ok(current), store);
  }

  /** Closure.merge: walks parameters and arguments together, evaluating
      each argument in the caller's environment. */
  method Merge(params: seq<Node>, exps: seq<Node>, env: EnvId, st: Store, fuel: nat) returns (o: Out<Frame>)
    requires |exps| == |params| + 1 && AllSymbols(params) && env < |st|
    ensures o == MergeFrom(params, exps, 0, map[], env, st, fuel)
  {
    var vars: Frame := map[];
    var store := st;
    for i := 0 to |params|
      invariant env < |store|
      invariant MergeFrom(params, exps, i, vars, env, store, fuel) == MergeFrom(params, exps, 0, map[], env, st, fuel)
    {
      var v := Eval(exps[i + 1], env, store, fuel);
      if v.result.Err? {
        return Out(Err(v.result.error), v.store);
      }
      vars := vars[params[i].name := v.result.value];
      store := v.store;
    }
    return Out(Ok(vars), store);
  }
}
