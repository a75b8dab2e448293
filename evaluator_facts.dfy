/** What the evaluator promises, stated over the model in module Evaluator:
    the dispatch of keywords, the special forms, closure application, let
    and cond, and the arithmetic and comparison primitives. */
module EvaluatorFacts {
  import opened Results
  import opened Ints
  import opened Nodes
  import Operators
  import opened Environments
  import opened Evaluator

  // ---- expressions whose value needs no evaluation step ---------------------

  /** A literal atom, a bound symbol, or a quoted expression. */
  predicate Simple(n: Node, f: Frame)
  {
    n.Bool? || n.Int? || n.Str? || (n.Sym? && n.name in f)
    || (n.List? && |n.items| >= 2 && n.items[0] == Quote)
  }

  /** Its value in frame f. */
  function Value(n: Node, f: Frame): Node
    requires Simple(n, f)
  {
    if n.Sym? then f[n.name] else if n.List? then n.items[1] else n
  }

  /** A simple expression evaluates to its value at any fuel and changes no
      environment. */
  lemma EvalSimple(n: Node, env: EnvId, st: Store, fuel: nat)
    requires env < |st| && Simple(n, st[env])
    ensures Eval(n, env, st, fuel) == Out(Ok(Value(n, st[env])), st)
  {
  }

  /** A simple argument, fetched as a value, as a number or as a Bool. */
  lemma SimpleArg(exps: seq<Node>, i: nat, env: EnvId, st: Store, fuel: nat)
    requires env < |st| && i < |exps| && Simple(exps[i], st[env])
    ensures EvalArg(exps, i, env, st, fuel) == Out(Ok(Value(exps[i], st[env])), st)
    ensures var v := Value(exps[i], st[env]);
      EvalNumber(exps, i, env, st, fuel) ==
        if v.Int? then Out(Ok(v.v), st) else Out(Err(LispError(NotANumber)), st)
    ensures var v := Value(exps[i], st[env]);
      EvalBoolean(exps, i, env, st, fuel) ==
        if v.Bool? then Out(Ok(v.b), st) else Out(Err(LispError(NotABool)), st)
  {
    EvalSimple(exps[i], env, st, fuel);
  }

  // ---- dispatch ---------------------------------------------------------------

  /** The keywords are exactly the names Symbol.evaluate tests for; `quote`
      is not among them (SList handles it before any dispatch). */
  lemma KeywordTable(name: string)
    ensures FormOf(name).Some? <==>
      name in {"atom", "eq", "+", "-", "*", "/", "mod", ">", "if", "define",
               "lambda", "cons", "head", "tail", "empty", "cond", "let", "defn"}
    ensures FormOf("quote").None?
  {
  }

  /** Evaluating a list that is not a quotation spends one unit of fuel and
      hands the list to its head. */
  lemma ListStep(exps: seq<Node>, env: EnvId, st: Store, fuel: nat)
    requires fuel > 0 && env < |st| && |exps| > 0 && exps[0] != Quote
    ensures Eval(List(exps), env, st, fuel) == Call(exps, env, st, fuel - 1)
  {
    assert Eval(List(exps), env, st, fuel) == EvalList(exps, env, st, fuel - 1);
  }

  /** A list headed by a keyword runs that keyword's special form, whatever
      the environment binds the keyword to. */
  lemma KeywordCall(exps: seq<Node>, env: EnvId, st: Store, fuel: nat)
    requires fuel > 0 && env < |st| && |exps| > 0 && exps[0].Sym? && FormOf(exps[0].name).Some?
    ensures Eval(List(exps), env, st, fuel) == Special(FormOf(exps[0].name).value, exps, env, st, fuel - 1)
  {
    assert exps[0] != Quote by { KeywordTable(exps[0].name); }
    ListStep(exps, env, st, fuel);
    assert Call(exps, env, st, fuel - 1) == SymbolCall(exps[0].name, exps, env, st, fuel - 1);
  }

  /** A head symbol that is neither a keyword nor `quote` nor bound raises
      the unbound-symbol error and changes nothing. */
  lemma UnboundHead(exps: seq<Node>, env: EnvId, st: Store, fuel: nat)
    requires fuel > 0 && env < |st| && |exps| > 0 && exps[0].Sym?
    requires exps[0].name != "quote" && FormOf(exps[0].name).None? && exps[0].name !in st[env]
    ensures Eval(List(exps), env, st, fuel) == Out(Err(LispError(UnboundSymbol(exps[0].name))), st)
  {
    ListStep(exps, env, st, fuel);
    assert Call(exps, env, st, fuel - 1) == SymbolCall(exps[0].name, exps, env, st, fuel - 1);
  }

  /** A Bool, Int or Str in head position is not a function. */
  lemma AtomHeadNotAFunction(exps: seq<Node>, env: EnvId, st: Store, fuel: nat)
    requires fuel > 0 && env < |st| && |exps| > 0
    requires exps[0].Bool? || exps[0].Int? || exps[0].Str?
    ensures Eval(List(exps), env, st, fuel) == Out(Err(LispError(NotAFunction)), st)
  {
    ListStep(exps, env, st, fuel);
  }

  /** A bound head symbol is replaced by its value and the list evaluated
      again; for a closure that means applying it to the arguments as they
      are written. */
  lemma CallThroughSymbol(name: string, args: seq<Node>, env: EnvId, st: Store, fuel: nat)
    requires fuel >= 2 && env < |st| && name != "quote" && FormOf(name).None?
    requires name in st[env] && st[env][name].Closure?
    ensures var c := st[env][name];
      Eval(List([Sym(name)] + args), env, st, fuel) ==
        Apply(c.env, c.params, c.body, [c] + args, env, st, fuel - 2)
  {
    var c := st[env][name];
    var exps := [Sym(name)] + args;
    ListStep(exps, env, st, fuel);
    assert Call(exps, env, st, fuel - 1) == SymbolCall(name, exps, env, st, fuel - 1);
    assert exps[0 := c] == [c] + args;
    assert ([c] + args)[0] == c;
    assert SymbolCall(name, exps, env, st, fuel - 1) == Eval(List([c] + args), env, st, fuel - 1);
    ListStep([c] + args, env, st, fuel - 1);
  }

  // ---- if ---------------------------------------------------------------------

  /** `(if c e2 e3)`: the condition is evaluated first and must be a Bool;
      then exactly the chosen branch is evaluated, in the store the
      condition left. */
  lemma IfChoosesBranch(c: Node, e2: Node, e3: Node, env: EnvId, st: Store, fuel: nat)
    requires fuel > 0 && env < |st|
    ensures var cv := Eval(c, env, st, fuel - 1);
      Eval(List([Sym("if"), c, e2, e3]), env, st, fuel) ==
        if cv.result.Err? then Out(Err(cv.result.error), cv.store)
        else if !cv.result.value.Bool? then Out(Err(LispError(NotABool)), cv.store)
        else Eval(if cv.result.value.b then e2 else e3, env, cv.store, fuel - 1)
  {
    var exps := [Sym("if"), c, e2, e3];
    KeywordCall(exps, env, st, fuel);
    assert FormOf("if") == Some(IfForm);
    assert Special(IfForm, exps, env, st, fuel - 1) == EvalIf(exps, env, st, fuel - 1);
    assert EvalArg(exps, 1, env, st, fuel - 1) == Eval(c, env, st, fuel - 1);
    var cv := Eval(c, env, st, fuel - 1);
    var cb := EvalBoolean(exps, 1, env, st, fuel - 1);
    assert cb.store == cv.store;
    assert cv.result.Err? ==> cb.result == Err(cv.result.error);
    assert cv.result.Ok? && !cv.result.value.Bool? ==> cb.result == Err(LispError(NotABool));
    assert cv.result.Ok? && cv.result.value.Bool? ==> cb.result == Ok(cv.result.value.b);
  }

  /** The branch not taken is never evaluated: replacing it changes nothing. */
  lemma IfIgnoresUntakenBranch(c: Node, e2: Node, e3: Node, other: Node, env: EnvId, st: Store, fuel: nat)
    requires fuel > 0 && env < |st|
    ensures Eval(c, env, st, fuel - 1).result == Ok(Bool(true)) ==>
      Eval(List([Sym("if"), c, e2, e3]), env, st, fuel) == Eval(List([Sym("if"), c, e2, other]), env, st, fuel)
    ensures Eval(c, env, st, fuel - 1).result == Ok(Bool(false)) ==>
      Eval(List([Sym("if"), c, e2, e3]), env, st, fuel) == Eval(List([Sym("if"), c, other, e3]), env, st, fuel)
  {
    IfChoosesBranch(c, e2, e3, env, st, fuel);
    IfChoosesBranch(c, e2, other, env, st, fuel);
    IfChoosesBranch(c, other, e3, env, st, fuel);
  }

  /** Both branches are fetched before the choice, so an `if` without an
      else branch fails even when its condition is true. */
  lemma IfNeedsBothBranches(c: Node, e2: Node, env: EnvId, st: Store, fuel: nat)
    requires fuel > 0 && env < |st| && Simple(c, st[env]) && Value(c, st[env]).Bool?
    ensures Eval(List([Sym("if"), c, e2]), env, st, fuel) == Out(Err(HostError(IndexOutOfBounds)), st)
  {
    var exps := [Sym("if"), c, e2];
    KeywordCall(exps, env, st, fuel);
    assert FormOf("if") == Some(IfForm);
    assert Special(IfForm, exps, env, st, fuel - 1) == EvalIf(exps, env, st, fuel - 1);
    SimpleArg(exps, 1, env, st, fuel - 1);
  }

  // ---- define, lambda, defn ------------------------------------------------

  /** `(define x e)`: e is evaluated, then x is bound to its value in the
      current environment, and the symbol is returned; a name that is already
      bound there is refused and keeps its value. */
  lemma DefineBinds(x: string, e: Node, env: EnvId, st: Store, fuel: nat)
    requires fuel > 0 && env < |st|
    ensures var v := Eval(e, env, st, fuel - 1);
      Eval(List([Sym("define"), Sym(x), e]), env, st, fuel) ==
        if v.result.Err? then v
        else if x in v.store[env] then Out(Err(LispError(AlreadyDefined(x))), v.store)
        else Out(Ok(Sym(x)), v.store[env := v.store[env][x := v.result.value]])
  {
    var exps := [Sym("define"), Sym(x), e];
    KeywordCall(exps, env, st, fuel);
    assert FormOf("define") == Some(DefineForm);
  }

  /** Defining the same name twice: the second definition fails and the
      first value stays. */
  lemma DefineTwice(x: string, a: Node, b: Node, env: EnvId, st: Store, fuel: nat)
    requires fuel > 0 && env < |st| && x !in st[env]
    requires a.Bool? || a.Int? || a.Str?
    requires b.Bool? || b.Int? || b.Str?
    ensures var first := Eval(List([Sym("define"), Sym(x), a]), env, st, fuel);
      var second := Eval(List([Sym("define"), Sym(x), b]), env, first.store, fuel);
      first.result == Ok(Sym(x)) && x in first.store[env] && first.store[env][x] == a &&
      second == Out(Err(LispError(AlreadyDefined(x))), first.store)
  {
    DefineBinds(x, a, env, st, fuel);
    var first := Eval(List([Sym("define"), Sym(x), a]), env, st, fuel);
    DefineBinds(x, b, env, first.store, fuel);
  }

  /** `(lambda (params) body)` captures the current environment and keeps the
      body unevaluated; it changes no environment. */
  lemma LambdaCaptures(params: seq<Node>, body: Node, env: EnvId, st: Store, fuel: nat)
    requires fuel > 0 && env < |st|
    ensures Eval(List([Sym("lambda"), List(params), body]), env, st, fuel) ==
      Out(Ok(Closure(env, params, body)), st)
  {
    KeywordCall([Sym("lambda"), List(params), body], env, st, fuel);
  }

  /** A lambda whose parameter part is not a list, or that has a missing or
      an extra part, is refused. */
  lemma LambdaMalformed(exps: seq<Node>, env: EnvId, st: Store, fuel: nat)
    requires fuel > 0 && env < |st| && |exps| > 0 && exps[0] == Sym("lambda")
    requires |exps| != 3 || !exps[1].List?
    ensures Eval(List(exps), env, st, fuel).result.Err?
    ensures Eval(List(exps), env, st, fuel).store == st
  {
    KeywordCall(exps, env, st, fuel);
  }

  /** A function defined with `define` and `lambda` sees itself: the closure
      captures the very environment in which its name is then bound, so its
      body can call it recursively. */
  lemma RecursiveDefinition(f: string, params: seq<Node>, body: Node, env: EnvId, st: Store, fuel: nat)
    requires fuel >= 2 && env < |st| && f !in st[env]
    ensures var o := Eval(List([Sym("define"), Sym(f), List([Sym("lambda"), List(params), body])]), env, st, fuel);
      o.result == Ok(Sym(f)) && f in o.store[env] && o.store[env][f] == Closure(env, params, body) &&
      o.store[o.store[env][f].env][f] == o.store[env][f]
  {
    DefineBinds(f, List([Sym("lambda"), List(params), body]), env, st, fuel);
    LambdaCaptures(params, body, env, st, fuel - 1);
  }

  /** `(defn f (params) body)` has the effect of
      `(define f (lambda (params) body))`, but returns the closure where
      define returns the symbol. */
  lemma DefnIsDefineLambda(f: string, params: seq<Node>, body: Node, env: EnvId, st: Store, fuel: nat)
    requires fuel >= 2 && env < |st|
    ensures var d := Eval(List([Sym("defn"), Sym(f), List(params), body]), env, st, fuel);
      var l := Eval(List([Sym("define"), Sym(f), List([Sym("lambda"), List(params), body])]), env, st, fuel);
      d.store == l.store &&
      (d.result.Ok? <==> l.result.Ok?) &&
      (d.result.Ok? ==> d.result.value == Closure(env, params, body) && l.result.value == Sym(f)) &&
      (d.result.Err? ==> d.result == l.result)
  {
    var exps := [Sym("defn"), Sym(f), List(params), body];
    KeywordCall(exps, env, st, fuel);
    assert exps[1..] == [Sym(f), List(params), body];
    DefineBinds(f, List([Sym("lambda"), List(params), body]), env, st, fuel);
    LambdaCaptures(params, body, env, st, fuel - 1);
  }

  // ---- eq and the arithmetic --------------------------------------------------

  /** `(eq a b)` on any operands: a is evaluated, then b in the store a left;
      the first error is the result; otherwise #t exactly when a's value is
      an atom equal to b's value. */
  lemma EqEvaluates(a: Node, b: Node, env: EnvId, st: Store, fuel: nat)
    requires fuel > 0 && env < |st|
    ensures var va := Eval(a, env, st, fuel - 1);
      Eval(List([Sym("eq"), a, b]), env, st, fuel) ==
        if va.result.Err? then va
        else
          var vb := Eval(b, env, va.store, fuel - 1);
          if vb.result.Err? then vb
          else Out(Ok(Bool(va.result.value == vb.result.value && IsAtom(va.result.value))), vb.store)
  {
    var exps := [Sym("eq"), a, b];
    KeywordCall(exps, env, st, fuel);
    assert FormOf("eq") == Some(EqForm);
    var va := Eval(a, env, st, fuel - 1);
    assert EvalArg(exps, 1, env, st, fuel - 1) == va;
    assert EvalArg(exps, 2, env, va.store, fuel - 1) == Eval(b, env, va.store, fuel - 1);
  }

  /** `(eq a b)` on simple operands: nothing changes and the values are
      compared. */
  lemma EqCompares(a: Node, b: Node, env: EnvId, st: Store, fuel: nat)
    requires fuel > 0 && env < |st| && Simple(a, st[env]) && Simple(b, st[env])
    ensures Eval(List([Sym("eq"), a, b]), env, st, fuel) ==
      Out(Ok(Bool(Value(a, st[env]) == Value(b, st[env]) && IsAtom(Value(a, st[env])))), st)
  {
    EqEvaluates(a, b, env, st, fuel);
    EvalSimple(a, env, st, fuel - 1);
    EvalSimple(b, env, st, fuel - 1);
  }

  /** Two equal quoted lists are not eq: only atoms compare equal. */
  lemma EqOnLists(items: seq<Node>, env: EnvId, st: Store, fuel: nat)
    requires fuel > 0 && env < |st|
    ensures var q := List([Quote, List(items)]);
      Eval(List([Sym("eq"), q, q]), env, st, fuel) == Out(Ok(Bool(false)), st)
  {
    EqCompares(List([Quote, List(items)]), List([Quote, List(items)]), env, st, fuel);
  }

  /** An operand fetched as a number: its evaluation's error, or its Int,
      or NotANumber, in the store its evaluation left. */
  lemma NumberArg(exps: seq<Node>, i: nat, env: EnvId, st: Store, fuel: nat)
    requires env < |st| && i < |exps|
    ensures var v := Eval(exps[i], env, st, fuel);
      EvalNumber(exps, i, env, st, fuel) ==
        if v.result.Err? then Out(Err(v.result.error), v.store)
        else if v.result.value.Int? then Out(Ok(v.result.value.v), v.store)
        else Out(Err(LispError(NotANumber)), v.store)
  {
  }

  /** An arithmetic form on any operands: a is evaluated and must be an Int
      before b is evaluated, in the store a left; b must be an Int too; then
      the operator named by the head is applied. The first error is the
      result. */
  lemma MathEvaluates(name: string, a: Node, b: Node, env: EnvId, st: Store, fuel: nat)
    requires fuel > 0 && env < |st| && Operators.IsMathOperator(name)
    ensures var va := Eval(a, env, st, fuel - 1);
      Eval(List([Sym(name), a, b]), env, st, fuel) ==
        if va.result.Err? then va
        else if !va.result.value.Int? then Out(Err(LispError(NotANumber)), va.store)
        else
          var vb := Eval(b, env, va.store, fuel - 1);
          if vb.result.Err? then vb
          else if !vb.result.value.Int? then Out(Err(LispError(NotANumber)), vb.store)
          else match Operators.Apply(Operators.GetOperator(name).value, va.result.value.v, vb.result.value.v)
            case Err(e) => Out(Err(e), vb.store)
            case Ok(r) => Out(Ok(Int(r)), vb.store)
  {
    var exps := [Sym(name), a, b];
    KeywordCall(exps, env, st, fuel);
    assert FormOf(name) == Some(MathForm(Operators.GetOperator(name).value));
    NumberArg(exps, 1, env, st, fuel - 1);
    var va := Eval(a, env, st, fuel - 1);
    NumberArg(exps, 2, env, va.store, fuel - 1);
  }

  /** An arithmetic form on simple operands changes nothing. */
  lemma MathApplies(name: string, a: Node, b: Node, env: EnvId, st: Store, fuel: nat)
    requires fuel > 0 && env < |st| && Operators.IsMathOperator(name)
    requires Simple(a, st[env]) && Simple(b, st[env])
    ensures var x := Value(a, st[env]);
      var y := Value(b, st[env]);
      Eval(List([Sym(name), a, b]), env, st, fuel) ==
        if !x.Int? then Out(Err(LispError(NotANumber)), st)
        else if !y.Int? then Out(Err(LispError(NotANumber)), st)
        else match Operators.Apply(Operators.GetOperator(name).value, x.v, y.v)
          case Err(e) => Out(Err(e), st)
          case Ok(r) => Out(Ok(Int(r)), st)
  {
    MathEvaluates(name, a, b, env, st, fuel);
    EvalSimple(a, env, st, fuel - 1);
    EvalSimple(b, env, st, fuel - 1);
  }

  /** `(> a b)` on any operands: evaluated and checked like the arithmetic,
      then #t exactly when a's Int is strictly greater than b's. */
  lemma LargerThanEvaluates(a: Node, b: Node, env: EnvId, st: Store, fuel: nat)
    requires fuel > 0 && env < |st|
    ensures var va := Eval(a, env, st, fuel - 1);
      Eval(List([Sym(">"), a, b]), env, st, fuel) ==
        if va.result.Err? then va
        else if !va.result.value.Int? then Out(Err(LispError(NotANumber)), va.store)
        else
          var vb := Eval(b, env, va.store, fuel - 1);
          if vb.result.Err? then vb
          else if !vb.result.value.Int? then Out(Err(LispError(NotANumber)), vb.store)
          else Out(Ok(Bool(va.result.value.v > vb.result.value.v)), vb.store)
  {
    var exps := [Sym(">"), a, b];
    KeywordCall(exps, env, st, fuel);
    assert FormOf(">") == Some(LargerThanForm);
    NumberArg(exps, 1, env, st, fuel - 1);
    var va := Eval(a, env, st, fuel - 1);
    NumberArg(exps, 2, env, va.store, fuel - 1);
  }

  /** `(> a b)` on simple operands changes nothing. */
  lemma LargerThanCompares(a: Node, b: Node, env: EnvId, st: Store, fuel: nat)
    requires fuel > 0 && env < |st| && Simple(a, st[env]) && Simple(b, st[env])
    ensures var x := Value(a, st[env]);
      var y := Value(b, st[env]);
      Eval(List([Sym(">"), a, b]), env, st, fuel) ==
        if !x.Int? || !y.Int? then Out(Err(LispError(NotANumber)), st)
        else Out(Ok(Bool(x.v > y.v)), st)
  {
    LargerThanEvaluates(a, b, env, st, fuel);
    EvalSimple(a, env, st, fuel - 1);
    EvalSimple(b, env, st, fuel - 1);
  }

  /** Division and remainder truncate toward zero, as Java's do, and a zero
      divisor is an error. */
  lemma DivisionExamples(env: EnvId, st: Store, fuel: nat)
    requires fuel > 0 && env < |st|
    ensures Eval(List([Sym("/"), Int(7), Int(2)]), env, st, fuel) == Out(Ok(Int(3)), st)
    ensures Eval(List([Sym("mod"), Int(7), Int(2)]), env, st, fuel) == Out(Ok(Int(1)), st)
    ensures Eval(List([Sym("/"), Int(-7), Int(2)]), env, st, fuel) == Out(Ok(Int(-3)), st)
    ensures Eval(List([Sym("mod"), Int(-7), Int(2)]), env, st, fuel) == Out(Ok(Int(-1)), st)
    ensures Eval(List([Sym("/"), Int(1), Int(0)]), env, st, fuel) == Out(Err(HostError(DivisionByZero)), st)
  {
    Operators.OperatorTable();
    MathApplies("/", Int(7), Int(2), env, st, fuel);
    MathApplies("mod", Int(7), Int(2), env, st, fuel);
    MathApplies("/", Int(-7), Int(2), env, st, fuel);
    MathApplies("mod", Int(-7), Int(2), env, st, fuel);
    MathApplies("/", Int(1), Int(0), env, st, fuel);
  }

  /** `>` is strict. */
  lemma ComparisonExamples(env: EnvId, st: Store, fuel: nat)
    requires fuel > 0 && env < |st|
    ensures Eval(List([Sym(">"), Int(7), Int(7)]), env, st, fuel) == Out(Ok(Bool(false)), st)
    ensures Eval(List([Sym(">"), Int(8), Int(7)]), env, st, fuel) == Out(Ok(Bool(true)), st)
  {
    LargerThanCompares(Int(7), Int(7), env, st, fuel);
    LargerThanCompares(Int(8), Int(7), env, st, fuel);
  }

  // ---- atom, quote, cons, head, tail ------------------------------------------

  /** `(atom a)` on any operand: a's evaluation error, or whether its value
      is an atom, in the store a's evaluation left. */
  lemma AtomEvaluates(a: Node, env: EnvId, st: Store, fuel: nat)
    requires fuel > 0 && env < |st|
    ensures var va := Eval(a, env, st, fuel - 1);
      Eval(List([Sym("atom"), a]), env, st, fuel) ==
        if va.result.Err? then va else Out(Ok(Bool(IsAtom(va.result.value))), va.store)
  {
    var exps := [Sym("atom"), a];
    KeywordCall(exps, env, st, fuel);
    assert FormOf("atom") == Some(AtomForm);
    assert EvalArg(exps, 1, env, st, fuel - 1) == Eval(a, env, st, fuel - 1);
  }

  /** `(atom a)` on a simple operand; a quoted expression is returned
      unevaluated; the empty list cannot be evaluated. */
  lemma AtomQuoteEmpty(a: Node, x: Node, env: EnvId, st: Store, fuel: nat)
    requires fuel > 0 && env < |st| && Simple(a, st[env])
    ensures Eval(List([Sym("atom"), a]), env, st, fuel) == Out(Ok(Bool(IsAtom(Value(a, st[env])))), st)
    ensures Eval(List([Quote, x]), env, st, fuel) == Out(Ok(x), st)
    ensures Eval(List([Quote]), env, st, fuel) == Out(Err(HostError(IndexOutOfBounds)), st)
    ensures Eval(List([]), env, st, fuel) == Out(Err(LispError(EmptyListEvaluated)), st)
  {
    AtomEvaluates(a, env, st, fuel);
    EvalSimple(a, env, st, fuel - 1);
  }

  /** `(cons a b)` on any operands: a is evaluated, then b in the store a
      left; the first error is the result; otherwise the values are combined
      by ConsValues (onto a list, or two strings joined). */
  lemma ConsEvaluates(a: Node, b: Node, env: EnvId, st: Store, fuel: nat)
    requires fuel > 0 && env < |st|
    ensures var va := Eval(a, env, st, fuel - 1);
      Eval(List([Sym("cons"), a, b]), env, st, fuel) ==
        if va.result.Err? then va
        else
          var vb := Eval(b, env, va.store, fuel - 1);
          if vb.result.Err? then vb
          else Out(ConsValues(va.result.value, vb.result.value), vb.store)
  {
    var exps := [Sym("cons"), a, b];
    KeywordCall(exps, env, st, fuel);
    assert FormOf("cons") == Some(ConsForm);
    var va := Eval(a, env, st, fuel - 1);
    assert EvalArg(exps, 1, env, st, fuel - 1) == va;
    assert EvalArg(exps, 2, env, va.store, fuel - 1) == Eval(b, env, va.store, fuel - 1);
  }

  /** `(cons a b)` on simple operands changes nothing. */
  lemma ConsCombines(a: Node, b: Node, env: EnvId, st: Store, fuel: nat)
    requires fuel > 0 && env < |st| && Simple(a, st[env]) && Simple(b, st[env])
    ensures Eval(List([Sym("cons"), a, b]), env, st, fuel) ==
      Out(ConsValues(Value(a, st[env]), Value(b, st[env])), st)
  {
    ConsEvaluates(a, b, env, st, fuel);
    EvalSimple(a, env, st, fuel - 1);
    EvalSimple(b, env, st, fuel - 1);
  }

  /** What head, tail and empty do to a value: a list or a string is taken
      apart or tested; any other value is refused. */
  function Select(name: string, v: Node): (r: Result<Node>)
    requires name == "head" || name == "tail" || name == "empty"
    ensures !v.List? && !v.Str? ==> r == Err(LispError(NotAString))
    ensures name == "head" && v.List? ==> r == Head(v.items)
    ensures name == "head" && v.Str? ==> r == StrHead(v.s)
    ensures name == "tail" && v.List? ==> r == Tail(v.items)
    ensures name == "tail" && v.Str? ==> r == StrTail(v.s)
    ensures name == "empty" && v.List? ==> r == Ok(Bool(|v.items| == 0))
    ensures name == "empty" && v.Str? ==> r == Ok(Bool(|v.s| == 0))
  {
    if v.List? then
      (if name == "head" then Head(v.items) else if name == "tail" then Tail(v.items) else Ok(IsEmpty(v.items)))
    else if v.Str? then
      (if name == "head" then StrHead(v.s) else if name == "tail" then StrTail(v.s) else Ok(IsEmpty(v.s)))
    else Err(LispError(NotAString))
  }

  /** `head`, `tail` and `empty` on any operand: its evaluation error, or
      Select of its value, in the store its evaluation left. */
  lemma SelectorEvaluates(name: string, a: Node, env: EnvId, st: Store, fuel: nat)
    requires fuel > 0 && env < |st| && (name == "head" || name == "tail" || name == "empty")
    ensures var va := Eval(a, env, st, fuel - 1);
      Eval(List([Sym(name), a]), env, st, fuel) ==
        if va.result.Err? then va else Out(Select(name, va.result.value), va.store)
  {
    var exps := [Sym(name), a];
    KeywordCall(exps, env, st, fuel);
    var form := if name == "head" then HeadForm else if name == "tail" then TailForm else EmptyForm;
    assert FormOf(name) == Some(form);
    assert Special(form, exps, env, st, fuel - 1) ==
      if name == "head" then EvalHead(exps, env, st, fuel - 1)
      else if name == "tail" then EvalTail(exps, env, st, fuel - 1)
      else EvalEmpty(exps, env, st, fuel - 1);
    assert EvalArg(exps, 1, env, st, fuel - 1) == Eval(a, env, st, fuel - 1);
  }

  /** `head` of a simple operand: the first element of a list, the first
      character of a string. */
  lemma HeadApplies(a: Node, env: EnvId, st: Store, fuel: nat)
    requires fuel > 0 && env < |st| && Simple(a, st[env])
    ensures var v := Value(a, st[env]);
      Eval(List([Sym("head"), a]), env, st, fuel) ==
        Out(if v.List? then Head(v.items) else if v.Str? then StrHead(v.s) else Err(LispError(NotAString)), st)
  {
    SelectorEvaluates("head", a, env, st, fuel);
    EvalSimple(a, env, st, fuel - 1);
  }

  /** `tail` of a simple operand: the rest of a list or of a string. */
  lemma TailApplies(a: Node, env: EnvId, st: Store, fuel: nat)
    requires fuel > 0 && env < |st| && Simple(a, st[env])
    ensures var v := Value(a, st[env]);
      Eval(List([Sym("tail"), a]), env, st, fuel) ==
        Out(if v.List? then Tail(v.items) else if v.Str? then StrTail(v.s) else Err(LispError(NotAString)), st)
  {
    SelectorEvaluates("tail", a, env, st, fuel);
    EvalSimple(a, env, st, fuel - 1);
  }

  /** `empty` of a simple operand: whether a list or a string is empty. */
  lemma EmptyApplies(a: Node, env: EnvId, st: Store, fuel: nat)
    requires fuel > 0 && env < |st| && Simple(a, st[env])
    ensures var v := Value(a, st[env]);
      Eval(List([Sym("empty"), a]), env, st, fuel) ==
        Out(if v.List? then Ok(Bool(|v.items| == 0)) else if v.Str? then Ok(Bool(|v.s| == 0)) else Err(LispError(NotAString)), st)
  {
    SelectorEvaluates("empty", a, env, st, fuel);
    EvalSimple(a, env, st, fuel - 1);
  }

  /** `(cons x '(items))` evaluates to the list with x's value in front. */
  lemma ConsOntoQuoted(x: Node, items: seq<Node>, env: EnvId, st: Store, fuel: nat)
    requires fuel > 0 && env < |st| && Simple(x, st[env])
    ensures Eval(List([Sym("cons"), x, List([Quote, List(items)])]), env, st, fuel) ==
      Out(Ok(Cons(items, Value(x, st[env]))), st)
  {
    ConsCombines(x, List([Quote, List(items)]), env, st, fuel);
  }

  /** `head` and `tail` take apart what `cons` built, through the evaluator. */
  lemma HeadTailOfCons(x: Node, items: seq<Node>, env: EnvId, st: Store, fuel: nat)
    requires fuel >= 2 && env < |st| && Simple(x, st[env])
    ensures var e := List([Sym("cons"), x, List([Quote, List(items)])]);
      Eval(List([Sym("head"), e]), env, st, fuel) == Out(Ok(Value(x, st[env])), st) &&
      Eval(List([Sym("tail"), e]), env, st, fuel) == Out(Ok(List(items)), st)
  {
    var e := List([Sym("cons"), x, List([Quote, List(items)])]);
    ConsOntoQuoted(x, items, env, st, fuel - 1);
    ConsHeadTail(items, Value(x, st[env]));
    SelectorEvaluates("head", e, env, st, fuel);
    SelectorEvaluates("tail", e, env, st, fuel);
  }

  // ---- closure application ----------------------------------------------------

  /** The frame Closure.merge builds from simple arguments: parameter j bound
      to the value of argument j in the caller's frame f, a later duplicate
      parameter winning. */
  function Bind(params: seq<Node>, args: seq<Node>, f: Frame): Frame
    requires |params| == |args| && AllSymbols(params)
    requires forall j :: 0 <= j < |args| ==> Simple(args[j], f)
    decreases |params|
  {
    if |params| == 0 then map[]
    else
      var n := |params| - 1;
      Bind(params[..n], args[..n], f)[params[n].name := Value(args[n], f)]
  }

  predicate DistinctNames(params: seq<Node>)
    requires AllSymbols(params)
  {
    forall j, k :: 0 <= j < k < |params| ==> params[j].name != params[k].name
  }

  /** Bind binds exactly the parameter names. */
  lemma {:induction false} BindKeys(params: seq<Node>, args: seq<Node>, f: Frame)
    requires |params| == |args| && AllSymbols(params)
    requires forall j :: 0 <= j < |args| ==> Simple(args[j], f)
    ensures forall j :: 0 <= j < |params| ==> params[j].name in Bind(params, args, f)
    ensures forall k :: k in Bind(params, args, f) ==> exists j :: 0 <= j < |params| && params[j].name == k
  {
    if |params| > 0 {
      var n := |params| - 1;
      BindKeys(params[..n], args[..n], f);
      forall j | 0 <= j < n
        ensures params[..n][j] == params[j]
      {
      }
      forall k | k in Bind(params, args, f)
        ensures exists j :: 0 <= j < |params| && params[j].name == k
      {
        if k != params[n].name {
          var j :| 0 <= j < n && params[..n][j].name == k;
          assert params[j].name == k;
        }
      }
    }
  }

  /** With distinct parameter names, Bind binds each parameter to the value
      of its own argument. */
  lemma {:induction false} BindValues(params: seq<Node>, args: seq<Node>, f: Frame)
    requires |params| == |args| && AllSymbols(params) && DistinctNames(params)
    requires forall j :: 0 <= j < |args| ==> Simple(args[j], f)
    ensures forall j :: 0 <= j < |params| ==>
      params[j].name in Bind(params, args, f) && Bind(params, args, f)[params[j].name] == Value(args[j], f)
  {
    if |params| > 0 {
      var n := |params| - 1;
      forall j | 0 <= j < n
        ensures params[..n][j] == params[j] && args[..n][j] == args[j]
      {
      }
      BindValues(params[..n], args[..n], f);
      forall j | 0 <= j < n
        ensures params[j].name != params[n].name
      {
      }
    }
  }

  /** Bind extended by one more parameter. */
  lemma BindSnoc(params: seq<Node>, args: seq<Node>, f: Frame, i: nat)
    requires |params| == |args| && AllSymbols(params) && i < |params|
    requires forall j :: 0 <= j < |args| ==> Simple(args[j], f)
    ensures AllSymbols(params[..i]) && AllSymbols(params[..i + 1])
    ensures Bind(params[..i + 1], args[..i + 1], f) ==
      Bind(params[..i], args[..i], f)[params[i].name := Value(args[i], f)]
  {
    assert params[..i + 1][..i] == params[..i] && args[..i + 1][..i] == args[..i];
  }

  /** One step of Closure.merge on a simple argument. */
  lemma MergeStep(params: seq<Node>, exps: seq<Node>, i: nat, acc: Frame, env: EnvId, st: Store, fuel: nat)
    requires |exps| == |params| + 1 && AllSymbols(params) && i < |params| && env < |st|
    requires Simple(exps[i + 1], st[env])
    ensures MergeFrom(params, exps, i, acc, env, st, fuel) ==
      MergeFrom(params, exps, i + 1, acc[params[i].name := Value(exps[i + 1], st[env])], env, st, fuel)
  {
    EvalSimple(exps[i + 1], env, st, fuel);
  }

  /** Closure.merge over simple arguments evaluates each in the caller's
      frame, changes no environment, and yields Bind. */
  lemma {:induction false} MergeSimple(params: seq<Node>, exps: seq<Node>, i: nat, env: EnvId, st: Store, fuel: nat)
    requires |exps| == |params| + 1 && AllSymbols(params) && i <= |params| && env < |st|
    requires forall j :: 1 <= j < |exps| ==> Simple(exps[j], st[env])
    ensures AllSymbols(params[..i])
    ensures MergeFrom(params, exps, i, Bind(params[..i], exps[1..][..i], st[env]), env, st, fuel) ==
      Out(Ok(Bind(params, exps[1..], st[env])), st)
    decreases |params| - i
  {
    var args := exps[1..];
    if i == |params| {
      assert params[..i] == params && args[..i] == args;
    } else {
      assert args[i] == exps[i + 1];
      BindSnoc(params, args, st[env], i);
      MergeStep(params, exps, i, Bind(params[..i], args[..i], st[env]), env, st, fuel);
      MergeSimple(params, exps, i + 1, env, st, fuel);
    }
  }

  /** Applying a closure to simple arguments: the arguments are evaluated in
      the caller's frame, and the body runs in one fresh environment that
      extends the closure's own environment (not the caller's) with the
      parameters bound. */
  lemma ApplySimpleArgs(c: Node, args: seq<Node>, env: EnvId, st: Store, fuel: nat)
    requires c.Closure? && c.env < |st| && env < |st|
    requires |c.params| == |args| > 0 && AllSymbols(c.params)
    requires forall j :: 0 <= j < |args| ==> Simple(args[j], st[env])
    ensures Apply(c.env, c.params, c.body, [c] + args, env, st, fuel) ==
      Eval(c.body, |st|, st + [Extend(st[c.env], Bind(c.params, args, st[env]))], fuel)
  {
    var exps := [c] + args;
    assert exps[1..] == args;
    MergeSimple(c.params, exps, 0, env, st, fuel);
    assert c.params[..0] == [] && exps[1..][..0] == [];
  }

  /** The arguments exps[i..], evaluated left to right in the caller's
      environment, each in the store the previous one left; the first error
      stops the evaluation. */
  function ArgValues(exps: seq<Node>, i: nat, env: EnvId, st: Store, fuel: nat): (o: Out<seq<Node>>)
    requires i <= |exps| && env < |st|
    ensures Grows(st, o.store)
    ensures o.result.Ok? ==> |o.result.value| == |exps| - i
    decreases |exps| - i
  {
    if i == |exps| then Out(Ok([]), st)
    else
      var v := Eval(exps[i], env, st, fuel);
      if v.result.Err? then Out(Err(v.result.error), v.store)
      else
        var r := ArgValues(exps, i + 1, env, v.store, fuel);
        GrowsTransitive(st, v.store, r.store);
        if r.result.Err? then r else Out(Ok([v.result.value] + r.result.value), r.store)
  }

  /** The frame acc with each parameter bound in turn to its value, a later
      duplicate parameter winning. */
  function BindAll(acc: Frame, params: seq<Node>, vals: seq<Node>): (r: Frame)
    requires |params| == |vals| && AllSymbols(params)
    ensures forall k :: k in r <==> k in acc || exists j :: 0 <= j < |params| && params[j].name == k
    decreases |params|
  {
    if |params| == 0 then acc
    else
      assert forall j :: 0 <= j < |params| - 1 ==> params[1..][j] == params[j + 1];
      BindAll(acc[params[0].name := vals[0]], params[1..], vals[1..])
  }

  /** With distinct parameter names, BindAll binds each parameter to its own
      value and leaves acc's other names alone. */
  lemma {:induction false} BindAllValues(acc: Frame, params: seq<Node>, vals: seq<Node>)
    requires |params| == |vals| && AllSymbols(params) && DistinctNames(params)
    ensures forall j :: 0 <= j < |params| ==> BindAll(acc, params, vals)[params[j].name] == vals[j]
    ensures forall k :: k in acc && (forall j :: 0 <= j < |params| ==> params[j].name != k) ==>
      BindAll(acc, params, vals)[k] == acc[k]
    decreases |params|
  {
    if |params| > 0 {
      assert forall j :: 0 <= j < |params| - 1 ==> params[1..][j] == params[j + 1] && vals[1..][j] == vals[j + 1];
      BindAllValues(acc[params[0].name := vals[0]], params[1..], vals[1..]);
    }
  }

  /** Closure.merge for any arguments: the arguments are evaluated left to
      right in the caller's environment, the store threaded through; the
      first error is the result; otherwise the parameters from i on are bound
      in order to the values. */
  lemma {:induction false} MergeEvaluates(params: seq<Node>, exps: seq<Node>, i: nat, acc: Frame,
                                          env: EnvId, st: Store, fuel: nat)
    requires |exps| == |params| + 1 && AllSymbols(params) && i <= |params| && env < |st|
    ensures AllSymbols(params[i..])
    ensures var a := ArgValues(exps, i + 1, env, st, fuel);
      MergeFrom(params, exps, i, acc, env, st, fuel) ==
        if a.result.Err? then Out(Err(a.result.error), a.store)
        else Out(Ok(BindAll(acc, params[i..], a.result.value)), a.store)
    decreases |params| - i
  {
    if i < |params| {
      var v := Eval(exps[i + 1], env, st, fuel);
      if v.result.Ok? {
        var acc' := acc[params[i].name := v.result.value];
        MergeEvaluates(params, exps, i + 1, acc', env, v.store, fuel);
        assert params[i..][1..] == params[i + 1..];
      }
    }
  }

  /** Applying a closure with parameters to any arguments: they are evaluated
      left to right in the caller's environment; the first error is the
      result; otherwise the body runs in one fresh environment that extends
      the closure's own environment with the parameters bound, appended to
      the store the arguments left. */
  lemma ApplyEvaluates(c: Node, args: seq<Node>, env: EnvId, st: Store, fuel: nat)
    requires c.Closure? && c.env < |st| && env < |st|
    requires |c.params| == |args| > 0 && AllSymbols(c.params)
    ensures var a := ArgValues([c] + args, 1, env, st, fuel);
      Apply(c.env, c.params, c.body, [c] + args, env, st, fuel) ==
        if a.result.Err? then Out(Err(a.result.error), a.store)
        else Eval(c.body, |a.store|, a.store + [Extend(a.store[c.env], BindAll(map[], c.params, a.result.value))], fuel)
  {
    MergeEvaluates(c.params, [c] + args, 0, map[], env, st, fuel);
    assert c.params[0..] == c.params;
  }

  /** A closure called with the wrong number of arguments fails before
      evaluating any; one without parameters runs its body in its own
      environment, with no new environment made. */
  lemma ApplyShapes(cenv: EnvId, params: seq<Node>, body: Node, exps: seq<Node>, env: EnvId, st: Store, fuel: nat)
    requires |exps| > 0 && env < |st| && cenv < |st|
    ensures |params| != |exps| - 1 ==>
      Apply(cenv, params, body, exps, env, st, fuel) == Out(Err(LispError(CallArity)), st)
    ensures |params| == 0 && |exps| == 1 ==>
      Apply(cenv, params, body, exps, env, st, fuel) == Eval(body, cenv, st, fuel)
  {
  }

  /** One parameter bound to one simple argument. */
  lemma BindOne(p: string, a: Node, f: Frame)
    requires Simple(a, f)
    ensures AllSymbols([Sym(p)]) && Bind([Sym(p)], [a], f) == map[p := Value(a, f)]
  {
    assert [Sym(p)][..0] == [] && [a][..0] == [];
  }

  /** A lambda expression in head position is evaluated to its closure,
      which is then applied to the arguments. */
  lemma LambdaInHead(params: seq<Node>, body: Node, args: seq<Node>, env: EnvId, st: Store, fuel: nat)
    requires fuel >= 2 && env < |st|
    ensures var c := Closure(env, params, body);
      Eval(List([List([Sym("lambda"), List(params), body])] + args), env, st, fuel) ==
        Apply(env, params, body, [c] + args, env, st, fuel - 2)
  {
    var lam := [Sym("lambda"), List(params), body];
    var c := Closure(env, params, body);
    var exps := [List(lam)] + args;
    ListStep(exps, env, st, fuel);
    LambdaCaptures(params, body, env, st, fuel - 1);
    ListStep(lam, env, st, fuel - 1);
    assert EvalList(lam, env, st, fuel - 2) == Out(Ok(c), st);
    assert exps[0 := c] == [c] + args;
    assert Call(exps, env, st, fuel - 1) == Call([c] + args, env, st, fuel - 2);
  }

  /** `((lambda (x) x) 5)` is 5, bound in a fresh extension of the current
      environment. */
  lemma LambdaApplied(env: EnvId, st: Store, fuel: nat)
    requires fuel >= 2 && env < |st|
    ensures Eval(List([List([Sym("lambda"), List([Sym("x")]), Sym("x")]), Int(5)]), env, st, fuel) ==
      Out(Ok(Int(5)), st + [Extend(st[env], map["x" := Int(5)])])
  {
    var c := Closure(env, [Sym("x")], Sym("x"));
    LambdaInHead([Sym("x")], Sym("x"), [Int(5)], env, st, fuel);
    assert [List([Sym("lambda"), List([Sym("x")]), Sym("x")])] + [Int(5)] ==
           [List([Sym("lambda"), List([Sym("x")]), Sym("x")]), Int(5)];
    ApplySimpleArgs(c, [Int(5)], env, st, fuel - 2);
    BindOne("x", Int(5), st[env]);
    var st' := st + [Extend(st[env], map["x" := Int(5)])];
    assert st'[|st|]["x"] == Int(5);
    EvalSimple(Sym("x"), |st|, st', fuel - 2);
  }

  // ---- let ----------------------------------------------------------------------

  /** Let bindings whose values are simple in the environment they are taken
      in (each binding sees the ones before it). */
  predicate SimpleBindings(f: Frame, bindings: seq<Node>)
    decreases |bindings|
  {
    |bindings| == 0 ||
    (var b := bindings[0];
     b.List? && |b.items| >= 2 && b.items[0].Sym? && Simple(b.items[1], f) &&
     SimpleBindings(Extend(f, map[b.items[0].name := Value(b.items[1], f)]), bindings[1..]))
  }

  /** The environments evaluateLet creates, one per binding: each extends the
      previous one with one binding. */
  function LetFrames(f: Frame, bindings: seq<Node>): (r: seq<Frame>)
    requires SimpleBindings(f, bindings)
    ensures |r| == |bindings|
    decreases |bindings|
  {
    if |bindings| == 0 then []
    else
      var b := bindings[0];
      var g := Extend(f, map[b.items[0].name := Value(b.items[1], f)]);
      [g] + LetFrames(g, bindings[1..])
  }

  /** A simple binding extends the environment with its one binding. */
  lemma LetBindSimple(binding: Node, env: EnvId, st: Store, fuel: nat)
    requires env < |st| && binding.List? && |binding.items| >= 2 && binding.items[0].Sym?
    requires Simple(binding.items[1], st[env])
    ensures var items := binding.items;
      LetBind(binding, env, st, fuel) ==
        Out(Ok(|st|), st + [Extend(st[env], map[items[0].name := Value(items[1], st[env])])])
  {
    SimpleArg(binding.items, 1, env, st, fuel);
  }

  /** A binding that succeeds hands its environment and store on to the
      next one. */
  lemma LetFromStep(bindings: seq<Node>, i: nat, env: EnvId, st: Store, fuel: nat)
    requires i < |bindings| && env < |st| && LetBind(bindings[i], env, st, fuel).result.Ok?
    ensures var s := LetBind(bindings[i], env, st, fuel);
      LetFrom(bindings, i, env, st, fuel) == LetFrom(bindings, i + 1, s.result.value, s.store, fuel)
  {
  }

  /** The first of the remaining simple bindings, and the frames after it. */
  lemma LetFramesStep(f: Frame, bindings: seq<Node>, i: nat)
    requires i < |bindings| && SimpleBindings(f, bindings[i..])
    ensures bindings[i].List? && |bindings[i].items| >= 2 && bindings[i].items[0].Sym?
    ensures Simple(bindings[i].items[1], f)
    ensures var items := bindings[i].items;
      var g := Extend(f, map[items[0].name := Value(items[1], f)]);
      SimpleBindings(g, bindings[i + 1..]) && LetFrames(f, bindings[i..]) == [g] + LetFrames(g, bindings[i + 1..])
  {
    var rest := bindings[i..];
    assert rest[0] == bindings[i] && rest[1..] == bindings[i + 1..];
  }

  /** The binding loop stops after the last binding. */
  lemma LetFromEnd(bindings: seq<Node>, env: EnvId, st: Store, fuel: nat)
    requires env < |st|
    ensures LetFrom(bindings, |bindings|, env, st, fuel) == Out(Ok(env), st)
  {
  }

  /** The store after one more simple binding, and the frames still to come. */
  lemma LetFramesNext(st: Store, env: EnvId, bindings: seq<Node>, i: nat)
    requires i < |bindings| && env < |st| && SimpleBindings(st[env], bindings[i..])
    ensures bindings[i].List? && |bindings[i].items| >= 2 && bindings[i].items[0].Sym?
    ensures Simple(bindings[i].items[1], st[env])
    ensures var items := bindings[i].items;
      var st1 := st + [Extend(st[env], map[items[0].name := Value(items[1], st[env])])];
      (i + 1 == |bindings| ==> st1 == st + LetFrames(st[env], bindings[i..])) &&
      (i + 1 < |bindings| ==>
         SimpleBindings(st1[|st|], bindings[i + 1..]) &&
         st1 + LetFrames(st1[|st|], bindings[i + 1..]) == st + LetFrames(st[env], bindings[i..]))
  {
    LetFramesStep(st[env], bindings, i);
    var items := bindings[i].items;
    var g := Extend(st[env], map[items[0].name := Value(items[1], st[env])]);
    var st1 := st + [g];
    assert st1[|st|] == g;
    if i + 1 == |bindings| {
      assert bindings[i + 1..] == [];
    } else {
      assert (st + [g]) + LetFrames(g, bindings[i + 1..]) == st + ([g] + LetFrames(g, bindings[i + 1..]));
    }
  }

  /** A simple binding hands one new environment on to the next binding. */
  lemma LetFromSimpleStep(bindings: seq<Node>, i: nat, env: EnvId, st: Store, fuel: nat)
    requires i < |bindings| && env < |st|
    requires bindings[i].List? && |bindings[i].items| >= 2 && bindings[i].items[0].Sym?
    requires Simple(bindings[i].items[1], st[env])
    ensures var items := bindings[i].items;
      LetFrom(bindings, i, env, st, fuel) ==
        LetFrom(bindings, i + 1, |st|, st + [Extend(st[env], map[items[0].name := Value(items[1], st[env])])], fuel)
  {
    LetBindSimple(bindings[i], env, st, fuel);
    LetFromStep(bindings, i, env, st, fuel);
  }

  /** The store and environment after the first remaining simple binding. */
  function NextStore(bindings: seq<Node>, i: nat, env: EnvId, st: Store): (r: Store)
    requires i < |bindings| && env < |st| && SimpleBindings(st[env], bindings[i..])
    ensures |r| == |st| + 1
    ensures i + 1 == |bindings| ==> r == st + LetFrames(st[env], bindings[i..])
    ensures i + 1 < |bindings| ==>
      SimpleBindings(r[|st|], bindings[i + 1..]) &&
      r + LetFrames(r[|st|], bindings[i + 1..]) == st + LetFrames(st[env], bindings[i..])
  {
    LetFramesNext(st, env, bindings, i);
    var items := bindings[i].items;
    st + [Extend(st[env], map[items[0].name := Value(items[1], st[env])])]
  }

  /** The store after the simple bindings from the i-th on: one new
      environment per binding, appended to st. */
  function LetStore(bindings: seq<Node>, i: nat, env: EnvId, st: Store): (r: Store)
    requires i <= |bindings| && env < |st| && SimpleBindings(st[env], bindings[i..])
    ensures |r| == |st| + |bindings| - i
  {
    st + LetFrames(st[env], bindings[i..])
  }

  lemma LetFromNextStore(bindings: seq<Node>, i: nat, env: EnvId, st: Store, fuel: nat)
    requires i < |bindings| && env < |st| && SimpleBindings(st[env], bindings[i..])
    ensures LetFrom(bindings, i, env, st, fuel) == LetFrom(bindings, i + 1, |st|, NextStore(bindings, i, env, st), fuel)
  {
    LetFramesNext(st, env, bindings, i);
    LetFromSimpleStep(bindings, i, env, st, fuel);
  }

  /** The last binding ends the loop in the one environment it adds. */
  lemma LetFromSimpleLast(bindings: seq<Node>, i: nat, env: EnvId, st: Store, fuel: nat)
    requires i + 1 == |bindings| && env < |st| && SimpleBindings(st[env], bindings[i..])
    ensures LetFrom(bindings, i, env, st, fuel) ==
      Out(Ok(|LetStore(bindings, i, env, st)| - 1), LetStore(bindings, i, env, st))
  {
    LetFromNextStore(bindings, i, env, st, fuel);
    LetFromEnd(bindings, |st|, NextStore(bindings, i, env, st), fuel);
  }

  /** One simple binding, then the rest of the loop as the induction
      hypothesis states it. */
  lemma LetFromSimpleMore(bindings: seq<Node>, i: nat, env: EnvId, st: Store, fuel: nat, next: Store)
    requires i + 1 < |bindings| && env < |st| && SimpleBindings(st[env], bindings[i..])
    requires next == NextStore(bindings, i, env, st)
    requires LetFrom(bindings, i + 1, |st|, next, fuel) ==
      Out(Ok(|LetStore(bindings, i + 1, |st|, next)| - 1), LetStore(bindings, i + 1, |st|, next))
    ensures LetFrom(bindings, i, env, st, fuel) ==
      Out(Ok(|LetStore(bindings, i, env, st)| - 1), LetStore(bindings, i, env, st))
  {
    LetFromNextStore(bindings, i, env, st, fuel);
    assert LetStore(bindings, i + 1, |st|, next) == LetStore(bindings, i, env, st);
  }

  /** The binding loop of let on simple bindings appends one environment per
      binding and changes none of the existing ones, the caller's included. */
  lemma {:induction false} LetFromSimple(bindings: seq<Node>, i: nat, env: EnvId, st: Store, fuel: nat)
    requires i < |bindings| && env < |st| && SimpleBindings(st[env], bindings[i..])
    ensures LetFrom(bindings, i, env, st, fuel) ==
      Out(Ok(|LetStore(bindings, i, env, st)| - 1), LetStore(bindings, i, env, st))
    decreases |bindings| - i
  {
    if i + 1 < |bindings| {
      var next := NextStore(bindings, i, env, st);
      LetFromSimple(bindings, i + 1, |st|, next, fuel);
      LetFromSimpleMore(bindings, i, env, st, fuel, next);
    } else {
      LetFromSimpleLast(bindings, i, env, st, fuel);
    }
  }

  /** `(let (bindings) body)` for any bindings: the binding loop's error is
      the result; otherwise the body runs in the environment and store the
      loop ends with. */
  lemma LetEvaluates(bindings: seq<Node>, body: Node, env: EnvId, st: Store, fuel: nat)
    requires fuel > 0 && env < |st|
    ensures var b := LetFrom(bindings, 0, env, st, fuel - 1);
      Eval(List([Sym("let"), List(bindings), body]), env, st, fuel) ==
        if b.result.Err? then Out(Err(b.result.error), b.store)
        else Eval(body, b.result.value, b.store, fuel - 1)
  {
    var exps := [Sym("let"), List(bindings), body];
    KeywordCall(exps, env, st, fuel);
    assert FormOf("let") == Some(LetForm);
    assert Special(LetForm, exps, env, st, fuel - 1) == EvalLet(exps, env, st, fuel - 1);
    assert exps[1] == List(bindings) && exps[2] == body;
    var b := LetFrom(bindings, 0, env, st, fuel - 1);
    if b.result.Ok? {
      assert EvalArg(exps, 2, b.result.value, b.store, fuel - 1) == Eval(body, b.result.value, b.store, fuel - 1);
    }
  }

  /** The binding loop from binding i + 1 of `[x] + rest` is the loop from
      binding i of rest. */
  lemma {:induction false} LetFromShift(x: Node, rest: seq<Node>, i: nat, env: EnvId, st: Store, fuel: nat)
    requires i <= |rest| && env < |st|
    ensures LetFrom([x] + rest, i + 1, env, st, fuel) == LetFrom(rest, i, env, st, fuel)
    decreases |rest| - i
  {
    var bindings := [x] + rest;
    if i < |rest| {
      assert bindings[i + 1] == rest[i];
      var s := LetBind(rest[i], env, st, fuel);
      if s.result.Ok? {
        LetFromShift(x, rest, i + 1, s.result.value, s.store, fuel);
      }
    }
  }

  /** A well-formed binding: its expression is evaluated in the current
      environment; its error is the result; otherwise one fresh environment,
      the current one extended with the binding, is appended to the store the
      expression left. */
  lemma LetBindEvaluates(binding: Node, env: EnvId, st: Store, fuel: nat)
    requires env < |st| && binding.List? && |binding.items| >= 2 && binding.items[0].Sym?
    ensures var v := Eval(binding.items[1], env, st, fuel);
      LetBind(binding, env, st, fuel) ==
        if v.result.Err? then Out(Err(v.result.error), v.store)
        else Out(Ok(|v.store|), v.store + [Extend(v.store[env], map[binding.items[0].name := v.result.value])])
  {
    assert EvalArg(binding.items, 1, env, st, fuel) == Eval(binding.items[1], env, st, fuel);
  }

  /** The binding loop over `[binding] + rest`: the first binding, then the
      loop over rest from where it left off. */
  lemma LetFromFirst(binding: Node, rest: seq<Node>, env: EnvId, st: Store, fuel: nat)
    requires env < |st|
    ensures var s := LetBind(binding, env, st, fuel);
      LetFrom([binding] + rest, 0, env, st, fuel) ==
        if s.result.Err? then s else LetFrom(rest, 0, s.result.value, s.store, fuel)
  {
    assert ([binding] + rest)[0] == binding;
    var s := LetBind(binding, env, st, fuel);
    if s.result.Ok? {
      LetFromShift(binding, rest, 0, s.result.value, s.store, fuel);
    }
  }

  /** `(let (binding rest...) body)` for any first binding: it must be a list
      headed by a Symbol and holding an expression; the expression is
      evaluated in the current environment; its error is the result;
      otherwise one fresh environment extending the current one with that
      binding is appended to the store the expression left, and
      `(let (rest...) body)` runs there. */
  lemma LetFirstBinding(binding: Node, rest: seq<Node>, body: Node, env: EnvId, st: Store, fuel: nat)
    requires fuel > 0 && env < |st|
    ensures Eval(List([Sym("let"), List([binding] + rest), body]), env, st, fuel) ==
      if !binding.List? then Out(Err(LispError(NotAList)), st)
      else if |binding.items| == 0 then Out(Err(HostError(IndexOutOfBounds)), st)
      else if !binding.items[0].Sym? then Out(Err(LispError(NotASymbol)), st)
      else if |binding.items| < 2 then Out(Err(HostError(IndexOutOfBounds)), st)
      else
        var v := Eval(binding.items[1], env, st, fuel - 1);
        if v.result.Err? then Out(Err(v.result.error), v.store)
        else
          Eval(List([Sym("let"), List(rest), body]), |v.store|,
               v.store + [Extend(v.store[env], map[binding.items[0].name := v.result.value])], fuel)
  {
    LetEvaluates([binding] + rest, body, env, st, fuel);
    LetFromFirst(binding, rest, env, st, fuel - 1);
    var s := LetBind(binding, env, st, fuel - 1);
    if binding.List? && |binding.items| >= 2 && binding.items[0].Sym? {
      LetBindEvaluates(binding, env, st, fuel - 1);
      if s.result.Ok? {
        LetEvaluates(rest, body, s.result.value, s.store, fuel);
      }
    }
  }

  /** `(let () body)` runs the body in the current environment. */
  lemma LetNoBindings(body: Node, env: EnvId, st: Store, fuel: nat)
    requires fuel > 0 && env < |st|
    ensures Eval(List([Sym("let"), List([]), body]), env, st, fuel) == Eval(body, env, st, fuel - 1)
  {
    LetEvaluates([], body, env, st, fuel);
  }

  /** `(let (bindings) body)`: the bindings, then the body in the environment
      they end with. */
  lemma LetCall(bindings: seq<Node>, body: Node, env: EnvId, st: Store, fuel: nat, e: EnvId, s: Store)
    requires fuel > 0 && env < |st| && LetFrom(bindings, 0, env, st, fuel - 1) == Out(Ok(e), s)
    ensures Eval(List([Sym("let"), List(bindings), body]), env, st, fuel) == Eval(body, e, s, fuel - 1)
  {
    var exps := [Sym("let"), List(bindings), body];
    KeywordCall(exps, env, st, fuel);
    assert FormOf("let") == Some(LetForm);
    assert Special(LetForm, exps, env, st, fuel - 1) == EvalLet(exps, env, st, fuel - 1);
    assert exps[1] == List(bindings) && exps[2] == body;
    assert e < |s|;
    assert EvalArg(exps, 2, e, s, fuel - 1) == Eval(body, e, s, fuel - 1);
    assert EvalLet(exps, env, st, fuel - 1) == EvalArg(exps, 2, e, s, fuel - 1);
  }

  /** `(let (bindings) body)` with simple bindings: the body runs in the last
      of the new environments; the caller's environment is not changed by the
      bindings. */
  lemma LetSimple(bindings: seq<Node>, body: Node, env: EnvId, st: Store, fuel: nat)
    requires fuel > 0 && env < |st| && |bindings| > 0 && SimpleBindings(st[env], bindings)
    ensures Eval(List([Sym("let"), List(bindings), body]), env, st, fuel) ==
      Eval(body, |st| + |bindings| - 1, st + LetFrames(st[env], bindings), fuel - 1)
  {
    assert bindings[0..] == bindings;
    LetFromSimple(bindings, 0, env, st, fuel - 1);
    assert LetStore(bindings, 0, env, st) == st + LetFrames(st[env], bindings);
    LetCall(bindings, body, env, st, fuel, |st| + |bindings| - 1, st + LetFrames(st[env], bindings));
  }

  /** `(let ((x 1) (y x)) y)` is 1: the second binding sees the first. */
  lemma LetSequential(env: EnvId, st: Store, fuel: nat)
    requires fuel > 0 && env < |st|
    ensures var o := Eval(List([Sym("let"), List([List([Sym("x"), Int(1)]), List([Sym("y"), Sym("x")])]), Sym("y")]), env, st, fuel);
      o.result == Ok(Int(1)) && |o.store| == |st| + 2 && o.store[..|st|] == st
  {
    var b1 := List([Sym("x"), Int(1)]);
    var b2 := List([Sym("y"), Sym("x")]);
    SequentialFrames(st[env]);
    LetSimple([b1, b2], Sym("y"), env, st, fuel);
    var st' := st + LetFrames(st[env], [b1, b2]);
    assert st'[|st| + 1] == LetFrames(st[env], [b1, b2])[1];
    EvalSimple(Sym("y"), |st| + 1, st', fuel - 1);
  }

  /** The frames of `((x 1) (y x))`: the last one binds y to 1. */
  lemma SequentialFrames(f: Frame)
    ensures var b1 := List([Sym("x"), Int(1)]);
      var b2 := List([Sym("y"), Sym("x")]);
      SimpleBindings(f, [b1, b2]) && |LetFrames(f, [b1, b2])| == 2 &&
      "y" in LetFrames(f, [b1, b2])[1] && LetFrames(f, [b1, b2])[1]["y"] == Int(1)
  {
    var b1 := List([Sym("x"), Int(1)]);
    var b2 := List([Sym("y"), Sym("x")]);
    var f1 := Extend(f, map["x" := Int(1)]);
    var f2 := Extend(f1, map["y" := Int(1)]);
    assert [b1, b2][1..] == [b2] && [b2][1..] == [];
    assert SimpleBindings(f2, []);
    assert SimpleBindings(f1, [b2]);
    assert SimpleBindings(f, [b1, b2]);
    assert LetFrames(f, [b1, b2]) == [f1, f2];
  }

  // ---- cond -------------------------------------------------------------------

  /** The clauses before i all have a simple condition whose value is #f. */
  predicate FalseClauses(clauses: seq<Node>, i: nat, f: Frame)
  {
    i <= |clauses| &&
    forall j :: 0 <= j < i ==>
      clauses[j].List? && |clauses[j].items| > 0 &&
      Simple(clauses[j].items[0], f) && Value(clauses[j].items[0], f) == Bool(false)
  }

  /** Clauses whose condition is #f are passed over without effect. */
  lemma {:induction false} CondSkipsFalse(clauses: seq<Node>, i: nat, env: EnvId, st: Store, fuel: nat)
    requires env < |st| && FalseClauses(clauses, i, st[env])
    ensures CondFrom(clauses, 0, env, st, fuel) == CondFrom(clauses, i, env, st, fuel)
  {
    if i > 0 {
      CondSkipsFalse(clauses, i - 1, env, st, fuel);
      SimpleArg(clauses[i - 1].items, 0, env, st, fuel);
    }
  }

  /** `(cond clauses)` runs the clause loop; the clause list itself is not
      evaluated. */
  lemma CondCall(clauses: seq<Node>, env: EnvId, st: Store, fuel: nat)
    requires fuel > 0 && env < |st|
    ensures Eval(List([Sym("cond"), List(clauses)]), env, st, fuel) == CondFrom(clauses, 0, env, st, fuel - 1)
  {
    var exps := [Sym("cond"), List(clauses)];
    KeywordCall(exps, env, st, fuel);
    assert FormOf("cond") == Some(CondForm);
    assert Special(CondForm, exps, env, st, fuel - 1) == EvalCond(exps, env, st, fuel - 1);
  }

  /** The clause loop from clause i + 1 of `[x] + rest` is the loop from
      clause i of rest. */
  lemma {:induction false} CondFromShift(x: Node, rest: seq<Node>, i: nat, env: EnvId, st: Store, fuel: nat)
    requires i <= |rest| && env < |st|
    ensures CondFrom([x] + rest, i + 1, env, st, fuel) == CondFrom(rest, i, env, st, fuel)
    decreases |rest| - i
  {
    var clauses := [x] + rest;
    assert clauses[i + 1..] == rest[i..];
    if i < |rest| {
      assert clauses[i + 1] == rest[i];
      if rest[i].List? {
        var c := EvalBoolean(rest[i].items, 0, env, st, fuel);
        if c.result.Ok? && !c.result.value {
          CondFromShift(x, rest, i + 1, env, c.store, fuel);
        }
      }
    }
  }

  /** `(cond clause rest...)` for any first clause: it must be a list; its
      condition is evaluated and must be a Bool; #t gives the value of the
      clause's expression, evaluated in the store the condition left; #f goes
      on with `(cond rest...)` in that store. The first error is the result. */
  lemma CondFirstClause(clause: Node, rest: seq<Node>, env: EnvId, st: Store, fuel: nat)
    requires fuel > 0 && env < |st|
    ensures Eval(List([Sym("cond"), List([clause] + rest)]), env, st, fuel) ==
      if !clause.List? then Out(Err(LispError(NotAList)), st)
      else if |clause.items| == 0 then Out(Err(HostError(IndexOutOfBounds)), st)
      else
        var cv := Eval(clause.items[0], env, st, fuel - 1);
        if cv.result.Err? then cv
        else if !cv.result.value.Bool? then Out(Err(LispError(NotABool)), cv.store)
        else if !cv.result.value.b then Eval(List([Sym("cond"), List(rest)]), env, cv.store, fuel)
        else if |clause.items| < 2 then Out(Err(HostError(IndexOutOfBounds)), cv.store)
        else Eval(clause.items[1], env, cv.store, fuel - 1)
  {
    var clauses := [clause] + rest;
    CondCall(clauses, env, st, fuel);
    assert clauses[0] == clause;
    if clause.List? && |clause.items| == 0 {
      assert EvalBoolean(clause.items, 0, env, st, fuel - 1) == Out(Err(HostError(IndexOutOfBounds)), st);
    } else if clause.List? {
      var cv := Eval(clause.items[0], env, st, fuel - 1);
      assert EvalArg(clause.items, 0, env, st, fuel - 1) == cv;
      var c := EvalBoolean(clause.items, 0, env, st, fuel - 1);
      assert c.store == cv.store;
      if cv.result.Ok? && cv.result.value.Bool? && !cv.result.value.b {
        assert c.result == Ok(false);
        CondFromShift(clause, rest, 0, env, cv.store, fuel - 1);
        CondCall(rest, env, cv.store, fuel);
      }
    }
  }

  /** `(cond)` with no clauses is #f and changes nothing. */
  lemma CondNoClauses(env: EnvId, st: Store, fuel: nat)
    requires fuel > 0 && env < |st|
    ensures Eval(List([Sym("cond"), List([])]), env, st, fuel) == Out(Ok(Bool(false)), st)
  {
    CondCall([], env, st, fuel);
  }

  /** The first clause whose condition is #t gives the value of its
      expression, and later clauses are never looked at. */
  lemma CondPicksFirstTrue(clauses: seq<Node>, i: nat, env: EnvId, st: Store, fuel: nat)
    requires fuel > 0 && env < |st| && FalseClauses(clauses, i, st[env]) && i < |clauses|
    requires clauses[i].List? && |clauses[i].items| >= 2
    requires Simple(clauses[i].items[0], st[env]) && Value(clauses[i].items[0], st[env]) == Bool(true)
    ensures Eval(List([Sym("cond"), List(clauses)]), env, st, fuel) == Eval(clauses[i].items[1], env, st, fuel - 1)
  {
    CondCall(clauses, env, st, fuel);
    CondSkipsFalse(clauses, i, env, st, fuel - 1);
    SimpleArg(clauses[i].items, 0, env, st, fuel - 1);
    assert CondFrom(clauses, i, env, st, fuel - 1) == EvalArg(clauses[i].items, 1, env, st, fuel - 1);
  }

  /** When every condition is #f the value of cond is #f. */
  lemma CondAllFalse(clauses: seq<Node>, env: EnvId, st: Store, fuel: nat)
    requires fuel > 0 && env < |st| && FalseClauses(clauses, |clauses|, st[env])
    ensures Eval(List([Sym("cond"), List(clauses)]), env, st, fuel) == Out(Ok(Bool(false)), st)
  {
    CondCall(clauses, env, st, fuel);
    CondSkipsFalse(clauses, |clauses|, env, st, fuel - 1);
  }
}
