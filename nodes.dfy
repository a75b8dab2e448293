/** The abstract syntax tree, which is also the value domain: Bool, Int, Str
    and Symbol atoms, lists (SList), and closures. Holds the operations of the
    value classes that do not evaluate anything: the list primitives, the
    string primitives, atom-ness and printing. */
module Nodes {
  import opened Results
  import opened Ints

  /** Index of an Environment object in the evaluator's store (see module
      Environments); it plays the role of the Java reference a Closure keeps. */
  type EnvId = nat

  datatype Node =
    | Bool(b: bool)
    | Int(v: i32)
    | Str(s: string)
    | Sym(name: string)
    | List(items: seq<Node>)
    | Closure(env: EnvId, params: seq<Node>, body: Node)

  const Quote: Node := Sym("quote")

  /** Bool, Int, Str and Symbol extend Atom; SList and Closure do not. */
  predicate IsAtom(n: Node)
  {
    n.Bool? || n.Int? || n.Str? || n.Sym?
  }

  // ---- SList --------------------------------------------------------------

  /** SList.cons: the list with h in front. */
  function Cons(items: seq<Node>, h: Node): (r: Node)
    ensures r.List? && |r.items| == |items| + 1
    ensures r.items[0] == h && r.items[1..] == items
  {
    List([h] + items)
  }

  /** SList.head: element 0, or a LispException on the empty list. */
  function Head(items: seq<Node>): (r: Result<Node>)
    ensures r.Ok? <==> |items| > 0
    ensures r.Ok? ==> r.value == items[0]
    ensures r.Err? ==> r.error == LispError(HeadOfEmpty)
  {
    if |items| == 0 then Err(LispError(HeadOfEmpty)) else Ok(items[0])
  }

  /** SList.tail: elements 1..n-1, or a LispException on the empty list. */
  function Tail(items: seq<Node>): (r: Result<Node>)
    ensures r.Ok? <==> |items| > 0
    ensures r.Ok? ==> r.value.List? && |r.value.items| == |items| - 1
    ensures r.Ok? ==> forall i :: 0 <= i < |items| - 1 ==> r.value.items[i] == items[i + 1]
    ensures r.Err? ==> r.error == LispError(TailOfEmpty)
  {
    if |items| == 0 then Err(LispError(TailOfEmpty)) else Ok(List(items[1..]))
  }

  /** SList.isEmpty; `empty` applies the same test to a string's
      characters. */
  function IsEmpty<T>(items: seq<T>): (r: Node)
    ensures r.Bool? && (r.b <==> |items| == 0)
  {
    Bool(|items| == 0)
  }

  /** head and tail take apart what cons put together. */
  lemma ConsHeadTail(items: seq<Node>, h: Node)
    ensures Head(Cons(items, h).items) == Ok(h)
    ensures Tail(Cons(items, h).items) == Ok(List(items))
    ensures IsEmpty(Cons(items, h).items) == Bool(false)
  {
  }

  // ---- Str (modelled from its behaviour as a list of characters) ----------

  function StrCons(h: string, t: string): (r: Node)
    ensures r.Str? && |r.s| == |h| + |t| && r.s[..|h|] == h && r.s[|h|..] == t
  {
    Str(h + t)
  }

  function StrHead(s: string): (r: Result<Node>)
    ensures r.Ok? <==> |s| > 0
    ensures r.Ok? ==> r.value == Str([s[0]])
    ensures r.Err? ==> r.error == LispError(HeadOfEmpty)
  {
    if |s| == 0 then Err(LispError(HeadOfEmpty)) else Ok(Str([s[0]]))
  }

  function StrTail(s: string): (r: Result<Node>)
    ensures r.Ok? <==> |s| > 0
    ensures r.Ok? ==> r.value == Str(s[1..])
    ensures r.Err? ==> r.error == LispError(TailOfEmpty)
  {
    if |s| == 0 then Err(LispError(TailOfEmpty)) else Ok(Str(s[1..]))
  }

  /** Consing a non-empty string's head back onto its tail gives the string. */
  lemma StrConsHeadTail(s: string)
    requires |s| > 0
    ensures StrHead(s).Ok? && StrTail(s).Ok?
    ensures StrCons(StrHead(s).value.s, StrTail(s).value.s) == Str(s)
  {
  }

  // ---- toString -----------------------------------------------------------

  /** The printed form of a node: `#t`/`#f`, decimal Ints, strings in double
      quotes, symbol text, `[Closure]`, `(a b c)` for lists and `'x` for a list
      whose first element prints as `quote`. */
  function Print(n: Node): string
    decreases n
  {
    match n
    case Bool(b) => if b then "#t" else "#f"
    case Int(v) => ToString(v)
    case Str(s) => "\"" + s + "\""
    case Sym(name) => name
    case Closure(_, _, _) => "[Closure]"
    case List(items) =>
      if |items| == 0 then "()"
      else if Print(items[0]) == "quote" then "'" + PrintAll(items[1..])
      else "(" + PrintAll(items) + ")"
  }

  /** The printed elements separated by single spaces. */
  function PrintAll(items: seq<Node>): string
    decreases items
  {
    if |items| == 0 then ""
    else if |items| == 1 then Print(items[0])
    else Print(items[0]) + " " + PrintAll(items[1..])
  }

  /** Only the symbol `quote` prints as `quote`, so the quote shorthand is
      chosen exactly for lists headed by that symbol. */
  lemma PrintsAsQuote(n: Node)
    ensures Print(n) == "quote" <==> n == Quote
  {
    match n
    case Int(v) =>
      var p := ToString(v);
      assert p[0] == '-' || IsDigit(p[0]);
    case List(items) =>
      var p := Print(n);
      assert p[0] == '(' || p[0] == '\'';
    case Str(s) =>
      assert Print(n)[0] == '"';
    case Bool(b) =>
    case Sym(name) =>
    case Closure(_, _, _) =>
  }

  /** A two-element list headed by `quote` prints in the shorthand form. */
  lemma PrintQuoted(x: Node)
    ensures Print(List([Quote, x])) == "'" + Print(x)
  {
    PrintsAsQuote(Quote);
    assert [Quote, x][1..] == [x];
  }
}
