/** The operator table: which symbols name integer arithmetic, which names
    the comparison, and what each arithmetic operator computes. */
module Operators {
  import opened Results
  import opened Ints

  datatype MathOp = PlusOp | MinusOp | DivideOp | MultiplyOp | ModOp

  /** The table lookup `math.get(operator)`; None for a name not in the table. */
  function GetOperator(name: string): (r: Option<MathOp>)
    ensures r.Some? <==> name in {"+", "-", "/", "*", "mod"}
  {
    match name
    case "+" => Some(PlusOp)
    case "-" => Some(MinusOp)
    case "/" => Some(DivideOp)
    case "*" => Some(MultiplyOp)
    case "mod" => Some(ModOp)
    case _ => None
  }

  predicate IsMathOperator(name: string) { GetOperator(name).Some? }

  predicate IsLargerThanOperator(name: string) { name == ">" }

  /** Applying a table entry to two Ints. Java's / and % throw an
      ArithmeticException for a zero divisor. */
  function Apply(op: MathOp, a: i32, b: i32): (r: Result<i32>)
    ensures r.Err? <==> (op == DivideOp || op == ModOp) && b == 0
    ensures r.Err? ==> r.error == HostError(DivisionByZero)
    ensures op == PlusOp ==> Congruent(r.value as int, a as int + b as int)
    ensures op == MinusOp ==> Congruent(r.value as int, a as int - b as int)
    ensures op == MultiplyOp ==> Congruent(r.value as int, a as int * b as int)
    ensures op == DivideOp && b != 0 && !(a as int == MIN && b == -1) ==>
              r.value as int == TruncDiv(a as int, b as int)
    ensures op == ModOp && b != 0 ==> r.value as int == TruncMod(a as int, b as int)
  {
    match op
    case PlusOp => Ok(Plus(a, b))
    case MinusOp => Ok(Minus(a, b))
    case MultiplyOp => Ok(Multiply(a, b))
    case DivideOp => if b == 0 then Err(HostError(DivisionByZero)) else Ok(Divide(a, b))
    case ModOp => if b == 0 then Err(HostError(DivisionByZero)) else Ok(Mod(a, b))
  }

  /** The table maps each of its five names to its own operator, and `>` is
      not in it, so the math check and the comparison check never overlap. */
  lemma OperatorTable()
    ensures GetOperator("+") == Some(PlusOp) && GetOperator("-") == Some(MinusOp)
    ensures GetOperator("/") == Some(DivideOp) && GetOperator("*") == Some(MultiplyOp)
    ensures GetOperator("mod") == Some(ModOp)
    ensures forall name :: IsLargerThanOperator(name) ==> !IsMathOperator(name)
  {
  }
}
