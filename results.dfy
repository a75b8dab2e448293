/** Outcomes of the reader and the evaluator: a value, or the error the Java
    program would have thrown instead. */
module Results {

  /** Why a ParseException is thrown. */
  datatype ParseFault =
    | ExpectedEof           // more than one top-level expression
    | IncompleteExpression  // an opening paren with no matching close
    | UnclosedString        // a string literal with no unescaped closing quote

  /** Why a LispException is thrown. */
  datatype LispFault =
    | UnboundSymbol(name: string)     // Environment.lookup of an unbound key
    | AlreadyDefined(name: string)    // Environment.set of a bound key
    | EmptyListEvaluated              // evaluating ()
    | NotAFunction                    // an Int, Bool or Str in head position
    | NotANumber | NotABool | NotASymbol | NotAList | NotAString
    | DefineArity                     // define without exactly two operands
    | LambdaArity                     // lambda (or defn) without exactly two operands
    | CallArity                       // closure applied to the wrong number of arguments
    | HeadOfEmpty | TailOfEmpty

  /** Java runtime exceptions that are not LispExceptions, and the one
      situation a Java reference cannot produce. */
  datatype HostFault =
    | IndexOutOfBounds        // List.get past the end (a missing operand)
    | StringIndexOutOfBounds  // charAt / substring past the end
    | NullPointer             // firstExpression of a lone quote yields null
    | NumberFormat            // Integer.parseInt of a literal outside 32 bits
    | DivisionByZero          // ArithmeticException from / or %
    | ClassCast               // a closure parameter that is not a Symbol
    | NullResult              // Closure.evaluate(env) returns null
    | DanglingEnvironment     // an environment index naming no environment

  datatype Error =
    | ParseError(parse: ParseFault)
    | LispError(lisp: LispFault)
    | HostError(host: HostFault)
    | OutOfFuel  // evaluation did not finish within the given fuel

  datatype Result<T> = Ok(value: T) | Err(error: Error)

  datatype Option<T> = None | Some(value: T)
}
