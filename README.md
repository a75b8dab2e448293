# diy-lisp in Dafny

This project models the core of diy-lisp-java, a small Lisp interpreter. It has three parts:

- a **reader** that turns source text into s-expression trees;
- a tree-walking **evaluator** over environments that map symbols to values;
- the value classes the evaluator works on: Bool, Int, Str, Symbol, lists (SList) and closures.

The model covers:

- quote;
- 32-bit integer arithmetic and `>`;
- `atom` and `eq`;
- `if`, `define`, and `lambda` with closure application;
- the list and string primitives `cons`, `head`, `tail` and `empty`;
- the sugar forms `cond`, `let` and `defn`.

Modules, one file each:

- `Results` (`results.dfy`): every error the Java code raises, as a value:
  - `ParseException`, with its reason;
  - `LispException`, with its reason;
  - the Java runtime exceptions the code lets escape.
- `Ints` (`ints.dfy`): Java `int` arithmetic.
  - `+ - *` wrap modulo 2^32.
  - `/` and `%` truncate toward zero. They are written out because Dafny's `/` and `%` are Euclidean.
  - The literal syntax `-?\d+` and `Integer.toString`.
- `Nodes` (`nodes.dfy`): the syntax tree, which is also the value domain.
  - The `SList` operations `cons`, `head`, `tail` and `isEmpty`.
  - Their string counterparts.
  - Which nodes are atoms.
  - `toString`.
- `Operators` (`operators.dfy`): the operator table.
- `Environments` (`environments.dfy`): the `lookup`, `extend` and `set` operations on one binding map.
  - The evaluator's store of environment objects, and the invariant that it only grows.
  - A class `Environment`: the mutable Java object, whose methods are proved against the same functions.
- `Parser` (`parser.dfy`): the reader.
  - `removeComments`, `findMatchingParen`, `firstExpression`, `splitExpressions`, `hasMultipleExpressions`, `parse` and `parseMultiple`.
  - The scanning loops as methods, proved equal to their specification functions.
- `ParserFacts` (`parser_facts.dfy`): what the reader does on tokens, quotes, string literals, lists, and two expressions where one is expected.
- `Evaluator` (`evaluator.dfy`): `Evaluator.evaluate`, the keyword dispatch of `Symbol`, the list evaluation of `SList`, closure application, and every special form.
  - The `cond`, `let` and `merge` loops as methods, proved equal to their specification functions.
- `EvaluatorFacts` (`evaluator_facts.dfy`): what the evaluator does for each form.
  - Dispatch order, and that keywords are never looked up.
  - Only the chosen `if` branch is evaluated.
  - Definitions are write-once, and recursion works through the captured environment.
  - Argument evaluation and scoping in closure calls.
  - Sequential `let` bindings, and `cond` picking the first true clause.

## How environments are modelled

A Java `Closure` holds its `Environment` by reference. `define` later mutates that same object, which is why a function can call itself.

The evaluator keeps every environment object in a store, `seq<map<string, Node>>`. An environment reference is an index into that store, `EnvId`.

- Each evaluation function takes the store and returns the store after it, also when evaluation fails: definitions made before an exception stay made.
- `define` updates one frame of the store in place.
- `extend` appends a fresh frame.
- Every evaluation function ensures `Grows`: no environment disappears, and no binding is removed or rebound.

Lisp programs need not terminate, so evaluation carries fuel. Each list evaluation spends one unit, and running out gives `OutOfFuel`.

The Java class `Environment` is modelled a second time as a Dafny `class`. Its `variables` map is a field, and `set` modifies it in place.

## Model

| member | source | states |
|---|---|---|
| Ints.Wrap | src/com/diylisp/model/Int.java:58-72 | The stored 32-bit value is congruent to the exact result modulo 2^32, and equal to it when the result fits |
| Ints.Plus | src/com/diylisp/model/Int.java:58-60 | `plus` is Java int addition: congruent to the exact sum modulo 2^32, and exact when no overflow occurs |
| Ints.Minus | src/com/diylisp/model/Int.java:62-64 | `minus` wraps the same way, and is exact without overflow |
| Ints.Multiply | src/com/diylisp/model/Int.java:70-72 | `multiply` wraps the same way, and is exact without overflow |
| Ints.Divide | src/com/diylisp/model/Int.java:66-68 | `divide` is the quotient truncated toward zero, except for MIN / -1, which wraps to MIN |
| Ints.Mod | src/com/diylisp/model/Int.java:74-76 | `mod` is the remainder of truncated division |
| Ints.TruncDivMod | src/com/diylisp/model/Int.java:66-76 | Quotient times divisor plus remainder gives the dividend. The remainder is smaller than the divisor in magnitude and has the dividend's sign (or is zero). The quotient rounds toward zero |
| Ints.QuotientInRange | src/com/diylisp/model/Int.java:66-68 | A quotient of 32-bit ints leaves the 32-bit range only for MIN / -1 |
| Ints.QuotientMagnitude | src/com/diylisp/model/Int.java:66-68 | The magnitude of the truncated quotient: \|a\| for a divisor of magnitude one, at most \|a\|/2 otherwise |
| Ints.DivideModIdentity | src/com/diylisp/model/Int.java:66-76 | `(a/b)*b + a%b == a` holds for the wrapped 32-bit operations, MIN / -1 included |
| Ints.NatToString | src/com/diylisp/model/Int.java:44-47 | The decimal form of a natural number is a non-empty string of digits |
| Ints.NatToStringValue | src/com/diylisp/model/Int.java:44-47 | Reading back the decimal digits of n gives n |
| Ints.ToStringRoundTrip | src/com/diylisp/model/Int.java:15-25 | The printed form of every Int passes `isNumber`, and `Integer.parseInt` of it gives the same Int back |
| Nodes.Cons | src/main/java/com/diy/lisp/model/SList.java:108-111 | `cons(h)` on n elements gives n+1 elements: h at index 0, then the old elements in order |
| Nodes.Head | src/main/java/com/diy/lisp/model/SList.java:113-118 | `head` succeeds iff the list is non-empty and then gives element 0. On the empty list it raises the head-of-empty LispException |
| Nodes.Tail | src/main/java/com/diy/lisp/model/SList.java:120-125 | `tail` succeeds iff the list is non-empty and then gives elements 1..n-1 (n-1 of them). On the empty list it raises LispException |
| Nodes.IsEmpty | src/main/java/com/diy/lisp/model/SList.java:127-129 | `isEmpty` is `#t` iff the list has no elements; `empty` applies the same test to a string's characters |
| Nodes.ConsHeadTail | src/main/java/com/diy/lisp/model/SList.java:108-129 | `head` and `tail` take apart what `cons` built, and the result of `cons` is never empty |
| Nodes.StrCons | src/main/java/com/diy/lisp/Evaluator.java:120 | Consing strings concatenates them: the head's characters, then the tail's |
| Nodes.StrHead | src/main/java/com/diy/lisp/Evaluator.java:130 | The head of a string is its first character, and an error on "" |
| Nodes.StrTail | src/main/java/com/diy/lisp/Evaluator.java:140 | The tail of a string drops its first character, and is an error on "" |
| Nodes.StrConsHeadTail | src/main/java/com/diy/lisp/Evaluator.java:120-150 | Consing a non-empty string's head back onto its tail gives the string |
| Nodes.PrintsAsQuote | src/main/java/com/diy/lisp/model/SList.java:65-80 | Only the symbol `quote` prints as `quote`, so the `'x` shorthand is used exactly for lists headed by that symbol |
| Nodes.PrintQuoted | src/main/java/com/diy/lisp/model/SList.java:65-80 | `(quote x)` prints as `'` followed by the printed x |
| Operators.GetOperator | src/main/java/com/diy/lisp/Operators.java:12-30 | The table holds an entry exactly for `+`, `-`, `/`, `*` and `mod` |
| Operators.Apply | src/main/java/com/diy/lisp/Operators.java:12-18 | Each entry computes its Int operation. Only `/` and `mod` by zero fail, with Java's ArithmeticException |
| Operators.OperatorTable | src/main/java/com/diy/lisp/Operators.java:12-30 | Each name maps to its own operation (`+` to plus … `mod` to mod). `>` is not a math operator, so the two checks of the dispatch never overlap |
| Environments.Lookup | src/main/java/com/diy/lisp/model/Environment.java:28-33 | `lookup` succeeds iff the name is bound and gives the stored value. An unbound name raises LispException |
| Environments.Extend | src/main/java/com/diy/lisp/model/Environment.java:35-44 | The new map binds the parent's names and the new names. New bindings win on a clash, and parent bindings are kept otherwise |
| Environments.Set | src/main/java/com/diy/lisp/model/Environment.java:46-51 | `set` succeeds iff the name is unbound, adds exactly that binding and keeps the rest. A bound name raises LispException |
| Environments.GrowsTransitive | src/main/java/com/diy/lisp/model/Environment.java:46-51 | The grows-only invariant of the store composes over successive evaluation steps |
| Environments.Define | src/main/java/com/diy/lisp/model/Environment.java:46-51 | `env.set` in the store changes only that environment, adds exactly the one binding, and keeps the store growing. A bound name is refused |
| Environments.ExtendEnv | src/main/java/com/diy/lisp/model/Environment.java:35-44 | `extend` creates a fresh environment and leaves every existing one, the parent included, unchanged |
| Environments.Environment.constructor | src/main/java/com/diy/lisp/model/Environment.java:12-14 | A new Environment has no bindings |
| Environments.Environment.FromMap | src/main/java/com/diy/lisp/model/Environment.java:16-18 | An Environment made from a map holds exactly that map |
| Environments.Environment.LookupKey | src/main/java/com/diy/lisp/model/Environment.java:28-33 | The object's `lookup` agrees with Lookup on its current bindings |
| Environments.Environment.ExtendWith | src/main/java/com/diy/lisp/model/Environment.java:35-44 | The copying loop yields a fresh object whose bindings are Extend of this one's. This object is not modified |
| Environments.Environment.SetKey | src/main/java/com/diy/lisp/model/Environment.java:46-51 | `set` updates the object in place as Set prescribes. On a bound name it reports the error and leaves the bindings unchanged |
| Parser.StripConcat | src/com/diylisp/Parser.java:96-145 | Stripping distributes over concatenation |
| Parser.TrimStart | src/com/diylisp/Parser.java:20 | A suffix of the text with no leading blank, keeping every non-blank character |
| Parser.TrimEnd | src/com/diylisp/Parser.java:20 | A prefix of the text with no trailing blank, keeping every non-blank character |
| Parser.Trim | src/com/diylisp/Parser.java:20 | `trim` leaves no blank at either end, loses no non-blank character, and leaves a text without blank ends as it is |
| Parser.LineLength | src/com/diylisp/Parser.java:65-67 | `.*` matches up to, not including, the first line terminator |
| Parser.RemoveComments | src/com/diylisp/Parser.java:65-67 | Comment removal never lengthens the text |
| Parser.CountConcat | src/com/diylisp/Parser.java:65-67 | Character counts add up over concatenation |
| Parser.NoTerminatorNoNewline | src/com/diylisp/Parser.java:65-67 | A text without line terminators has no newline |
| Parser.RemoveCommentsKeepsNewlines | src/com/diylisp/Parser.java:65-67 | Removing `;`-to-end-of-line comments keeps the number of `\n` characters unchanged |
| Parser.CommentHasOneNewline | src/com/diylisp/Parser.java:65-67 | The text one comment match covers holds exactly one newline, its last character |
| Parser.CommentFreeUnchanged | src/com/diylisp/Parser.java:65-67 | A text in which no `;` has a newline after it is left unchanged by comment removal, whatever `;` it holds |
| Parser.NoSemicolonUnchanged | src/com/diylisp/Parser.java:65-67 | In particular, a text without `;` is left unchanged |
| Parser.CommentRemoved | src/com/diylisp/Parser.java:65-67 | A `;` comment closed by a newline is replaced by just that newline, and the rest is processed alike |
| Parser.LineLengthOfLine | src/com/diylisp/Parser.java:65-67 | `.*` stops exactly at the end of the line |
| Parser.DepthStep | src/com/diylisp/Parser.java:78-91 | The bracket count after one more character changes by that character's weight: `(` up one, `)` down one |
| Parser.MatchingParen | src/com/diylisp/Parser.java:78-94 | Either the first position after 0 where the bracket count reaches 0, or, when the count stays positive to the end, the "Incomplete expression" ParseException |
| Parser.ScanParenSpec | src/com/diylisp/Parser.java:78-94 | The scanning loop from any position keeps that promise |
| Parser.FindMatchingParen | src/com/diylisp/Parser.java:78-94 | The `while` loop over `pos` and `openBrackets` computes MatchingParen |
| Parser.CloseQuote | src/com/diylisp/Parser.java:122-129 | The closing quote of a literal is the first `"` after position 0 not preceded by `\`. None exists exactly when no position closes it |
| Parser.CloseQuoteFromSpec | src/com/diylisp/Parser.java:123-127 | The search from any index finds the first closing position from there on, or reports that there is none |
| Parser.ScanString | src/com/diylisp/Parser.java:123-129 | The index loop of the string case computes CloseQuote |
| Parser.TokenLength | src/com/diylisp/Parser.java:137-143 | `^[^\s']+` matches the longest run of token characters at the start |
| Parser.SplitAt | src/com/diylisp/Parser.java:134 | A text cut in two: head and rest concatenate to the text, and the head has the given length |
| Parser.FirstExpressionShape | src/com/diylisp/Parser.java:110-145 | firstExpression gives nothing exactly for "". Otherwise, on success, it gives a non-empty head and a rest strictly shorter than the trimmed text, losing no non-blank character. Outside the quote case, head followed by rest is the trimmed text |
| Parser.QuotedHeadStrip | src/com/diylisp/Parser.java:116-120 | Putting the quote back on the head keeps every non-blank character of the text |
| Parser.SplitFrom | src/com/diylisp/Parser.java:99-106 | The splitting loop yields non-empty pieces that together hold the text's non-blank characters in order, and no pieces only for "" |
| Parser.SplitCons | src/com/diylisp/Parser.java:101-104 | Appending one more first expression keeps those promises |
| Parser.SplitPiece | src/com/diylisp/Parser.java:101-104 | The pieces found after a head, together with it, hold the characters of head and rest |
| Parser.SplitExpressions | src/com/diylisp/Parser.java:96-107 | splitExpressions keeps the pieces in left-to-right order and loses no non-blank character. It gives no piece only for a blank text |
| Parser.ScanFirstExpression | src/com/diylisp/Parser.java:110-145 | firstExpression with its scanning loops computes FirstExpression |
| Parser.SplitStep | src/com/diylisp/Parser.java:101-104 | One pass of the splitting loop moves the first expression from the source to the end of the list found so far |
| Parser.SplitFromFound | src/com/diylisp/Parser.java:101-104 | The pieces of a text are its first expression followed by the pieces of the rest |
| Parser.PrependNothing | src/com/diylisp/Parser.java:99 | The loop starts from an empty list |
| Parser.PrependTwice | src/com/diylisp/Parser.java:103 | Appending pieces one after another appends them in order |
| Parser.ScanExpressions | src/com/diylisp/Parser.java:96-107 | The Java loop that reassigns `source` and appends to a list computes SplitExpressions |
| Parser.HasMultipleExpressions | src/com/diylisp/Parser.java:69-72 | True iff splitting finds two or more top-level pieces. Splitting errors propagate |
| Parser.ParseList | src/com/diylisp/Parser.java:44-52 | A parenthesised expression parses to a list |
| Parser.Collect | src/com/diylisp/Parser.java:47-51 | Collecting succeeds iff every piece parsed, and keeps their values in order. Otherwise it gives the error of the first failing piece |
| Parser.CollectShift | src/com/diylisp/Parser.java:47-51 | The first failing piece of the tail is the first failing piece of the whole list |
| Parser.ParseMultiple | src/com/diylisp/Parser.java:57-63 | parseMultiple gives one node per top-level expression after comment removal, each the parse of its piece, in order. Splitting errors propagate |
| ParserFacts.TokenLengthOfToken | src/com/diylisp/Parser.java:137-143 | The token pattern matches a whole token and stops at the blank or quote after it |
| ParserFacts.PlainTokenChars | src/com/diylisp/Parser.java:137 | A plain token consists of characters the token pattern accepts |
| ParserFacts.FirstExpressionTrimmed | src/com/diylisp/Parser.java:114 | On a text without blank ends, firstExpression's trim changes nothing |
| ParserFacts.SingleExpression | src/com/diylisp/Parser.java:96-107 | A text that is its own first expression splits into itself alone, and so is not multiple expressions |
| ParserFacts.SplitAlone | src/com/diylisp/Parser.java:101-104 | The loop stops after a first expression that leaves nothing |
| ParserFacts.ParseUnchanged | src/com/diylisp/Parser.java:20 | parse of a comment-free text without blank ends reads that text as it is |
| ParserFacts.ParseQuote | src/com/diylisp/Parser.java:34-38 | A whole-text quote expression parses to `(quote X)`, with X the parse of the rest |
| ParserFacts.TokenSplits | src/com/diylisp/Parser.java:137-144 | A plain token followed by blank-led text is its own first expression |
| ParserFacts.TokenWhole | src/com/diylisp/Parser.java:137-144 | A plain token alone is its own first expression, with no blank at either end |
| ParserFacts.ParseWhole | src/com/diylisp/Parser.java:19-23 | A comment-free single expression without blank ends goes straight to the single-expression cases |
| ParserFacts.ParseToken | src/com/diylisp/Parser.java:19-54 | A plain token parses to Bool for `#t` and `#f`, to Int when the whole text matches `-?\d+` (or NumberFormatException out of range), and otherwise to a Symbol of exactly that text |
| ParserFacts.Quotes | src/com/diylisp/Parser.java:34-38 | k quote characters |
| ParserFacts.QuotesTail | src/com/diylisp/Parser.java:35 | Taking off one leading quote leaves one quote fewer |
| ParserFacts.QuotedTokenChars | src/com/diylisp/Parser.java:65-67 | A quoted plain token holds no comment and has no blank end |
| ParserFacts.QuotedTokenSplits | src/com/diylisp/Parser.java:116-120 | Any number of quotes before a plain token form one expression |
| ParserFacts.ParseQuotedToken | src/com/diylisp/Parser.java:34-38 | k quotes before a token nest its parse k levels deep in `(quote …)` |
| ParserFacts.FourQuotes | src/com/diylisp/Parser.java:34-38 | `''''foo` parses to foo nested four quotes deep |
| ParserFacts.StringLiteralCloses | src/com/diylisp/Parser.java:122-129 | In a literal whose quotes inside are all escaped, the closing quote is its last character |
| ParserFacts.ParseString | src/com/diylisp/Parser.java:40-42 | A string literal whose inner quotes are escaped, that does not end in a backslash, and in which no `;` has a newline after it, parses to its text between the quotes, escapes and `;` kept verbatim |
| ParserFacts.ParseStringWithSemicolon | src/com/diylisp/Parser.java:40-42 | `"a;b"` parses to the three characters a, `;` and b: a `;` with no newline after it stays in the literal |
| ParserFacts.SplitFromErr | src/com/diylisp/Parser.java:101 | A firstExpression error ends splitting with that error |
| ParserFacts.UnclosedLiteral | src/com/diylisp/Parser.java:122-129 | A `"` with no unescaped closing quote after it has no closing position |
| ParserFacts.SplitErr | src/com/diylisp/Parser.java:69-72 | A firstExpression error is hasMultipleExpressions's error |
| ParserFacts.ParseUnclosedString | src/com/diylisp/Parser.java:122-129 | A string literal without its closing quote raises "Unclosed string", already while the text is being split; a `;` in it is kept unless a newline follows it |
| ParserFacts.LeadingSpaceDropped | src/com/diylisp/Parser.java:114 | The blank before a token is trimmed away before the split |
| ParserFacts.TokenAlone | src/com/diylisp/Parser.java:137-144 | A token alone splits into itself and nothing |
| ParserFacts.TwoTokensChars | src/com/diylisp/Parser.java:65-67 | Two tokens separated by a space hold no comment and have no blank end |
| ParserFacts.SecondTokenRest | src/com/diylisp/Parser.java:101-104 | Splitting a blank and a token gives that token alone |
| ParserFacts.PrependPair | src/com/diylisp/Parser.java:103 | Two pieces found one after another stay in that order |
| ParserFacts.FirstTokenRest | src/com/diylisp/Parser.java:101-104 | A token then a blank-led token split into the two tokens |
| ParserFacts.TwoTokensSplit | src/com/diylisp/Parser.java:96-107 | Two tokens side by side split into exactly those two, in order |
| ParserFacts.ParseTwoTokens | src/com/diylisp/Parser.java:22-23 | Two expressions where one is expected raise "Expected EOF" |
| ParserFacts.ParseListPieces | src/com/diylisp/Parser.java:44-51 | A parenthesised expression is a list with one element per top-level piece between the parens, each element the parse of its piece, in order |
| ParserFacts.ParseEmptyList | src/com/diylisp/Parser.java:44-51 | `()` parses to the empty list |
| Evaluator.Eval | src/main/java/com/diy/lisp/Evaluator.java:20-22 | No evaluation removes an environment or changes or removes a binding: definitions are write-once, also when evaluation fails |
| Evaluator.EvalList | src/main/java/com/diy/lisp/Evaluator.java:25-27 | The same invariant for a list handed to its head |
| Evaluator.Call | src/main/java/com/diy/lisp/model/SList.java:82-86 | The same invariant when the head node is called, a list head being evaluated first and substituted |
| Evaluator.SymbolCall | src/main/java/com/diy/lisp/model/Symbol.java:49-96 | The same invariant for keyword dispatch and lookup-then-call |
| Evaluator.Special | src/main/java/com/diy/lisp/model/Symbol.java:50-91 | The same invariant for every special form |
| Evaluator.Apply | src/main/java/com/diy/lisp/model/Closure.java:36-48 | The same invariant for a closure call, which creates its callee environment fresh |
| Evaluator.MergeFrom | src/main/java/com/diy/lisp/model/Closure.java:53-63 | The same invariant while the arguments are evaluated in the caller's environment |
| Evaluator.EvalArg | src/main/java/com/diy/lisp/Evaluator.java:34 | The same invariant for evaluating one argument |
| Evaluator.EvalNumber | src/main/java/com/diy/lisp/Evaluator.java:75-81 | The same invariant for an argument that must be an Int |
| Evaluator.EvalBoolean | src/main/java/com/diy/lisp/Evaluator.java:83-89 | The same invariant for an argument that must be a Bool |
| Evaluator.EvalAtom | src/main/java/com/diy/lisp/Evaluator.java:29-31 | The same invariant for `atom` (its value is stated for any operand by EvaluatorFacts.AtomEvaluates; a closure is not an atom, see below) |
| Evaluator.EvalEq | src/main/java/com/diy/lisp/Evaluator.java:33-37 | The same invariant for `eq` (its value is stated for any operands by EvaluatorFacts.EqEvaluates; a closure is not an atom, so two closures are never eq) |
| Evaluator.EvalMath | src/main/java/com/diy/lisp/Evaluator.java:39-45 | The same invariant for arithmetic |
| Evaluator.EvalLargerThan | src/main/java/com/diy/lisp/Evaluator.java:47-51 | The same invariant for `>` |
| Evaluator.EvalIf | src/main/java/com/diy/lisp/Evaluator.java:53-56 | The same invariant for `if` |
| Evaluator.EvalDefine | src/main/java/com/diy/lisp/Evaluator.java:58-65 | `define` keeps the invariant: it only adds a binding |
| Evaluator.EvalLambda | src/main/java/com/diy/lisp/Evaluator.java:67-73 | lambda succeeds iff it has exactly two operands, the first a list. It then gives a Closure of the current environment, the parameter list and the unevaluated body. Otherwise it raises the arity error or the not-a-list error |
| Evaluator.EvalCons | src/main/java/com/diy/lisp/Evaluator.java:112-121 | The grows-only invariant for `cons` |
| Evaluator.ConsValues | src/main/java/com/diy/lisp/Evaluator.java:115-120 | Onto a list, cons prepends. Onto a string with a string head, it concatenates. It fails exactly otherwise, with the not-a-string LispException |
| Evaluator.EvalHead | src/main/java/com/diy/lisp/Evaluator.java:123-131 | The grows-only invariant for `head` |
| Evaluator.EvalTail | src/main/java/com/diy/lisp/Evaluator.java:133-141 | The grows-only invariant for `tail` |
| Evaluator.EvalEmpty | src/main/java/com/diy/lisp/Evaluator.java:143-151 | The grows-only invariant for `empty` |
| Evaluator.EvalCond | src/main/java/com/diy/lisp/Evaluator.java:153-154 | The grows-only invariant for `cond` |
| Evaluator.CondFrom | src/main/java/com/diy/lisp/Evaluator.java:156-163 | The grows-only invariant for the clause loop |
| Evaluator.EvalLet | src/main/java/com/diy/lisp/Evaluator.java:166-176 | The grows-only invariant for `let` |
| Evaluator.LetFrom | src/main/java/com/diy/lisp/Evaluator.java:168-173 | The binding loop keeps the invariant and ends in an environment that exists |
| Evaluator.LetBind | src/main/java/com/diy/lisp/Evaluator.java:169-172 | One binding keeps the invariant and yields an environment that exists |
| Evaluator.EvalDefn | src/main/java/com/diy/lisp/Evaluator.java:178-182 | `defn` keeps the invariant: it only adds a binding |
| Evaluator.EvaluateCond | src/main/java/com/diy/lisp/Evaluator.java:153-164 | The `for` loop with its early return computes CondFrom |
| Evaluator.EvaluateLet | src/main/java/com/diy/lisp/Evaluator.java:166-173 | The `for` loop that reassigns `env` computes LetFrom |
| Evaluator.Merge | src/main/java/com/diy/lisp/model/Closure.java:53-63 | The iterator loop that fills the map computes MergeFrom |
| EvaluatorFacts.EvalSimple | src/main/java/com/diy/lisp/model/Symbol.java:44-47 | Bool, Int and Str evaluate to themselves, a bound symbol to its binding, and a quotation to its operand. None of them changes an environment or spends fuel |
| EvaluatorFacts.SimpleArg | src/main/java/com/diy/lisp/Evaluator.java:75-89 | A simple argument must be an Int where a number is needed, and a Bool where a condition is needed. Otherwise the matching LispException is raised |
| EvaluatorFacts.KeywordTable | src/main/java/com/diy/lisp/model/Symbol.java:50-91 | The keywords are exactly atom, eq, `+ - * / mod`, `>`, if, define, lambda, cons, head, tail, empty, cond, let and defn. `quote` is not one of them |
| EvaluatorFacts.ListStep | src/main/java/com/diy/lisp/model/SList.java:88-97 | A non-empty list not headed by `quote` is handed to its head |
| EvaluatorFacts.KeywordCall | src/main/java/com/diy/lisp/model/Symbol.java:50-91 | A list headed by a keyword runs that keyword's form, whatever the environment binds the keyword to |
| EvaluatorFacts.UnboundHead | src/main/java/com/diy/lisp/model/Symbol.java:93 | A non-keyword head symbol that is unbound raises the lookup's LispException and changes nothing |
| EvaluatorFacts.AtomHeadNotAFunction | src/main/com/diylisp/model/AbstractSyntaxTree.java:10-12 | A Bool, Int or Str in head position raises "is not a function" |
| EvaluatorFacts.CallThroughSymbol | src/main/java/com/diy/lisp/model/Symbol.java:93-95 | A bound head symbol is replaced by its value and the list evaluated again: for a closure, it is applied to the arguments as written |
| EvaluatorFacts.IfChoosesBranch | src/main/java/com/diy/lisp/Evaluator.java:53-56 | The condition is evaluated first and must be a Bool. Then exactly the chosen branch is evaluated |
| EvaluatorFacts.IfIgnoresUntakenBranch | src/main/java/com/diy/lisp/model/Bool.java:49-51 | The branch not taken is never evaluated: replacing it changes neither value nor environments |
| EvaluatorFacts.IfNeedsBothBranches | src/main/java/com/diy/lisp/Evaluator.java:55 | Both branches are fetched before the choice, so an `if` without an else fails even when its condition is true |
| EvaluatorFacts.DefineBinds | src/main/java/com/diy/lisp/Evaluator.java:58-65 | define evaluates its value, binds it in the current environment and returns the symbol. An already bound name is refused and keeps its value |
| EvaluatorFacts.DefineTwice | src/main/java/com/diy/lisp/model/Environment.java:46-51 | Defining a name twice: the second definition fails and the first value stays |
| EvaluatorFacts.LambdaCaptures | src/main/java/com/diy/lisp/Evaluator.java:67-73 | lambda captures the current environment, keeps the body unevaluated, and changes nothing |
| EvaluatorFacts.LambdaMalformed | src/main/java/com/diy/lisp/Evaluator.java:68-71 | A lambda with a missing or extra part, or with non-list parameters, is refused and changes nothing |
| EvaluatorFacts.RecursiveDefinition | src/main/java/com/diy/lisp/model/Closure.java:31-34 | A function defined by define and lambda captures the very environment its name is then bound in, so its body sees itself |
| EvaluatorFacts.DefnIsDefineLambda | src/main/java/com/diy/lisp/Evaluator.java:178-182 | defn has the effect of define over lambda on the environments. It returns the closure where define returns the symbol, and fails exactly when define fails |
| EvaluatorFacts.EqEvaluates | src/main/java/com/diy/lisp/Evaluator.java:33-37 | For any operands: a is evaluated, then b in the store a left. The first error is the result. Otherwise eq is `#t` iff a's value is an atom (Bool, Int, Str or Symbol; not a list or closure) equal to b's value |
| EvaluatorFacts.EqCompares | src/main/java/com/diy/lisp/Evaluator.java:33-37 | On simple operands (literals, bound symbols, quotations): no environment changes, and eq is `#t` iff the first value is an atom equal to the second |
| EvaluatorFacts.EqOnLists | src/main/java/com/diy/lisp/Evaluator.java:36 | Two equal quoted lists are not eq |
| EvaluatorFacts.MathEvaluates | src/main/java/com/diy/lisp/Evaluator.java:39-45 | For any operands: a is evaluated and must be an Int before b is evaluated in the store a left; b must be an Int too ("not a number" otherwise); then the operator its head names is applied. The first error is the result |
| EvaluatorFacts.MathApplies | src/main/java/com/diy/lisp/Evaluator.java:39-45 | On simple operands (literals, bound symbols, quotations): an arithmetic form requires two Ints, raising "not a number" otherwise, applies the operator its head names, and changes no environment |
| EvaluatorFacts.LargerThanEvaluates | src/main/java/com/diy/lisp/Evaluator.java:47-51 | For any operands, evaluated and checked like the arithmetic: `#t` iff a's Int is strictly greater than b's |
| EvaluatorFacts.LargerThanCompares | src/main/java/com/diy/lisp/Evaluator.java:47-51 | On simple operands (literals, bound symbols, quotations): `>` requires two Ints, is strict comparison, and changes no environment |
| EvaluatorFacts.DivisionExamples | src/com/diylisp/model/Int.java:66-76 | `(/ 7 2)` is 3, `(mod 7 2)` is 1, `(/ -7 2)` is -3 and `(mod -7 2)` is -1. Division by zero fails |
| EvaluatorFacts.ComparisonExamples | src/com/diylisp/model/Int.java:54-56 | `(> 7 7)` is `#f` and `(> 8 7)` is `#t` |
| EvaluatorFacts.AtomEvaluates | src/main/java/com/diy/lisp/Evaluator.java:29-31 | For any operand: its evaluation error, or whether its value is an atom (Bool, Int, Str or Symbol; not a list or closure), in the store its evaluation left |
| EvaluatorFacts.AtomQuoteEmpty | src/main/java/com/diy/lisp/model/SList.java:88-97 | `atom` of a simple operand tells whether its value is an atom. A quotation gives its operand unevaluated. `()` raises "List was empty" |
| EvaluatorFacts.ConsEvaluates | src/main/java/com/diy/lisp/Evaluator.java:112-121 | For any operands: a is evaluated, then b in the store a left. The first error is the result. Otherwise the values are combined as ConsValues states: onto a list, or two strings joined, else "not a string" |
| EvaluatorFacts.ConsCombines | src/main/java/com/diy/lisp/Evaluator.java:112-121 | On simple operands (literals, bound symbols, quotations): cons combines their values as ConsValues states and changes no environment |
| EvaluatorFacts.SelectorEvaluates | src/main/java/com/diy/lisp/Evaluator.java:123-151 | head, tail and empty on any operand: its evaluation error, or, for a list or a string, its first element or character, the rest of it, or whether it is empty; any other value raises LispException. All in the store the operand left |
| EvaluatorFacts.HeadApplies | src/main/java/com/diy/lisp/Evaluator.java:123-131 | On a simple operand: head gives a list's first element or a string's first character. Anything else raises LispException |
| EvaluatorFacts.TailApplies | src/main/java/com/diy/lisp/Evaluator.java:133-141 | On a simple operand: tail gives the rest of a list or of a string. Anything else raises LispException |
| EvaluatorFacts.EmptyApplies | src/main/java/com/diy/lisp/Evaluator.java:143-151 | On a simple operand: empty tells whether a list or a string is empty. Anything else raises LispException |
| EvaluatorFacts.ConsOntoQuoted | src/main/java/com/diy/lisp/Evaluator.java:112-118 | `(cons x '(items))` is the list with x's value in front |
| EvaluatorFacts.HeadTailOfCons | src/main/java/com/diy/lisp/model/SList.java:108-125 | Through the evaluator, head and tail take apart what cons built |
| EvaluatorFacts.BindKeys | src/main/java/com/diy/lisp/model/Closure.java:53-63 | merge binds exactly the parameter names |
| EvaluatorFacts.BindValues | src/main/java/com/diy/lisp/model/Closure.java:53-63 | With distinct parameter names, each parameter is bound to its own argument's value |
| EvaluatorFacts.BindSnoc | src/main/java/com/diy/lisp/model/Closure.java:58-60 | One more loop pass adds the next parameter's binding |
| EvaluatorFacts.MergeStep | src/main/java/com/diy/lisp/model/Closure.java:58-60 | One pass of merge evaluates the next argument in the caller's environment |
| EvaluatorFacts.MergeEvaluates | src/main/java/com/diy/lisp/model/Closure.java:53-63 | For any arguments: merge evaluates them left to right in the caller's environment, each in the store the previous one left (ArgValues). The first error is the result. Otherwise the parameters are bound in order to the values, a later duplicate winning |
| EvaluatorFacts.BindAll | src/main/java/com/diy/lisp/model/Closure.java:53-63 | The bound names are the names already there and the parameter names |
| EvaluatorFacts.BindAllValues | src/main/java/com/diy/lisp/model/Closure.java:58-60 | With distinct parameter names, each parameter is bound to its own value, and other names keep theirs |
| EvaluatorFacts.MergeSimple | src/main/java/com/diy/lisp/model/Closure.java:53-63 | On simple arguments: merge evaluates every argument in the caller's environment, changes nothing, and yields the parameter bindings |
| EvaluatorFacts.ApplyEvaluates | src/main/java/com/diy/lisp/model/Closure.java:36-48 | Applying a closure with parameters to any arguments: they are evaluated left to right in the caller's environment; the first error is the result; otherwise the body runs in one fresh environment extending the closure's captured one (not the caller's) with the parameters bound, appended to the store the arguments left |
| EvaluatorFacts.ApplySimpleArgs | src/main/java/com/diy/lisp/model/Closure.java:41-45 | On simple arguments: the body runs in one fresh extension of the closure's captured environment, not the caller's, with the parameters bound to the arguments' values |
| EvaluatorFacts.ApplyShapes | src/main/java/com/diy/lisp/model/Closure.java:38-47 | A wrong argument count raises LispException before any argument is evaluated. Without parameters, the body runs in the captured environment itself |
| EvaluatorFacts.BindOne | src/main/java/com/diy/lisp/model/Closure.java:53-63 | One parameter bound to one argument |
| EvaluatorFacts.LambdaInHead | src/main/java/com/diy/lisp/model/SList.java:82-86 | A lambda in head position is evaluated to its closure, which is then applied to the arguments |
| EvaluatorFacts.LambdaApplied | src/main/java/com/diy/lisp/model/Closure.java:41-45 | `((lambda (x) x) 5)` is 5, bound in a fresh extension of the current environment |
| EvaluatorFacts.LetFrames | src/main/java/com/diy/lisp/Evaluator.java:168-173 | One new environment per binding |
| EvaluatorFacts.LetBindSimple | src/main/java/com/diy/lisp/Evaluator.java:169-172 | A binding evaluates its value in the current environment and extends it with that one binding |
| EvaluatorFacts.LetFromStep | src/main/java/com/diy/lisp/Evaluator.java:168-173 | A successful binding hands its environment on to the next |
| EvaluatorFacts.LetFramesStep | src/main/java/com/diy/lisp/Evaluator.java:168-173 | Each frame extends the one before with one binding |
| EvaluatorFacts.LetFromSimpleStep | src/main/java/com/diy/lisp/Evaluator.java:169-172 | A binding hands exactly one new environment on to the next |
| EvaluatorFacts.LetStore | src/main/java/com/diy/lisp/Evaluator.java:168-173 | The bindings append one environment each |
| EvaluatorFacts.LetFromNextStore | src/main/java/com/diy/lisp/Evaluator.java:168-173 | The loop continues from the store after the binding |
| EvaluatorFacts.LetFromSimpleLast | src/main/java/com/diy/lisp/Evaluator.java:168-173 | The last binding ends the loop in the environment it adds |
| EvaluatorFacts.LetFromSimpleMore | src/main/java/com/diy/lisp/Evaluator.java:168-173 | One binding followed by the rest of the loop |
| EvaluatorFacts.LetFromSimple | src/main/java/com/diy/lisp/Evaluator.java:168-173 | On simple bindings: the binding loop appends one environment per binding, each extending the previous one, and changes none of the existing ones, the caller's included |
| EvaluatorFacts.LetEvaluates | src/main/java/com/diy/lisp/Evaluator.java:166-176 | For any bindings: the binding loop's error is the result; otherwise the body runs in the environment and store the loop ends with |
| EvaluatorFacts.LetBindEvaluates | src/main/java/com/diy/lisp/Evaluator.java:169-172 | A well-formed binding of any expression: its error is the result; otherwise one fresh environment, the current one extended with the binding, is appended to the store the expression left |
| EvaluatorFacts.LetFromFirst | src/main/java/com/diy/lisp/Evaluator.java:168-173 | The binding loop takes the first binding, then continues with the rest from the environment and store it left; its error stops the loop |
| EvaluatorFacts.LetFirstBinding | src/main/java/com/diy/lisp/Evaluator.java:168-173 | For any first binding: it must be a list of a Symbol and an expression; the expression is evaluated in the current environment; its error is the result; otherwise one fresh environment, the current one extended with that binding, is appended to the store the expression left, and the let of the remaining bindings runs there |
| EvaluatorFacts.LetNoBindings | src/main/java/com/diy/lisp/Evaluator.java:166-176 | `(let () body)` runs the body in the current environment |
| EvaluatorFacts.LetCall | src/main/java/com/diy/lisp/Evaluator.java:166-176 | let runs the bindings, then the body in the environment they end with |
| EvaluatorFacts.LetSimple | src/main/java/com/diy/lisp/Evaluator.java:166-176 | On simple bindings: the body runs in the last new environment, and the caller's environment is not changed by the bindings |
| EvaluatorFacts.LetSequential | src/main/java/com/diy/lisp/Evaluator.java:166-176 | `(let ((x 1) (y x)) y)` is 1: each binding sees the earlier ones. The existing environments are untouched |
| EvaluatorFacts.SequentialFrames | src/main/java/com/diy/lisp/Evaluator.java:168-173 | The frames of `((x 1) (y x))`: the second binds y to 1 |
| EvaluatorFacts.CondSkipsFalse | src/main/java/com/diy/lisp/Evaluator.java:156-161 | Clauses whose simple condition is `#f` are passed over without effect |
| EvaluatorFacts.CondCall | src/main/java/com/diy/lisp/Evaluator.java:153-154 | cond runs the clause loop, and the clause list itself is not evaluated |
| EvaluatorFacts.CondFirstClause | src/main/java/com/diy/lisp/Evaluator.java:153-164 | For any first clause: it must be a list; its condition is evaluated and must be a Bool, raising "not a boolean" otherwise; `#t` gives the value of the clause's expression, evaluated in the store the condition left; `#f` goes on with cond of the remaining clauses in that store. The first error is the result |
| EvaluatorFacts.CondNoClauses | src/main/java/com/diy/lisp/Evaluator.java:163 | cond with no clauses is `#f` and changes nothing |
| EvaluatorFacts.CondPicksFirstTrue | src/main/java/com/diy/lisp/Evaluator.java:156-161 | With simple conditions: the first clause whose condition is `#t` gives the value of its expression, and later clauses are never looked at |
| EvaluatorFacts.CondAllFalse | src/main/java/com/diy/lisp/Evaluator.java:163 | When every condition is simple and `#f`, cond is `#f` |

## Left out

- The REPL and the file interpreters. They are console and file I/O around `parse` and `evaluate`.
- The standard library file. Its source is not part of this model.
- Concurrency. None exists: the interpreter is sequential.
- Error message texts. Each exception is modelled by its kind and reason (`Results`), not its formatted message.
- The Str class. Its `evaluate`, `cons`, `head`, `tail` and `isEmpty` are not implemented in the source.
  - Strings evaluate to themselves.
  - The four string operations follow the behaviour the interpreter's tests expect: concatenation, first character, rest, emptiness.
- Aliasing of Java lists. Lists are immutable sequences, so these are not reproduced:
  - `SList.cons` inserting into the operand in place;
  - `tail` sharing storage with its operand;
  - the dispatch overwriting `exps[0]`.
- `copy`. All node values are immutable, so a copy is the value itself.
  - A closure's environment reference is kept, as `Closure.copy` does.
  - `Environment.lookup` returns the stored value.
- Equality of nodes is Dafny's structural equality. It agrees with the `equals` methods of Symbol (by text), Bool and Int (by value) and SList (element-wise).
  - Two closures are equal when they hold the same environment reference, the same parameters and the same body. Java's `Closure.equals` compares the environments' binding maps, so two distinct environments with equal bindings are equal there but not here.
  - `Environments.Environment.Equals` compares the binding maps, as `Environment.equals` does.
- Evaluator.Eval: carries fuel. A non-terminating program, or one that runs deeper than the fuel given, yields `OutOfFuel` where Java would run on or overflow its stack.
- Evaluator.Apply: an environment reference outside the store yields `DanglingEnvironment`. The evaluator never creates one, but the model does not prove that.
- Evaluator.Eval: `Closure.evaluate(env)` returns `null`. It is reported as the error `NullResult` instead of a null value flowing on.
- The Java runtime exceptions the code lets escape are errors of kind `HostError`:
  - a missing operand, `IndexOutOfBounds`;
  - a lone quote in firstExpression, `NullPointer`;
  - a non-symbol parameter at call time, `ClassCast`;
  - division by zero, `DivisionByZero`;
  - an Int literal outside 32 bits, `NumberFormat`;
  - a blank text reaching `charAt(0)`, `StringIndexOutOfBounds`.
- Evaluator.EvalLargerThan: the method is named `evaluateBooleanMath` in the evaluator and `evaluateLargerThan` at its call site in `Symbol`. The model treats the two names as the same function.
- ParserFacts.ParseToken: stated for plain tokens: no blank, quote or `;`, and not opening a string or a list. Sources with comments and blanks around a token are covered by Parser.RemoveComments and Parser.Trim separately.
- EvaluatorFacts.EqCompares: stated for simple operands (literals, bound symbols, quotations). Its general form, for operands that run code, is EvaluatorFacts.EqEvaluates.
- EvaluatorFacts.MathApplies: stated for simple operands. Its general form is EvaluatorFacts.MathEvaluates.
- EvaluatorFacts.LargerThanCompares: stated for simple operands. Its general form is EvaluatorFacts.LargerThanEvaluates.
- EvaluatorFacts.AtomQuoteEmpty: its `atom` part is stated for a simple operand. The general form is EvaluatorFacts.AtomEvaluates.
- EvaluatorFacts.ConsCombines: stated for simple operands. Its general form is EvaluatorFacts.ConsEvaluates.
- EvaluatorFacts.HeadApplies: stated for a simple operand. Its general form is EvaluatorFacts.SelectorEvaluates.
- EvaluatorFacts.TailApplies: stated for a simple operand. Its general form is EvaluatorFacts.SelectorEvaluates.
- EvaluatorFacts.EmptyApplies: stated for a simple operand. Its general form is EvaluatorFacts.SelectorEvaluates.
- EvaluatorFacts.MergeSimple: stated for simple arguments. Its general form, arguments evaluated left to right with the store threaded, is EvaluatorFacts.MergeEvaluates.
- EvaluatorFacts.ApplySimpleArgs: stated for simple arguments. Its general form is EvaluatorFacts.ApplyEvaluates.
- EvaluatorFacts.LetFromSimple: stated for simple bindings. For bindings that run code, let is characterised binding by binding by EvaluatorFacts.LetFirstBinding and EvaluatorFacts.LetNoBindings.
- EvaluatorFacts.LetSimple: stated for simple bindings. The general form is EvaluatorFacts.LetFirstBinding with EvaluatorFacts.LetNoBindings.
- EvaluatorFacts.CondSkipsFalse: stated for simple conditions. For conditions that run code, cond is characterised clause by clause by EvaluatorFacts.CondFirstClause and EvaluatorFacts.CondNoClauses, which also state the "not a boolean" error.
- EvaluatorFacts.CondPicksFirstTrue: stated for simple conditions. The general form is EvaluatorFacts.CondFirstClause.
- EvaluatorFacts.CondAllFalse: stated for simple conditions. The general form is EvaluatorFacts.CondFirstClause with EvaluatorFacts.CondNoClauses.
- Nodes.PrintQuoted: the printing lemmas state the quote shorthand. The full round trip of printing a parsed nested quotation is not proved.

## Where the code and its description differ

The model follows the code in each case.

- `lambda` does not check that its parameters are symbols. A non-symbol parameter fails only when the closure is applied, with a ClassCastException.
- `defn` returns the closure, not the symbol.
- `if` without an else branch fails with an index error even when its condition is true. Both branches are fetched before the choice (EvaluatorFacts.IfNeedsBothBranches).
- `atom` and `eq` do not count a closure as an atom. The evaluator asks each value `isAtom()`, which `AbstractSyntaxTree` answers `false` by default (src/main/com/diylisp/model/AbstractSyntaxTree.java:14-16); only the Atom subclasses Bool, Int, Str and Symbol answer `true`. The design description, and the older `Atom.isAtom` (src/com/diylisp/model/Atom.java:7-12), count closures as atoms. The model follows the newer code: Nodes.IsAtom, EvaluatorFacts.AtomEvaluates, EvaluatorFacts.EqEvaluates.
- A `;` comment is removed only when a newline ends it: the pattern is `;.*\n` (src/com/diylisp/Parser.java:65-67). A `;` on the last line, with no newline after it, stays in the text, so `"a;b"` reads as a string holding the `;` (ParserFacts.ParseStringWithSemicolon). Comment removal runs on the whole text before anything is read, so a `;` inside a string literal with a newline after it does start a comment (ParserFacts.IsStringBody).
- `parse` of a string literal does not itself look for the closing quote. An unclosed literal is refused earlier, while the text is being split.
