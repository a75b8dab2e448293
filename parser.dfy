/** The reader: comment removal, splitting a source text into top-level
    expression texts, and parsing one expression text into a Node. */
module Parser {
  import opened Results
  import opened Ints
  import opened Nodes

  // ---- characters and trimming -------------------------------------------------

  /** String.trim removes leading and trailing characters up to U+0020. */
  predicate IsBlank(c: char) { c <= ' ' }

  /** The regular-expression class \s: space, tab, newline, vertical tab,
      form feed and carriage return (all of them blank). */
  predicate IsSpace(c: char)
  {
    c == ' ' || c == '\t' || c == '\n' || c == '\U{0B}' || c == '\U{0C}' || c == '\r'
  }

  /** The characters the regular-expression `.` does not match. */
  predicate IsLineTerminator(c: char)
  {
    c == '\n' || c == '\r' || c == '\U{85}' || c == '\U{2028}' || c == '\U{2029}'
  }

  /** The non-blank characters of s, in order: what trimming and splitting
      may not lose. */
  function Strip(s: string): (r: string)
    ensures |r| <= |s|
  {
    if |s| == 0 then "" else (if IsBlank(s[0]) then "" else [s[0]]) + Strip(s[1..])
  }

  lemma {:induction false} StripConcat(a: string, b: string)
    ensures Strip(a + b) == Strip(a) + Strip(b)
  {
    if |a| == 0 {
      assert a + b == b;
    } else {
      var x := if IsBlank(a[0]) then "" else [a[0]];
      assert (a + b)[0] == a[0] && (a + b)[1..] == a[1..] + b;
      assert Strip(a + b) == x + Strip(a[1..] + b);
      StripConcat(a[1..], b);
      assert Strip(a) == x + Strip(a[1..]);
    }
  }

  lemma StripCons(c: char, x: string)
    ensures Strip([c] + x) == (if IsBlank(c) then "" else [c]) + Strip(x)
  {
    assert ([c] + x)[0] == c && ([c] + x)[1..] == x;
  }

  function TrimStart(s: string): (r: string)
    ensures |r| <= |s| && r == s[|s| - |r|..]
    ensures |r| > 0 ==> !IsBlank(r[0])
    ensures Strip(r) == Strip(s)
    decreases |s|
  {
    if |s| > 0 && IsBlank(s[0]) then TrimStart(s[1..]) else s
  }

  function TrimEnd(s: string): (r: string)
    ensures |r| <= |s| && r == s[..|r|]
    ensures |r| > 0 ==> !IsBlank(r[|r| - 1])
    ensures |r| > 0 && |s| > 0 ==> s[0] == r[0]
    ensures Strip(r) == Strip(s)
    decreases |s|
  {
    if |s| > 0 && IsBlank(s[|s| - 1]) then
      StripConcat(s[..|s| - 1], [s[|s| - 1]]);
      assert s == s[..|s| - 1] + [s[|s| - 1]];
      TrimEnd(s[..|s| - 1])
    else s
  }

  /** String.trim: no blank at either end, no non-blank character lost, and
      a text without blank ends is left as it is. */
  function Trim(s: string): (r: string)
    ensures |r| <= |s|
    ensures |r| > 0 ==> !IsBlank(r[0]) && !IsBlank(r[|r| - 1])
    ensures Strip(r) == Strip(s)
    ensures |s| == 0 || (!IsBlank(s[0]) && !IsBlank(s[|s| - 1])) ==> r == s
  {
    TrimEnd(TrimStart(s))
  }

  // ---- comments ------------------------------------------------------------------

  /** How many characters `.*` matches at the start of s. */
  function LineLength(s: string): (n: nat)
    ensures n <= |s|
    ensures forall i :: 0 <= i < n ==> !IsLineTerminator(s[i])
    ensures n < |s| ==> IsLineTerminator(s[n])
  {
    if |s| == 0 || IsLineTerminator(s[0]) then 0 else 1 + LineLength(s[1..])
  }

  /** `;.*\n` matches at the start of s: a `;` whose line ends in `\n`. */
  predicate StartsComment(s: string)
  {
    |s| > 0 && s[0] == ';' && 1 + LineLength(s[1..]) < |s| && s[1 + LineLength(s[1..])] == '\n'
  }

  /** removeComments, `replaceAll(";.*\n", "\n")`: scanning left to right,
      each match is replaced by the newline that ended it. */
  function RemoveComments(s: string): (r: string)
    ensures |r| <= |s|
    decreases |s|
  {
    if |s| == 0 then ""
    else if StartsComment(s) then "\n" + RemoveComments(s[LineLength(s[1..]) + 2..])
    else [s[0]] + RemoveComments(s[1..])
  }

  function Count(s: string, c: char): nat
  {
    if |s| == 0 then 0 else (if s[0] == c then 1 else 0) + Count(s[1..], c)
  }

  lemma {:induction false} CountConcat(a: string, b: string, c: char)
    ensures Count(a + b, c) == Count(a, c) + Count(b, c)
  {
    if |a| == 0 {
      assert a + b == b;
    } else {
      assert (a + b)[0] == a[0] && (a + b)[1..] == a[1..] + b;
      CountConcat(a[1..], b, c);
    }
  }

  lemma {:induction false} NoTerminatorNoNewline(s: string)
    requires forall i :: 0 <= i < |s| ==> !IsLineTerminator(s[i])
    ensures Count(s, '\n') == 0
  {
    if |s| > 0 {
      NoTerminatorNoNewline(s[1..]);
    }
  }

  /** Removing comments keeps every line: the number of newlines is unchanged. */
  lemma {:induction false} RemoveCommentsKeepsNewlines(s: string)
    ensures Count(RemoveComments(s), '\n') == Count(s, '\n')
    decreases |s|
  {
    if |s| > 0 {
      if StartsComment(s) {
        var n := LineLength(s[1..]);
        var comment, after := s[..n + 2], s[n + 2..];
        assert s == comment + after;
        CountConcat(comment, after, '\n');
        CommentHasOneNewline(s);
        RemoveCommentsKeepsNewlines(after);
        CountConcat("\n", RemoveComments(after), '\n');
      } else {
        RemoveCommentsKeepsNewlines(s[1..]);
        CountConcat([s[0]], RemoveComments(s[1..]), '\n');
        assert s == [s[0]] + s[1..];
        CountConcat([s[0]], s[1..], '\n');
      }
    }
  }

  /** The text a comment match covers holds exactly one newline, its last
      character. */
  lemma CommentHasOneNewline(s: string)
    requires StartsComment(s)
    ensures Count(s[..LineLength(s[1..]) + 2], '\n') == 1
  {
    var n := LineLength(s[1..]);
    var line := s[1..n + 1];
    forall i | 0 <= i < |line|
      ensures !IsLineTerminator(line[i])
    {
      assert line[i] == s[1..][i];
    }
    NoTerminatorNoNewline(line);
    assert s[..n + 2] == [';'] + line + ['\n'];
    CountConcat([';'] + line, ['\n'], '\n');
    CountConcat([';'], line, '\n');
  }

  /** No `;` in s has a `\n` anywhere after it, so `;.*\n` matches nowhere. */
  predicate CommentFree(s: string)
  {
    forall i, j :: 0 <= i < j < |s| && s[i] == ';' ==> s[j] != '\n'
  }

  /** A text in which no `;` is followed by a newline has no comments: it is
      left unchanged, whatever `;` it holds. */
  lemma {:induction false} CommentFreeUnchanged(s: string)
    requires CommentFree(s)
    ensures RemoveComments(s) == s
    decreases |s|
  {
    if |s| > 0 {
      assert !StartsComment(s) by {
        var k := 1 + LineLength(s[1..]);
        assert s[0] == ';' && k < |s| ==> s[k] != '\n';
      }
      var t := s[1..];
      forall i, j | 0 <= i < j < |t| && t[i] == ';'
        ensures t[j] != '\n'
      {
        assert t[i] == s[i + 1] && t[j] == s[j + 1];
      }
      CommentFreeUnchanged(t);
    }
  }

  /** A text without `;` has no comments. */
  lemma NoSemicolonUnchanged(s: string)
    requires forall i :: 0 <= i < |s| ==> s[i] != ';'
    ensures RemoveComments(s) == s
  {
    CommentFreeUnchanged(s);
  }

  /** A `;` comment closed by a newline becomes just that newline. */
  lemma CommentRemoved(comment: string, after: string)
    requires forall i :: 0 <= i < |comment| ==> !IsLineTerminator(comment[i])
    ensures RemoveComments(";" + comment + "\n" + after) == "\n" + RemoveComments(after)
  {
    var s := ";" + comment + "\n" + after;
    var line := "\n" + after;
    assert s[0] == ';' && s[1..] == comment + line;
    LineLengthOfLine(comment, line);
    assert s[1 + |comment|] == '\n';
    assert StartsComment(s);
    assert s[|comment| + 2..] == after;
  }

  lemma {:induction false} LineLengthOfLine(line: string, rest: string)
    requires forall i :: 0 <= i < |line| ==> !IsLineTerminator(line[i])
    requires |rest| > 0 && IsLineTerminator(rest[0])
    ensures LineLength(line + rest) == |line|
  {
    if |line| > 0 {
      assert (line + rest)[1..] == line[1..] + rest;
      LineLengthOfLine(line[1..], rest);
    }
  }

  // ---- findMatchingParen -----------------------------------------------------

  function Delta(c: char): int
  {
    if c == '(' then 1 else if c == ')' then -1 else 0
  }

  /** Opening minus closing parentheses in s. */
  function Balance(s: string): int
  {
    if |s| == 0 then 0 else Balance(s[..|s| - 1]) + Delta(s[|s| - 1])
  }

  /** The open-parenthesis count after position pos has been examined: the
      character at 0 counts as one opening, whatever it is. */
  function Depth(s: string, pos: nat): int
    requires pos < |s|
  {
    1 + Balance(s[1..pos + 1])
  }

  lemma DepthStep(s: string, pos: nat)
    requires pos + 1 < |s|
    ensures Depth(s, pos + 1) == Depth(s, pos) + Delta(s[pos + 1])
  {
    assert s[1..pos + 2][..pos] == s[1..pos + 1];
  }

  /** The loop of findMatchingParen from position pos with count depth. */
  function ScanParen(s: string, pos: nat, depth: int): Result<nat>
    requires pos < |s|
    decreases |s| - pos
  {
    if depth <= 0 then Ok(pos)
    else if pos + 1 == |s| then Err(ParseError(IncompleteExpression))
    else ScanParen(s, pos + 1, depth + Delta(s[pos + 1]))
  }

  /** findMatchingParen: the first position where the count falls to zero,
      or an "Incomplete expression" error when there is none. */
  function MatchingParen(s: string): (r: Result<nat>)
    requires |s| > 0
    ensures r.Ok? ==> 0 < r.value < |s| && Depth(s, r.value) == 0
    ensures r.Ok? ==> forall k :: 0 <= k < r.value ==> Depth(s, k) > 0
    ensures r.Err? ==> r.error == ParseError(IncompleteExpression)
    ensures r.Err? ==> forall k :: 0 <= k < |s| ==> Depth(s, k) > 0
  {
    ScanParenSpec(s, 0, 1);
    ScanParen(s, 0, 1)
  }

  lemma {:induction false} ScanParenSpec(s: string, pos: nat, depth: int)
    requires pos < |s| && depth == Depth(s, pos) && depth >= 0
    requires forall k :: 0 <= k < pos ==> Depth(s, k) > 0
    requires pos == 0 ==> depth > 0
    ensures var r := ScanParen(s, pos, depth);
      (r.Ok? ==> pos <= r.value < |s| && 0 < r.value && Depth(s, r.value) == 0 &&
                 forall k :: 0 <= k < r.value ==> Depth(s, k) > 0) &&
      (r.Err? ==> r.error == ParseError(IncompleteExpression) &&
                  forall k :: 0 <= k < |s| ==> Depth(s, k) > 0)
    decreases |s| - pos
  {
    if depth > 0 && pos + 1 < |s| {
      DepthStep(s, pos);
      ScanParenSpec(s, pos + 1, depth + Delta(s[pos + 1]));
    }
  }

  method FindMatchingParen(source: string) returns (r: Result<nat>)
    requires |source| > 0
    ensures r == MatchingParen(source)
  {
    var pos := 0;
    var openBrackets := 1;
    while openBrackets > 0
      invariant pos < |source|
      invariant ScanParen(source, pos, openBrackets) == MatchingParen(source)
      decreases |source| - pos
    {
      pos := pos + 1;
      if pos == |source| {
        return Err(ParseError(IncompleteExpression));
      }
      if source[pos] == '(' {
        openBrackets := openBrackets + 1;
      }
      if source[pos] == ')' {
        openBrackets := openBrackets - 1;
      }
    }
    r := Ok(pos);
  }

  // ---- string literals ---------------------------------------------------------

  /** Position i closes a string literal: a `"` not preceded by a backslash. */
  predicate ClosesString(t: string, i: nat)
    requires 1 <= i < |t|
  {
    t[i] == '"' && t[i - 1] != '\\'
  }

  function CloseQuoteFrom(t: string, i: nat): Option<nat>
    requires 1 <= i <= |t|
    decreases |t| - i
  {
    if i == |t| then None else if ClosesString(t, i) then Some(i) else CloseQuoteFrom(t, i + 1)
  }

  /** The first position after 0 that closes the literal opened at 0. */
  function CloseQuote(t: string): (r: Option<nat>)
    ensures r.Some? ==> 1 <= r.value < |t| && ClosesString(t, r.value)
    ensures r.Some? ==> forall k :: 1 <= k < r.value ==> !ClosesString(t, k)
    ensures r.None? ==> forall k :: 1 <= k < |t| ==> !ClosesString(t, k)
  {
    if |t| == 0 then None else CloseQuoteFromSpec(t, 1); CloseQuoteFrom(t, 1)
  }

  lemma {:induction false} CloseQuoteFromSpec(t: string, i: nat)
    requires 1 <= i <= |t|
    ensures var r := CloseQuoteFrom(t, i);
      (r.Some? ==> i <= r.value < |t| && ClosesString(t, r.value) &&
                   forall k :: i <= k < r.value ==> !ClosesString(t, k)) &&
      (r.None? ==> forall k :: i <= k < |t| ==> !ClosesString(t, k))
    decreases |t| - i
  {
    if i < |t| && !ClosesString(t, i) {
      CloseQuoteFromSpec(t, i + 1);
    }
  }

  /** The index loop of firstExpression that looks for the closing quote. */
  method ScanString(t: string) returns (r: Option<nat>)
    ensures r == CloseQuote(t)
  {
    if |t| == 0 {
      return None;
    }
    for i := 1 to |t|
      invariant forall k :: 1 <= k < i ==> !ClosesString(t, k)
    {
      if t[i] == '"' && t[i - 1] != '\\' {
        assert ClosesString(t, i);
        return Some(i);
      }
    }
    return None;
  }

  // ---- firstExpression and splitExpressions ---------------------------------

  /** A character the token pattern `[^\s']` accepts. */
  predicate IsTokenChar(c: char) { !IsSpace(c) && c != '\'' }

  /** How many characters `^[^\s']+` matches at the start of t (0: no match). */
  function TokenLength(t: string): (n: nat)
    ensures n <= |t|
    ensures forall i :: 0 <= i < n ==> IsTokenChar(t[i])
    ensures n < |t| ==> !IsTokenChar(t[n])
  {
    if |t| == 0 || !IsTokenChar(t[0]) then 0 else 1 + TokenLength(t[1..])
  }

  /** The first expression's text and the text after it. */
  datatype Split = Split(head: string, rest: string)

  /** t cut after its first n characters. */
  function SplitAt(t: string, n: nat): (r: Split)
    requires n <= |t|
    ensures r.head + r.rest == t && |r.head| == n
  {
    assert t[..n] + t[n..] == t;
    Split(t[..n], t[n..])
  }

  /** firstExpression: None for the empty text; otherwise the trimmed text
      is split by FirstOfTrimmed. */
  function FirstExpression(s: string): Result<Option<Split>>
    decreases |s|, 1
  {
    if s == "" then Ok(None)
    else
      var t := Trim(s);
      assert |t| <= |s|;
      FirstOfTrimmed(t)
  }

  /** firstExpression after its trim: the text is split after a quoted
      expression, a string literal, a parenthesised expression or a token. A
      lone quote fails (its recursive call yields null), as does a text of
      blanks only (charAt(0) of the empty string). */
  function FirstOfTrimmed(t: string): Result<Option<Split>>
    decreases |t|, 0
  {
    if t == "" then Err(HostError(StringIndexOutOfBounds))
    else if t[0] == '\'' then QuoteFirst(FirstExpression(t[1..]))
    else if t[0] == '"' then StringFirst(t)
    else if t[0] == '(' then ListFirst(t)
    else Ok(Some(SplitAt(t, TokenLength(t))))
  }

  /** The string-literal case: split after the closing quote. */
  function StringFirst(t: string): Result<Option<Split>>
  {
    match CloseQuote(t)
    case None => Err(ParseError(UnclosedString))
    case Some(i) => Ok(Some(SplitAt(t, i + 1)))
  }

  /** The parenthesised case: split after the matching paren. */
  function ListFirst(t: string): Result<Option<Split>>
    requires |t| > 0
  {
    match MatchingParen(t)
    case Err(e) => Err(e)
    case Ok(p) => Ok(Some(SplitAt(t, p + 1)))
  }

  /** The split never loses a non-blank character, the head is never empty,
      and apart from the quote case (where blanks after the quote are
      dropped) head and rest together are the trimmed text. */
  lemma {:induction false} FirstExpressionShape(s: string)
    ensures FirstExpression(s) == Ok(None) <==> s == ""
    ensures FirstExpression(s).Ok? && FirstExpression(s).value.Some? ==>
              var sp := FirstExpression(s).value.value;
              0 < |sp.head| && |sp.head| + |sp.rest| <= |Trim(s)| && Strip(sp.head + sp.rest) == Strip(s)
    ensures FirstExpression(s).Ok? && FirstExpression(s).value.Some? && Trim(s)[0] != '\'' ==>
              FirstExpression(s).value.value.head + FirstExpression(s).value.value.rest == Trim(s)
    decreases |s|
  {
    if s != "" {
      var t := Trim(s);
      if t != "" {
        if t[0] == '\'' {
          FirstExpressionShape(t[1..]);
          match FirstExpression(t[1..])
          case Err(_) =>
          case Ok(None) =>
          case Ok(Some(sp)) =>
            QuotedHeadStrip(t, sp);
        } else if t[0] != '"' && t[0] != '(' {
          assert IsTokenChar(t[0]);
        }
      }
    }
  }

  lemma QuotedHeadStrip(t: string, sp: Split)
    requires |t| > 0 && t[0] == '\''
    requires Strip(sp.head + sp.rest) == Strip(t[1..])
    ensures Strip("'" + sp.head + sp.rest) == Strip(t)
  {
    QuoteConcat(sp.head, sp.rest);
    FirstAndRest(t);
    StripQuoteMark(sp.head + sp.rest, t[1..]);
  }

  lemma QuoteConcat(h: string, r: string)
    ensures "'" + h + r == ['\''] + (h + r)
  {
  }

  lemma FirstAndRest(t: string)
    requires |t| > 0
    ensures t == [t[0]] + t[1..]
  {
  }

  lemma StripQuoteMark(x: string, y: string)
    requires Strip(x) == Strip(y)
    ensures Strip(['\''] + x) == Strip(['\''] + y)
  {
    StripCons('\'', x);
    StripCons('\'', y);
  }

  /** The pieces joined back together. */
  function Concat(pieces: seq<string>): string
  {
    if |pieces| == 0 then "" else pieces[0] + Concat(pieces[1..])
  }

  /** The loop of splitExpressions after its initial trim: first expressions
      are taken off one by one, in order, until none is left. */
  function SplitFrom(s: string): (r: Result<seq<string>>)
    ensures r.Ok? ==> forall i :: 0 <= i < |r.value| ==> 0 < |r.value[i]| <= |s|
    ensures r.Ok? ==> Strip(Concat(r.value)) == Strip(s)
    ensures r.Ok? && |r.value| == 0 ==> s == ""
    decreases |s|
  {
    FirstExpressionShape(s);
    match FirstExpression(s)
    case Err(e) => Err(e)
    case Ok(None) => Ok([])
    case Ok(Some(sp)) =>
      var rest := SplitFrom(sp.rest);
      if rest.Err? then rest
      else
        SplitCons(s, sp, rest.value);
        Ok([sp.head] + rest.value)
  }

  /** One step of SplitFrom keeps its three promises. */
  lemma SplitCons(s: string, sp: Split, pieces: seq<string>)
    requires 0 < |sp.head| && |sp.head| + |sp.rest| <= |s|
    requires Strip(sp.head + sp.rest) == Strip(s)
    requires forall i :: 0 <= i < |pieces| ==> 0 < |pieces[i]| <= |sp.rest|
    requires Strip(Concat(pieces)) == Strip(sp.rest)
    ensures forall i :: 0 <= i < |[sp.head] + pieces| ==> 0 < |([sp.head] + pieces)[i]| <= |s|
    ensures Strip(Concat([sp.head] + pieces)) == Strip(s)
  {
    SplitPiece(sp, pieces);
    forall i | 0 <= i < |[sp.head] + pieces|
      ensures 0 < |([sp.head] + pieces)[i]| <= |s|
    {
      if i > 0 {
        assert ([sp.head] + pieces)[i] == pieces[i - 1];
      }
    }
  }

  lemma SplitPiece(sp: Split, pieces: seq<string>)
    requires Strip(Concat(pieces)) == Strip(sp.rest)
    ensures Strip(Concat([sp.head] + pieces)) == Strip(sp.head + sp.rest)
  {
    assert Concat([sp.head] + pieces) == sp.head + Concat(pieces);
    StripConcat(sp.head, Concat(pieces));
    StripConcat(sp.head, sp.rest);
  }

  /** splitExpressions: the top-level expression texts of s, in order. No
      non-blank character is lost or reordered. */
  function SplitExpressions(s: string): (r: Result<seq<string>>)
    ensures r.Ok? ==> forall i :: 0 <= i < |r.value| ==> 0 < |r.value[i]| <= |s|
    ensures r.Ok? ==> Strip(Concat(r.value)) == Strip(s)
    ensures r.Ok? && |r.value| == 0 ==> Strip(s) == ""
  {
    SplitFrom(Trim(s))
  }

  /** firstExpression as the Java code runs it, with its two scanning loops. */
  method ScanFirstExpression(s: string) returns (r: Result<Option<Split>>)
    ensures r == FirstExpression(s)
    decreases |s|
  {
    if s == "" {
      return Ok(None);
    }
    var t := Trim(s);
    if t == "" {
      return Err(HostError(StringIndexOutOfBounds));
    }
    if t[0] == '\'' {
      var exps := ScanFirstExpression(t[1..]);
      assert FirstExpression(s) == QuoteFirst(FirstExpression(t[1..]));
      match exps {
        case Err(e) => r := Err(e);
        case Ok(None) => r := Err(HostError(NullPointer));
        case Ok(Some(sp)) => r := Ok(Some(Split("'" + sp.head, sp.rest)));
      }
      return;
    }
    if t[0] == '"' {
      var close := ScanString(t);
      match close {
        case None => r := Err(ParseError(UnclosedString));
        case Some(i) => r := Ok(Some(Split(t[..i + 1], t[i + 1..])));
      }
      return;
    }
    if t[0] == '(' {
      var end := FindMatchingParen(t);
      match end {
        case Err(e) => r := Err(e);
        case Ok(p) => r := Ok(Some(Split(t[..p + 1], t[p + 1..])));
      }
      return;
    }
    var n := TokenLength(t);
    r := Ok(Some(Split(t[..n], t[n..])));
  }

  /** The quote case of firstExpression: the quote put back on the head. */
  function QuoteFirst(r: Result<Option<Split>>): Result<Option<Split>>
  {
    match r
    case Err(e) => Err(e)
    case Ok(None) => Err(HostError(NullPointer))
    case Ok(Some(sp)) => Ok(Some(Split("'" + sp.head, sp.rest)))
  }

  /** Puts the pieces already found in front of the pieces still to come. */
  function Prepend(found: seq<string>, r: Result<seq<string>>): Result<seq<string>>
  {
    match r
    case Err(e) => Err(e)
    case Ok(pieces) => Ok(found + pieces)
  }

  lemma PrependNothing(r: Result<seq<string>>)
    ensures Prepend([], r) == r
  {
    if r.Ok? {
      assert [] + r.value == r.value;
    }
  }

  /** One step of the splitting loop: a first expression was found. */
  lemma SplitStep(s: string, found: seq<string>, sp: Split)
    requires FirstExpression(s) == Ok(Some(sp))
    ensures Prepend(found, SplitFrom(s)) == Prepend(found + [sp.head], SplitFrom(sp.rest))
  {
    SplitFromFound(s, sp);
    PrependTwice(found, sp.head, SplitFrom(sp.rest));
  }

  lemma SplitFromFound(s: string, sp: Split)
    requires FirstExpression(s) == Ok(Some(sp))
    ensures SplitFrom(s) == Prepend([sp.head], SplitFrom(sp.rest))
  {
  }

  lemma PrependTwice(found: seq<string>, head: string, r: Result<seq<string>>)
    ensures Prepend(found, Prepend([head], r)) == Prepend(found + [head], r)
  {
    if r.Ok? {
      assert found + ([head] + r.value) == (found + [head]) + r.value;
    }
  }

  /** splitExpressions as the Java loop: reassigns the remaining source and
      appends each first expression to a growing list. */
  method ScanExpressions(s: string) returns (r: Result<seq<string>>)
    ensures r == SplitExpressions(s)
  {
    var source := Trim(s);
    var expressions: seq<string> := [];
    PrependNothing(SplitFrom(source));
    while true
      invariant SplitExpressions(s) == Prepend(expressions, SplitFrom(source))
      decreases |source|
    {
      var split := ScanFirstExpression(source);
      match split {
        case Err(e) =>
          assert SplitFrom(source) == Err(e);
          return Err(e);
        case Ok(None) =>
          assert SplitFrom(source) == Ok([]);
          assert expressions + [] == expressions;
          return Ok(expressions);
        case Ok(Some(sp)) =>
          FirstExpressionShape(source);
          SplitStep(source, expressions, sp);
          source := sp.rest;
          expressions := expressions + [sp.head];
      }
    }
  }

  // ---- parse -----------------------------------------------------------------------

  /** hasMultipleExpressions: two or more top-level pieces. */
  function HasMultipleExpressions(s: string): (r: Result<bool>)
    ensures r.Ok? <==> SplitExpressions(s).Ok?
    ensures r.Ok? ==> (r.value <==> |SplitExpressions(s).value| >= 2)
  {
    match SplitExpressions(s)
    case Err(e) => Err(e)
    case Ok(pieces) => Ok(|pieces| >= 2)
  }

  /** parse: after comment removal and trimming, more than one top-level
      expression is "Expected EOF"; then #t and #f, integer literals, a quote
      (parsed as `(quote X)`), a string literal (its text between the quotes,
      escapes kept), a parenthesised list (its pieces parsed in order), and
      anything else is a symbol. */
  function Parse(source: string): (r: Result<Node>)
    decreases |source|, 3
  {
    ParseClean(Trim(RemoveComments(source)), |source|)
  }

  /** parse after its first line: more than one expression is refused,
      otherwise the one expression is read. n bounds the length of the
      source text. */
  function ParseClean(src: string, n: nat): (r: Result<Node>)
    requires |src| <= n
    decreases n, 2
  {
    match HasMultipleExpressions(src)
    case Err(e) => Err(e)
    case Ok(multiple) => if multiple then Err(ParseError(ExpectedEof)) else ParseOne(src, n)
  }

  /** The single-expression cases of parse, in the order the Java code tests
      them: the two Bool literals, an Int literal, a quote, a string literal,
      a list, and otherwise a symbol. */
  function ParseOne(src: string, n: nat): (r: Result<Node>)
    requires |src| <= n
    decreases n, 1
  {
    if src == "#t" then Ok(Bool(true))
    else if src == "#f" then Ok(Bool(false))
    else if IsNumber(src) then ParseNumber(src)
    else if src == "" then Err(HostError(StringIndexOutOfBounds))
    else if src[0] == '\'' then QuoteNode(Parse(src[1..]))
    else if src[0] == '"' then
      if |src| < 2 then Err(HostError(StringIndexOutOfBounds)) else Ok(Str(src[1..|src| - 1]))
    else if src[0] == '(' then ParseList(src, n)
    else Ok(Sym(src))
  }

  /** An Int literal: its value, or Integer.parseInt's NumberFormatException
      when the value does not fit in 32 bits. */
  function ParseNumber(src: string): (r: Result<Node>)
    requires IsNumber(src)
  {
    match ParseInt(src)
    case Err(e) => Err(e)
    case Ok(v) => Ok(Int(v))
  }

  /** The quote case of parse: `(quote X)` around the parse of the rest. */
  function QuoteNode(r: Result<Node>): Result<Node>
  {
    match r
    case Err(e) => Err(e)
    case Ok(quoted) => Ok(List([Quote, quoted]))
  }

  /** The parenthesised case of parse: the text up to the matching paren is
      split and every piece parsed. */
  function ParseList(src: string, n: nat): (r: Result<Node>)
    requires 0 < |src| <= n
    ensures r.Ok? ==> r.value.List?
    decreases n, 0
  {
    match MatchingParen(src)
    case Err(e) => Err(e)
    case Ok(end) =>
      match SplitExpressions(src[1..end])
      case Err(e) => Err(e)
      case Ok(pieces) =>
        match Collect(ParseEach(pieces, n - 1))
        case Err(e) => Err(e)
        case Ok(items) => Ok(List(items))
  }

  /** The stream map over the pieces: each piece parsed, in order. `bound`
      is a length no piece exceeds. */
  function ParseEach(pieces: seq<string>, bound: nat): (r: seq<Result<Node>>)
    requires forall i :: 0 <= i < |pieces| ==> |pieces[i]| <= bound
    ensures |r| == |pieces| && forall i :: 0 <= i < |pieces| ==> r[i] == Parse(pieces[i])
    decreases bound, 4
  {
    seq(|pieces|, i requires 0 <= i < |pieces| => Parse(pieces[i]))
  }

  /** Collecting the mapped stream: the values when every piece parsed,
      otherwise the exception of the first piece that failed. */
  function Collect(rs: seq<Result<Node>>): (r: Result<seq<Node>>)
    ensures r.Ok? <==> forall i :: 0 <= i < |rs| ==> rs[i].Ok?
    ensures r.Ok? ==> |r.value| == |rs| && forall i :: 0 <= i < |rs| ==> rs[i] == Ok(r.value[i])
    ensures r.Err? ==>
              exists i :: 0 <= i < |rs| && rs[i] == Err(r.error) && forall j :: 0 <= j < i ==> rs[j].Ok?
  {
    if |rs| == 0 then Ok([])
    else if rs[0].Err? then Err(rs[0].error)
    else
      var rest := Collect(rs[1..]);
      if rest.Err? then
        CollectShift(rs, rest.error);
        Err(rest.error)
      else Ok([rs[0].value] + rest.value)
  }

  lemma CollectShift(rs: seq<Result<Node>>, e: Error)
    requires |rs| > 0 && rs[0].Ok?
    requires exists i :: 0 <= i < |rs| - 1 && rs[1..][i] == Err(e) &&
                         forall j :: 0 <= j < i ==> rs[1..][j].Ok?
    ensures exists i :: 0 <= i < |rs| && rs[i] == Err(e) && forall j :: 0 <= j < i ==> rs[j].Ok?
  {
    var i :| 0 <= i < |rs| - 1 && rs[1..][i] == Err(e) && forall j :: 0 <= j < i ==> rs[1..][j].Ok?;
    assert rs[i + 1] == Err(e);
    forall j | 0 <= j < i + 1
      ensures rs[j].Ok?
    {
      if j > 0 {
        assert rs[j] == rs[1..][j - 1];
      }
    }
  }

  /** parseMultiple: comments removed, then every top-level expression parsed. */
  function ParseMultiple(source: string): (r: Result<seq<Node>>)
    ensures SplitExpressions(RemoveComments(source)).Err? ==> r == Err(SplitExpressions(RemoveComments(source)).error)
    ensures r.Ok? ==> var pieces := SplitExpressions(RemoveComments(source)).value;
      |r.value| == |pieces| && forall i :: 0 <= i < |pieces| ==> Parse(pieces[i]) == Ok(r.value[i])
  {
    var src := RemoveComments(source);
    match SplitExpressions(src)
    case Err(e) => Err(e)
    case Ok(pieces) => Collect(ParseEach(pieces, |source|))
  }
}
