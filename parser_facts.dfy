/** What the reader promises about particular shapes of source text: tokens,
    quotes, string literals and a second expression where one is expected. */
module ParserFacts {
  import opened Results
  import opened Ints
  import opened Nodes
  import opened Parser

  /** A text that reads as one token: no blank, no quote and no `;`, and not
      opening a string literal or a list. */
  predicate IsPlainToken(t: string)
  {
    |t| > 0 && t[0] != '"' && t[0] != '(' &&
    forall i :: 0 <= i < |t| ==> !IsBlank(t[i]) && t[i] != '\'' && t[i] != ';'
  }

  lemma {:induction false} TokenLengthOfToken(t: string, rest: string)
    requires forall i :: 0 <= i < |t| ==> IsTokenChar(t[i])
    requires |rest| == 0 || !IsTokenChar(rest[0])
    ensures TokenLength(t + rest) == |t|
  {
    if |t| > 0 {
      assert (t + rest)[0] == t[0] && (t + rest)[1..] == t[1..] + rest;
      TokenLengthOfToken(t[1..], rest);
    }
  }

  /** Every character of a plain token is one the token pattern accepts. */
  lemma PlainTokenChars(t: string)
    requires IsPlainToken(t)
    ensures forall i :: 0 <= i < |t| ==> IsTokenChar(t[i])
  {
    forall i | 0 <= i < |t|
      ensures IsTokenChar(t[i])
    {
      assert !IsBlank(t[i]);
    }
  }

  // ---- one-step unfoldings of firstExpression -----------------------------------

  lemma FirstExpressionTrimmed(s: string)
    requires |s| > 0 && !IsBlank(s[0]) && !IsBlank(s[|s| - 1])
    ensures FirstExpression(s) == FirstOfTrimmed(s)
  {
  }

  lemma FirstOfToken(t: string)
    requires |t| > 0 && t[0] != '\'' && t[0] != '"' && t[0] != '('
    ensures FirstOfTrimmed(t) == Ok(Some(SplitAt(t, TokenLength(t))))
  {
  }

  lemma FirstOfQuote(t: string)
    requires |t| > 0 && t[0] == '\''
    ensures FirstOfTrimmed(t) == QuoteFirst(FirstExpression(t[1..]))
  {
  }

  lemma FirstOfString(t: string)
    requires |t| > 0 && t[0] == '"'
    ensures FirstOfTrimmed(t) == StringFirst(t)
  {
  }

  /** A text that is its own single top-level expression. */
  lemma SingleExpression(s: string)
    requires FirstExpression(s) == Ok(Some(Split(s, "")))
    requires |s| > 0 && !IsBlank(s[0]) && !IsBlank(s[|s| - 1])
    ensures SplitExpressions(s) == Ok([s])
    ensures HasMultipleExpressions(s) == Ok(false)
  {
    assert Trim(s) == s;
    SplitAlone(s);
  }

  lemma SplitAlone(s: string)
    requires FirstExpression(s) == Ok(Some(Split(s, "")))
    ensures SplitFrom(s) == Ok([s])
  {
    SplitFromFound(s, Split(s, ""));
    SplitFromEmpty();
    PrependOne(s);
  }

  lemma SplitFromEmpty()
    ensures SplitFrom("") == Ok([])
  {
  }

  lemma PrependOne(s: string)
    ensures Prepend([s], Ok([])) == Ok([s])
  {
    assert [s] + [] == [s];
  }

  // ---- one-step unfoldings of parse ---------------------------------------------

  lemma ParseUnchanged(src: string)
    requires |src| > 0 && !IsBlank(src[0]) && !IsBlank(src[|src| - 1])
    requires RemoveComments(src) == src
    ensures Parse(src) == ParseClean(src, |src|)
  {
  }

  lemma ParseCleanSingle(src: string, n: nat)
    requires |src| <= n && HasMultipleExpressions(src) == Ok(false)
    ensures ParseClean(src, n) == ParseOne(src, n)
  {
  }

  lemma ParseOneQuote(src: string, n: nat)
    requires 0 < |src| <= n && src[0] == '\''
    ensures ParseOne(src, n) == QuoteNode(Parse(src[1..]))
  {
    assert src != "#t" && src != "#f" by { assert src[0] != "#t"[0]; }
    assert !IsNumber(src) by { assert !IsDigit(src[0]); }
    assert src != "";
  }

  lemma ParseOneString(src: string, n: nat)
    requires 2 <= |src| <= n && src[0] == '"'
    ensures ParseOne(src, n) == Ok(Str(src[1..|src| - 1]))
  {
    assert src != "#t" && src != "#f" by { assert src[0] != "#t"[0]; }
    assert !IsNumber(src) by { assert !IsDigit(src[0]); }
    assert src != "" && src[0] != '\'';
  }

  lemma ParseOneSymbol(src: string, n: nat)
    requires 0 < |src| <= n && src[0] != '\'' && src[0] != '"' && src[0] != '('
    requires src != "#t" && src != "#f" && !IsNumber(src)
    ensures ParseOne(src, n) == Ok(Sym(src))
  {
  }

  /** A quote expression that is the whole text parses to `(quote X)` with X
      the parse of the text after the quote. */
  lemma ParseQuote(s: string)
    requires |s| > 0 && s[0] == '\'' && !IsBlank(s[|s| - 1])
    requires forall i :: 0 <= i < |s| ==> s[i] != ';'
    requires FirstExpression(s) == Ok(Some(Split(s, "")))
    ensures Parse(s) == QuoteNode(Parse(s[1..]))
  {
    NoSemicolonUnchanged(s);
    ParseUnchanged(s);
    SingleExpression(s);
    ParseCleanSingle(s, |s|);
    ParseOneQuote(s, |s|);
  }

  // ---- tokens ---------------------------------------------------------------------

  /** A plain token is its own first expression, whatever blank-led text
      follows it. */
  lemma TokenSplits(t: string, rest: string)
    requires IsPlainToken(t)
    requires |rest| == 0 || IsSpace(rest[0])
    requires !IsBlank((t + rest)[|t + rest| - 1])
    ensures FirstExpression(t + rest) == Ok(Some(Split(t, rest)))
  {
    var s := t + rest;
    assert s[0] == t[0] && !IsBlank(s[0]);
    FirstExpressionTrimmed(s);
    FirstOfToken(s);
    PlainTokenChars(t);
    TokenLengthOfToken(t, rest);
    assert s[..|t|] == t && s[|t|..] == rest;
    assert SplitAt(s, |t|) == Split(t, rest);
  }

  /** After comment removal and trimming, a plain token is `#t`, `#f`, an Int
      when the whole text is an integer literal, and otherwise a symbol of
      exactly that text. */
  lemma ParseToken(t: string)
    requires IsPlainToken(t)
    ensures Parse(t) ==
              if t == "#t" then Ok(Bool(true))
              else if t == "#f" then Ok(Bool(false))
              else if IsNumber(t) then
                (if ParseInt(t).Ok? then Ok(Int(ParseInt(t).value)) else Err(ParseInt(t).error))
              else Ok(Sym(t))
  {
    TokenWhole(t);
    NoSemicolonUnchanged(t);
    ParseWhole(t);
    if t != "#t" && t != "#f" && !IsNumber(t) {
      ParseOneSymbol(t, |t|);
    }
  }

  lemma TokenWhole(t: string)
    requires IsPlainToken(t)
    ensures FirstExpression(t) == Ok(Some(Split(t, "")))
    ensures !IsBlank(t[0]) && !IsBlank(t[|t| - 1])
  {
    assert t + "" == t;
    TokenSplits(t, "");
  }

  /** A comment-free text that is one expression, with no blank at either
      end, parses as that one expression. */
  lemma ParseWhole(s: string)
    requires |s| > 0 && !IsBlank(s[0]) && !IsBlank(s[|s| - 1])
    requires RemoveComments(s) == s
    requires FirstExpression(s) == Ok(Some(Split(s, "")))
    ensures Parse(s) == ParseOne(s, |s|)
  {
    ParseUnchanged(s);
    SingleExpression(s);
    ParseCleanSingle(s, |s|);
  }
  // ---- quotes -------------------------------------------------------------------

  /** k quote characters. */
  function Quotes(k: nat): (q: string)
    ensures |q| == k && forall i :: 0 <= i < k ==> q[i] == '\''
  {
    if k == 0 then "" else "'" + Quotes(k - 1)
  }

  /** x under k quotes: `(quote (quote ... x))`. */
  function Quoted(k: nat, x: Node): Node
  {
    if k == 0 then x else List([Quote, Quoted(k - 1, x)])
  }

  lemma QuotesTail(k: nat, t: string)
    requires k > 0
    ensures (Quotes(k) + t)[0] == '\'' && (Quotes(k) + t)[1..] == Quotes(k - 1) + t
    ensures "'" + (Quotes(k) + t)[1..] == Quotes(k) + t
  {
    var q := Quotes(k - 1);
    assert Quotes(k) + t == ['\''] + (q + t);
  }

  /** A plain token behind quotes still holds no `;` and has no blank end. */
  lemma QuotedTokenChars(k: nat, t: string)
    requires IsPlainToken(t)
    ensures forall i :: 0 <= i < |Quotes(k) + t| ==> (Quotes(k) + t)[i] != ';'
    ensures !IsBlank((Quotes(k) + t)[0]) && !IsBlank((Quotes(k) + t)[|Quotes(k) + t| - 1])
  {
    var s := Quotes(k) + t;
    forall i | 0 <= i < |s|
      ensures s[i] != ';'
    {
      if i >= k {
        assert s[i] == t[i - k];
      }
    }
  }

  lemma {:induction false} QuotedTokenSplits(k: nat, t: string)
    requires IsPlainToken(t)
    ensures FirstExpression(Quotes(k) + t) == Ok(Some(Split(Quotes(k) + t, "")))
  {
    var s := Quotes(k) + t;
    QuotedTokenChars(k, t);
    if k == 0 {
      assert s == t + "";
      TokenSplits(t, "");
    } else {
      QuotedTokenSplits(k - 1, t);
      FirstExpressionTrimmed(s);
      FirstOfQuote(s);
      QuotesTail(k, t);
    }
  }

  /** Every leading quote wraps what follows in `(quote X)`. */
  lemma {:induction false} ParseQuotedToken(k: nat, t: string)
    requires IsPlainToken(t) && Parse(t).Ok?
    ensures Parse(Quotes(k) + t) == Ok(Quoted(k, Parse(t).value))
  {
    var s := Quotes(k) + t;
    if k == 0 {
      assert s == t;
    } else {
      QuotedTokenChars(k, t);
      QuotedTokenSplits(k, t);
      ParseQuote(s);
      QuotesTail(k, t);
      ParseQuotedToken(k - 1, t);
      var v := Parse(t).value;
      assert Parse(s[1..]) == Ok(Quoted(k - 1, v));
      assert Quoted(k, v) == List([Quote, Quoted(k - 1, v)]);
    }
  }

  /** Four quotes before a symbol nest it four quotes deep. */
  lemma FourQuotes()
    ensures Parse("''''foo") == Ok(Quoted(4, Sym("foo")))
  {
    FourQuotesText();
    ParseToken("foo");
    ParseQuotedToken(4, "foo");
  }

  lemma FourQuotesText()
    ensures "''''foo" == Quotes(4) + "foo"
  {
    assert Quotes(4) == "''''";
  }
  // ---- string literals --------------------------------------------------------

  /** The body of a string literal that reads back as itself: every `"` in it
      is escaped by a preceding backslash, it does not end in a backslash
      (which would escape the closing quote), and no `;` in it has a newline
      after it (comment removal runs before the literal is read, and would
      cut the text from that `;` to the end of its line). */
  predicate IsStringBody(c: string)
  {
    (forall i :: 0 <= i < |c| ==> (c[i] == '"' ==> i > 0 && c[i - 1] == '\\')) &&
    (|c| == 0 || c[|c| - 1] != '\\') &&
    CommentFree(c)
  }

  /** The quote closing the literal "c" is its last character. */
  lemma StringLiteralCloses(c: string)
    requires IsStringBody(c)
    ensures CloseQuote("\"" + c + "\"") == Some(|c| + 1)
  {
    var t := "\"" + c + "\"";
    forall k | 1 <= k < |c| + 1
      ensures !ClosesString(t, k)
    {
      assert t[k] == c[k - 1];
      if c[k - 1] == '"' {
        var j := k - 1;
        assert c[j] == '"' && j < |c|;
        assert j > 0 && c[j - 1] == '\\';
        assert t[k - 1] == c[j - 1];
      }
    }
    assert ClosesString(t, |c| + 1) by {
      if |c| > 0 {
        assert t[|c|] == c[|c| - 1];
      }
    }
  }

  /** The quotes add no comment, and the content is the text between them. */
  lemma QuotedCommentFree(c: string)
    requires CommentFree(c)
    ensures CommentFree("\"" + c + "\"") && CommentFree("\"" + c)
    ensures ("\"" + c + "\"")[1..|c| + 1] == c
  {
    var t := "\"" + c + "\"";
    forall i, j | 0 <= i < j < |t| && t[i] == ';'
      ensures t[j] != '\n'
    {
      assert 0 < i <= |c| && t[i] == c[i - 1];
      if j <= |c| {
        assert t[j] == c[j - 1];
      }
    }
    assert ("\"" + c) == t[..|c| + 1];
  }

  /** A string literal is one expression and parses to its text between the
      quotes, escapes kept as written. */
  lemma ParseString(c: string)
    requires IsStringBody(c)
    ensures Parse("\"" + c + "\"") == Ok(Str(c))
  {
    var t := "\"" + c + "\"";
    QuotedCommentFree(c);
    StringLiteralCloses(c);
    assert FirstExpression(t) == Ok(Some(Split(t, ""))) by {
      FirstExpressionTrimmed(t);
      FirstOfString(t);
      assert SplitAt(t, |t|) == Split(t, "");
    }
    CommentFreeUnchanged(t);
    ParseUnchanged(t);
    SingleExpression(t);
    ParseCleanSingle(t, |t|);
    ParseOneString(t, |t|);
  }

  lemma SplitFromErr(s: string, e: Error)
    requires FirstExpression(s) == Err(e)
    ensures SplitFrom(s) == Err(e)
  {
  }

  lemma ParseCleanErr(src: string, n: nat, e: Error)
    requires |src| <= n && HasMultipleExpressions(src) == Err(e)
    ensures ParseClean(src, n) == Err(e)
  {
  }

  /** No character of "c closes the literal it opens. */
  lemma UnclosedLiteral(c: string)
    requires forall i :: 0 <= i < |c| ==> c[i] != '"'
    requires |c| == 0 || !IsBlank(c[|c| - 1])
    ensures !IsBlank(("\"" + c)[|c|]) && ("\"" + c)[0] == '"'
    ensures CloseQuote("\"" + c) == None
  {
    var t := "\"" + c;
    assert |c| > 0 ==> t[|c|] == c[|c| - 1];
    forall i | 0 <= i < |t|
      ensures i > 0 ==> t[i] != '"'
    {
      if i > 0 {
        assert t[i] == c[i - 1];
      }
    }
  }

  lemma SplitErr(s: string, e: Error)
    requires |s| > 0 && !IsBlank(s[0]) && !IsBlank(s[|s| - 1])
    requires FirstExpression(s) == Err(e)
    ensures HasMultipleExpressions(s) == Err(e)
  {
    assert Trim(s) == s;
    SplitFromErr(s, e);
  }

  /** A `;` inside a string literal with no newline after it is kept:
      `"a;b"` reads as the three characters a, ; and b. */
  lemma ParseStringWithSemicolon(c: string)
    requires c == "a;b"
    ensures Parse("\"" + c + "\"") == Ok(Str(c))
  {
    assert |c| == 3 && c[0] == 'a' && c[1] == ';' && c[2] == 'b';
    ParseString(c);
  }

  /** A string literal without its closing quote is refused while the text
      is being split, before parse looks at the first character. */
  lemma ParseUnclosedString(c: string)
    requires forall i :: 0 <= i < |c| ==> c[i] != '"'
    requires |c| == 0 || !IsBlank(c[|c| - 1])
    requires CommentFree(c)
    ensures Parse("\"" + c) == Err(ParseError(UnclosedString))
  {
    var t := "\"" + c;
    var e := ParseError(UnclosedString);
    UnclosedLiteral(c);
    assert Parse(t) == ParseClean(t, |t|) by {
      QuotedCommentFree(c);
      CommentFreeUnchanged(t);
      ParseUnchanged(t);
    }
    assert HasMultipleExpressions(t) == Err(e) by {
      FirstExpressionTrimmed(t);
      FirstOfString(t);
      SplitErr(t, e);
    }
    ParseCleanErr(t, |t|, e);
  }
  // ---- more than one expression ---------------------------------------------------

  lemma ParseCleanMultiple(src: string, n: nat)
    requires |src| <= n && HasMultipleExpressions(src) == Ok(true)
    ensures ParseClean(src, n) == Err(ParseError(ExpectedEof))
  {
  }

  lemma TrimLeadingSpace(b: string)
    requires |b| > 0 && !IsBlank(b[0]) && !IsBlank(b[|b| - 1])
    ensures Trim(" " + b) == b
  {
    var s := " " + b;
    assert s[1..] == b;
    assert TrimStart(s) == b;
  }

  /** The second token after the blank that separates it from the first. */
  lemma SecondTokenSplits(b: string)
    requires IsPlainToken(b)
    ensures FirstExpression(" " + b) == Ok(Some(Split(b, "")))
  {
    LeadingSpaceDropped(b);
    TokenAlone(b);
  }

  lemma LeadingSpaceDropped(b: string)
    requires IsPlainToken(b)
    ensures FirstExpression(" " + b) == FirstOfTrimmed(b)
  {
    TrimLeadingSpace(b);
  }

  lemma TokenAlone(b: string)
    requires IsPlainToken(b)
    ensures FirstOfTrimmed(b) == Ok(Some(Split(b, "")))
  {
    assert b + "" == b;
    TokenSplits(b, "");
    FirstExpressionTrimmed(b);
  }

  lemma TwoTokensChars(a: string, b: string)
    requires IsPlainToken(a) && IsPlainToken(b)
    ensures forall i :: 0 <= i < |a + " " + b| ==> (a + " " + b)[i] != ';'
    ensures !IsBlank((a + " " + b)[0]) && !IsBlank((a + " " + b)[|a + " " + b| - 1])
    ensures a + " " + b == a + (" " + b) && (" " + b)[0] == ' '
    ensures !IsBlank((a + (" " + b))[|a + (" " + b)| - 1])
  {
    var s := a + " " + b;
    forall i | 0 <= i < |s|
      ensures s[i] != ';'
    {
      if i > |a| {
        assert s[i] == b[i - |a| - 1];
      }
    }
  }

  lemma SecondTokenRest(b: string)
    requires IsPlainToken(b)
    ensures SplitFrom(" " + b) == Ok([b])
  {
    SecondTokenSplits(b);
    SplitFromFound(" " + b, Split(b, ""));
    assert SplitFrom("") == Ok([]);
    assert [b] + [] == [b];
  }

  lemma PrependPair(a: string, b: string)
    ensures Prepend([a], Ok([b])) == Ok([a, b])
  {
    assert [a] + [b] == [a, b];
  }

  lemma FirstTokenRest(a: string, b: string)
    requires IsPlainToken(a) && IsPlainToken(b)
    requires SplitFrom(" " + b) == Ok([b])
    ensures SplitFrom(a + " " + b) == Ok([a, b])
  {
    TwoTokensChars(a, b);
    var rest := " " + b;
    TokenSplits(a, rest);
    SplitFromFound(a + rest, Split(a, rest));
    PrependPair(a, b);
  }

  /** Two tokens side by side split into exactly those two tokens. */
  lemma TwoTokensSplit(a: string, b: string)
    requires IsPlainToken(a) && IsPlainToken(b)
    ensures SplitExpressions(a + " " + b) == Ok([a, b])
  {
    TwoTokensChars(a, b);
    SecondTokenRest(b);
    FirstTokenRest(a, b);
    assert Trim(a + " " + b) == a + " " + b;
  }

  /** Two expressions where one is expected: "Expected EOF". */
  lemma ParseTwoTokens(a: string, b: string)
    requires IsPlainToken(a) && IsPlainToken(b)
    ensures Parse(a + " " + b) == Err(ParseError(ExpectedEof))
  {
    var s := a + " " + b;
    TwoTokensChars(a, b);
    assert Parse(s) == ParseClean(s, |s|) by {
      NoSemicolonUnchanged(s);
      ParseUnchanged(s);
    }
    TwoTokensSplit(a, b);
    ParseCleanMultiple(s, |s|);
  }
  // ---- lists ----------------------------------------------------------------------

  /** A parenthesised expression reads as a list with one element per
      top-level piece between the parens, each element the parse of its
      piece, in order. */
  lemma ParseListPieces(src: string, n: nat)
    requires 0 < |src| <= n && ParseList(src, n).Ok?
    ensures MatchingParen(src).Ok?
    ensures SplitExpressions(src[1..MatchingParen(src).value]).Ok?
    ensures var pieces := SplitExpressions(src[1..MatchingParen(src).value]).value;
      var items := ParseList(src, n).value.items;
      |items| == |pieces| && forall i :: 0 <= i < |pieces| ==> Parse(pieces[i]) == Ok(items[i])
  {
  }

  lemma EmptyParens()
    ensures Depth("()", 0) == 1 && Depth("()", 1) == 0
  {
    assert "()"[1..2] == ")";
    assert "()"[1..1] == "";
    assert Balance(")") == -1;
  }

  lemma EmptyParensMatch()
    ensures MatchingParen("()") == Ok(1)
  {
    EmptyParens();
  }

  lemma FirstOfList(t: string)
    requires |t| > 0 && t[0] == '('
    ensures FirstOfTrimmed(t) == ListFirst(t)
  {
  }

  lemma ParseOneList(src: string, n: nat)
    requires 0 < |src| <= n && src[0] == '('
    ensures ParseOne(src, n) == ParseList(src, n)
  {
    assert src != "#t" && src != "#f" by { assert src[0] != "#t"[0]; }
    assert !IsNumber(src) by { assert !IsDigit(src[0]); }
    assert src != "" && src[0] != '\'' && src[0] != '"';
  }

  lemma EmptyListSplits()
    ensures FirstExpression("()") == Ok(Some(Split("()", "")))
  {
    EmptyParensMatch();
    FirstExpressionTrimmed("()");
    FirstOfList("()");
    assert SplitAt("()", 2) == Split("()", "");
  }

  lemma EmptyListWhole()
    ensures Parse("()") == ParseOne("()", 2)
  {
    EmptyListSplits();
    NoSemicolonUnchanged("()");
    ParseWhole("()");
  }

  lemma EmptyListBody()
    ensures ParseList("()", 2) == Ok(List([]))
  {
    EmptyParensMatch();
    assert "()"[1..1] == "";
    assert Trim("") == "";
    assert SplitFrom("") == Ok([]);
  }

  /** `()` reads as the empty list. */
  lemma ParseEmptyList()
    ensures Parse("()") == Ok(List([]))
  {
    EmptyListWhole();
    ParseOneList("()", 2);
    EmptyListBody();
  }
}
