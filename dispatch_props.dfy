/**
 * What the single-token dispatcher returns, alternative by alternative:
 * the fixed order of the alternatives decides every overlap between them
 * (`->` before `-`, `true` before identifiers, `go {` before the keyword).
 */
module DispatchProps {
  import opened TokenModel
  import opened Scan
  import opened Literals
  import opened InlineGo
  import opened Lexer

  /** A match of `lit` fixes each character it covers. */
  lemma StartsWithAt(s: string, p: nat, lit: string, k: nat)
    requires StartsWith(s, p, lit) && k < |lit|
    ensures p + k < |s| && s[p + k] == lit[k]
  {
    assert s[p..p + |lit|][k] == s[p + k];
  }

  /** The first characters the simple alternatives need, which keep them apart. */
  lemma SimpleHeads(s: string, p: nat)
    requires p <= |s|
    ensures StartsWith(s, p, "->") ==> p < |s| && s[p] == '-'
    ensures StartsWith(s, p, "::") ==> p < |s| && s[p] == ':'
    ensures StartsWith(s, p, "==") ==> p < |s| && s[p] == '='
    ensures StartsWith(s, p, "true") ==> p + 1 < |s| && s[p] == 't' && s[p + 1] == 'r'
    ensures StartsWith(s, p, "false") ==> p + 1 < |s| && s[p] == 'f' && s[p + 1] == 'a'
    ensures StringLexer(s, p).Ok? ==> p < |s| && s[p] == '"'
    ensures CharLexer(s, p).Ok? ==> p < |s| && s[p] == '\''
    ensures NumLiteral(s, p).Ok? ==> p < |s| && IsDigit(s[p])
  {
    if StartsWith(s, p, "->") {
      StartsWithAt(s, p, "->", 0);
    }
    if StartsWith(s, p, "::") {
      StartsWithAt(s, p, "::", 0);
    }
    if StartsWith(s, p, "==") {
      StartsWithAt(s, p, "==", 0);
    }
    if StartsWith(s, p, "true") {
      StartsWithAt(s, p, "true", 0);
      StartsWithAt(s, p, "true", 1);
    }
    if StartsWith(s, p, "false") {
      StartsWithAt(s, p, "false", 0);
      StartsWithAt(s, p, "false", 1);
    }
  }

  /** The first characters each alternative needs, which keep the alternatives apart. */
  lemma AlternativeHeads(s: string, ctx: Context, p: nat)
    requires p <= |s|
    ensures InlineGoParser(s, p).Ok? ==> p + 1 < |s| && s[p] == 'g' && s[p + 1] == 'o'
    ensures FmtString(s, ctx, p).Ok? ==> p + 1 < |s| && s[p] == 'f' && s[p + 1] == '"'
    ensures StartsWith(s, p, "->") ==> p < |s| && s[p] == '-'
    ensures StartsWith(s, p, "::") ==> p < |s| && s[p] == ':'
    ensures StartsWith(s, p, "==") ==> p < |s| && s[p] == '='
    ensures StartsWith(s, p, "true") ==> p + 1 < |s| && s[p] == 't' && s[p + 1] == 'r'
    ensures StartsWith(s, p, "false") ==> p + 1 < |s| && s[p] == 'f' && s[p + 1] == 'a'
    ensures StringLexer(s, p).Ok? ==> p < |s| && s[p] == '"'
    ensures CharLexer(s, p).Ok? ==> p < |s| && s[p] == '\''
    ensures NumLiteral(s, p).Ok? ==> p < |s| && IsDigit(s[p])
  {
    SimpleHeads(s, p);
    if InlineGoParser(s, p).Ok? {
      StartsWithAt(s, p, "go", 0);
      StartsWithAt(s, p, "go", 1);
    }
    if FmtString(s, ctx, p).Ok? {
      StartsWithAt(s, p, "f\"", 0);
      StartsWithAt(s, p, "f\"", 1);
    }
  }

  /** A simple token never starts or ends with whitespace. */
  lemma SimpleTokenTrimmed(s: string, p: nat)
    requires p <= |s|
    ensures ReadTrimmed(s, p, SimpleToken(s, p))
  {
    ExactTrimmed(s, p, "->", ThinArrow);
    ExactTrimmed(s, p, "::", ScopeRes);
    ExactTrimmed(s, p, "true", BoolLiteral(true));
    ExactTrimmed(s, p, "false", BoolLiteral(false));
    ExactTrimmed(s, p, "==", Equals);
    assert ReadTrimmed(s, p, BoolLexer(s, p));
    OtherLexersTrimmed(s, p);
  }

  /** A successful read that starts and ends on a character other than whitespace. */
  ghost predicate ReadTrimmed(s: string, p: nat, r: Lexed<Token>) {
    r.Ok? ==> p < r.next <= |s| && !IsWhitespace(s[p]) && !IsWhitespace(s[r.next - 1])
  }

  /** A fixed text with no whitespace at either end. */
  lemma ExactTrimmed(s: string, p: nat, lit: string, t: Token)
    requires p <= |s| && |lit| >= 1 && !IsWhitespace(lit[0]) && !IsWhitespace(lit[|lit| - 1])
    ensures ReadTrimmed(s, p, Exact(s, p, lit, t))
  {
    if StartsWith(s, p, lit) {
      StartsWithAt(s, p, lit, 0);
      StartsWithAt(s, p, lit, |lit| - 1);
    }
  }

  lemma OtherLexersTrimmed(s: string, p: nat)
    requires p <= |s|
    ensures ReadTrimmed(s, p, KeywordOrIdent(s, p)) && ReadTrimmed(s, p, ControlCharLexer(s, p))
    ensures ReadTrimmed(s, p, StringLexer(s, p)) && ReadTrimmed(s, p, NumLiteral(s, p))
    ensures ReadTrimmed(s, p, CharLexer(s, p))
  {
    var w := KeywordOrIdent(s, p);
    if w.Ok? {
      assert IsIdentChar(s[w.next - 1]);
    }
  }

  /** A dispatched token never starts or ends with whitespace, so a padded token's span is trimmed. */
  lemma DispatchTrimmed(s: string, ctx: Context, p: nat)
    requires p <= |s|
    ensures ReadTrimmed(s, p, Dispatch(s, ctx, p))
  {
    HeadAlternativesTrimmed(s, ctx, p);
    SimpleTokenTrimmed(s, p);
  }

  lemma HeadAlternativesTrimmed(s: string, ctx: Context, p: nat)
    requires p <= |s|
    ensures ReadTrimmed(s, p, InlineGoParser(s, p)) && ReadTrimmed(s, p, FmtString(s, ctx, p))
  {
    AlternativeHeads(s, ctx, p);
  }

  /** A text whose `k`-th character differs from the input's cannot start there. */
  lemma NotStartsWithAt(s: string, p: nat, lit: string, k: nat)
    requires p <= |s| && k < |lit| && (p + k >= |s| || s[p + k] != lit[k])
    ensures !StartsWith(s, p, lit)
  {
    if StartsWith(s, p, lit) {
      StartsWithAt(s, p, lit, k);
    }
  }

  /** Where neither `go` nor `f"` starts, only the nine simple alternatives remain. */
  lemma DispatchIsSimple(s: string, ctx: Context, p: nat)
    requires p <= |s| && !StartsWith(s, p, "go") && !StartsWith(s, p, "f\"")
    ensures Dispatch(s, ctx, p) == SimpleToken(s, p)
  {
  }

  /** The three two-character operators win over the control characters they begin with. */
  lemma DispatchOperator(s: string, ctx: Context, p: nat)
    requires p <= |s|
    ensures StartsWith(s, p, "->") ==> Dispatch(s, ctx, p) == Ok(ThinArrow, p + 2)
    ensures StartsWith(s, p, "::") ==> Dispatch(s, ctx, p) == Ok(ScopeRes, p + 2)
    ensures StartsWith(s, p, "==") ==> Dispatch(s, ctx, p) == Ok(Equals, p + 2)
  {
    SimpleHeads(s, p);
    if p < |s| && (s[p] == '-' || s[p] == ':' || s[p] == '=') {
      NotStartsWithAt(s, p, "go", 0);
      NotStartsWithAt(s, p, "f\"", 0);
      DispatchIsSimple(s, ctx, p);
    }
  }

  /** `true` and `false` are matched as text, before identifiers: `trueX` begins with `true`. */
  lemma DispatchBool(s: string, ctx: Context, p: nat)
    requires p <= |s|
    ensures StartsWith(s, p, "true") ==> Dispatch(s, ctx, p) == Ok(BoolLiteral(true), p + 4)
    ensures StartsWith(s, p, "false") ==> Dispatch(s, ctx, p) == Ok(BoolLiteral(false), p + 5)
  {
    SimpleHeads(s, p);
    if StartsWith(s, p, "true") || StartsWith(s, p, "false") {
      NotStartsWithAt(s, p, "go", 0);
      NotStartsWithAt(s, p, "f\"", 1);
      DispatchIsSimple(s, ctx, p);
    }
  }

  /** No control character begins any other kind of token. */
  lemma ControlCharHead(c: char)
    requires c in ControlChars
    ensures !IsIdentStart(c) && !IsDigit(c) && !IsWhitespace(c) && c != '"' && c != '\''
  {
  }

  /** Among the simple alternatives, a control character wins exactly where no operator starts. */
  lemma SimpleControlChar(s: string, p: nat, c: char, n: nat)
    requires p <= |s|
    ensures SimpleToken(s, p) == Ok(ControlChar(c), n) <==>
            p < |s| && s[p] == c && c in ControlChars && n == p + 1 &&
            !StartsWith(s, p, "->") && !StartsWith(s, p, "::") && !StartsWith(s, p, "==")
  {
    SimpleHeads(s, p);
    if p < |s| && s[p] in ControlChars {
      ControlCharHead(s[p]);
    }
  }

  /**
   * A control character is lexed exactly where its character is in the set
   * and none of the three operators starts.
   */
  lemma DispatchControlChar(s: string, ctx: Context, p: nat, c: char, n: nat)
    requires p <= |s|
    ensures Dispatch(s, ctx, p) == Ok(ControlChar(c), n) <==>
            p < |s| && s[p] == c && c in ControlChars && n == p + 1 &&
            !StartsWith(s, p, "->") && !StartsWith(s, p, "::") && !StartsWith(s, p, "==")
  {
    SimpleControlChar(s, p, c, n);
    if p < |s| && s[p] in ControlChars {
      NotStartsWithAt(s, p, "go", 0);
      NotStartsWithAt(s, p, "f\"", 0);
      DispatchIsSimple(s, ctx, p);
    }
  }

  /**
   * Where no earlier alternative applies (an `f"` that does not lex as a
   * format string falls through to here), an identifier run is read whole
   * and classified: a reserved word gives its keyword, anything else an
   * identifier.
   */
  lemma DispatchWord(s: string, ctx: Context, p: nat)
    requires p < |s| && IsIdentStart(s[p])
    requires InlineGoParser(s, p).Fail? && FmtString(s, ctx, p).Fail?
    requires !StartsWith(s, p, "true") && !StartsWith(s, p, "false")
    ensures Dispatch(s, ctx, p) == Ok(ClassifyWord(s[p..IdentRunEnd(s, p)]), IdentRunEnd(s, p))
  {
    SimpleHeads(s, p);
  }

  /** An identifier or keyword token always stands for the whole identifier run at its start. */
  lemma DispatchWordIsWholeRun(s: string, ctx: Context, p: nat)
    requires p <= |s| && Dispatch(s, ctx, p).Ok?
    requires Dispatch(s, ctx, p).value.Ident? || IsKeywordToken(Dispatch(s, ctx, p).value)
    ensures var r := Dispatch(s, ctx, p);
            p < |s| && IsIdentStart(s[p]) && r.next == IdentRunEnd(s, p) &&
            r.value == ClassifyWord(s[p..r.next])
  {
    SimpleHeads(s, p);
  }

  /** `go` followed by neither whitespace nor an identifier character is the keyword `go`. */
  lemma DispatchGoKeyword(s: string, ctx: Context, p: nat)
    requires StartsWith(s, p, "go")
    requires p + 2 == |s| || (!IsWhitespace(s[p + 2]) && !IsIdentChar(s[p + 2]))
    ensures Dispatch(s, ctx, p) == Ok(Go, p + 2)
  {
    SimpleHeads(s, p);
    StartsWithAt(s, p, "go", 0);
    StartsWithAt(s, p, "go", 1);
    NotStartsWithAt(s, p, "f\"", 0);
    NotStartsWithAt(s, p, "true", 0);
    NotStartsWithAt(s, p, "false", 0);
    IdentRunEndUnique(s, p, p + 2);
    assert s[p..p + 2] == "go";
  }

  /** `go`, whitespace and a block give inline Go holding the block's interior verbatim. */
  lemma DispatchInlineGo(s: string, ctx: Context, p: nat, g: string)
    requires StartsWith(s, p, "go") && p + 2 <= |s|
    requires IsBlock(g)
    requires SkipWhitespace(s, p + 2) > p + 2 && StartsWith(s, SkipWhitespace(s, p + 2), g)
    ensures Dispatch(s, ctx, p) == Ok(InlineGo(g[1..|g| - 1]), SkipWhitespace(s, p + 2) + |g|)
  {
    InlineGoReadsBlock(s, p, g);
  }

  /** A quoted string literal is lexed as its decoded text. */
  lemma DispatchString(s: string, ctx: Context, p: nat, t: string)
    requires StartsWith(s, p, QuotedString(t))
    ensures Dispatch(s, ctx, p) == Ok(StringLiteral(t), p + |QuotedString(t)|)
  {
    StringLexerReadsQuoted(s, p, t);
    SimpleHeads(s, p);
    NotStartsWithAt(s, p, "go", 0);
    NotStartsWithAt(s, p, "f\"", 0);
    DispatchIsSimple(s, ctx, p);
  }

  /** A quoted character literal is lexed as its decoded character. */
  lemma DispatchChar(s: string, ctx: Context, p: nat, c: char)
    requires StartsWith(s, p, QuotedChar(c))
    ensures Dispatch(s, ctx, p) == Ok(CharLiteral(c), p + |QuotedChar(c)|)
  {
    CharLexerExact(s, p, c);
    SimpleHeads(s, p);
    NotStartsWithAt(s, p, "go", 0);
    NotStartsWithAt(s, p, "f\"", 0);
    DispatchIsSimple(s, ctx, p);
  }

  /** A number rule's outcome is the simple alternatives' outcome where a digit starts. */
  lemma SimpleTokenAtDigit(s: string, p: nat)
    requires p < |s| && IsDigit(s[p])
    ensures NumLiteral(s, p).Ok? || NumLiteral(s, p).error.InvalidInteger? ==>
            SimpleToken(s, p) == NumLiteral(s, p)
  {
    SimpleHeads(s, p);
    assert !IsIdentStart(s[p]) && s[p] !in ControlChars;
  }

  /** Where a digit starts, the dispatcher is down to the simple alternatives. */
  lemma DispatchAtDigit(s: string, ctx: Context, p: nat)
    requires p < |s| && IsDigit(s[p])
    ensures Dispatch(s, ctx, p) == SimpleToken(s, p)
  {
    NotStartsWithAt(s, p, "go", 0);
    NotStartsWithAt(s, p, "f\"", 0);
    DispatchIsSimple(s, ctx, p);
  }

  /**
   * The decimal text of a number is lexed as that integer when it fits in
   * 64 bits, and is rejected as an invalid integer when it does not.
   */
  lemma DispatchInt(s: string, ctx: Context, p: nat, v: nat)
    requires StartsWith(s, p, DecimalText(v)) && (v == 0 || DigitsEndAt(s, p + |DecimalText(v)|))
    requires v <= I64Max ==> !HasFraction(s, p + |DecimalText(v)|)
    ensures v <= I64Max ==> Dispatch(s, ctx, p) == Ok(IntLiteral(v as i64), p + |DecimalText(v)|)
    ensures v > I64Max ==> Dispatch(s, ctx, p) == Fail(InvalidInteger(p, p + |DecimalText(v)|))
  {
    NumLiteralReadsInt(s, p, v);
    StartsWithAt(s, p, DecimalText(v), 0);
    DispatchAtDigit(s, ctx, p);
    SimpleTokenAtDigit(s, p);
  }

  /** Digits, a point and digits are lexed as a float keeping both digit strings. */
  lemma DispatchFloat(s: string, ctx: Context, p: nat, v: nat, f: string)
    requires v <= I64Max
    requires |f| >= 1 && forall k :: 0 <= k < |f| ==> IsDigit(f[k])
    requires StartsWith(s, p, DecimalText(v) + ['.'] + f)
    requires DigitsEndAt(s, p + |DecimalText(v)| + 1 + |f|)
    ensures Dispatch(s, ctx, p) == Ok(FloatLiteral(v as i64, f), p + |DecimalText(v)| + 1 + |f|)
  {
    NumLiteralReadsFloat(s, p, v, f);
    StartsWithAt(s, p, DecimalText(v) + ['.'] + f, 0);
    DispatchAtDigit(s, ctx, p);
    SimpleTokenAtDigit(s, p);
  }
}
