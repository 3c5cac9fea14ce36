/**
 * Whole inputs and the token streams they lex to, spans included: the
 * cases the lexer's own test table fixes, and a few that show the edges
 * of its rules.
 */
module LexerCases {
  import opened TokenModel
  import opened Scan
  import opened Literals
  import opened InlineGo
  import opened Lexer
  import opened DispatchProps
  import opened TokenStream
  import opened FormatStrings

  /**
   * One step of the repetition: the padding up to `a`, a token dispatched
   * at `a` and ending at `b`, the padding up to `n`, then the rest of the stream.
   */
  lemma Step(s: string, ctx: Context, p: nat, a: nat, tok: Token, b: nat, n: nat)
    requires p <= a <= |s| && AllWhitespace(s, p, a) && (a == |s| || !IsWhitespace(s[a]))
    requires Dispatch(s, ctx, a) == Ok(tok, b)
    requires b <= n <= |s| && AllWhitespace(s, b, n) && (n == |s| || !IsWhitespace(s[n]))
    ensures LexAll(s, ctx, p) ==
            Repeated([Spanned(tok, Span(a, b, ctx))] + LexAll(s, ctx, n).items, LexAll(s, ctx, n).next)
  {
    SkipWhitespaceUnique(s, p, a);
    SkipWhitespaceUnique(s, b, n);
  }

  /** None of the two-character operators starts at `a`. */
  lemma NoOperator(s: string, a: nat)
    requires a < |s|
    requires a + 1 < |s| ==> !(s[a] == '-' && s[a + 1] == '>') && !(s[a] == ':' && s[a + 1] == ':') &&
                             !(s[a] == '=' && s[a + 1] == '=')
    ensures !StartsWith(s, a, "->") && !StartsWith(s, a, "::") && !StartsWith(s, a, "==")
  {
    if StartsWith(s, a, "->") { StartsWithAt(s, a, "->", 0); StartsWithAt(s, a, "->", 1); }
    if StartsWith(s, a, "::") { StartsWithAt(s, a, "::", 0); StartsWithAt(s, a, "::", 1); }
    if StartsWith(s, a, "==") { StartsWithAt(s, a, "==", 0); StartsWithAt(s, a, "==", 1); }
  }

  /** The padding from `b` ends exactly at `n`. */
  ghost predicate PaddingTo(s: string, b: nat, n: nat)
    requires b <= n <= |s|
  {
    AllWhitespace(s, b, n) && (n == |s| || !IsWhitespace(s[n]))
  }

  /** After padding from `p`, a control character stands alone at `a`, and the padding after it ends at `n`. */
  ghost predicate CtrlAt(s: string, p: nat, a: nat, n: nat) {
    p <= a < |s| && a + 1 <= n <= |s| && AllWhitespace(s, p, a) && s[a] in ControlChars &&
    (a + 1 < |s| ==> !(s[a] == '-' && s[a + 1] == '>') && !(s[a] == ':' && s[a + 1] == ':') &&
                     !(s[a] == '=' && s[a + 1] == '=')) &&
    PaddingTo(s, a + 1, n)
  }

  /**
   * After padding from `p`, the identifier run `a..e` starts with none of the
   * earlier alternatives' texts, and the padding after it ends at `n`.
   */
  ghost predicate WordAt(s: string, p: nat, a: nat, e: nat, n: nat) {
    p <= a < e <= n <= |s| && AllWhitespace(s, p, a) && IsIdentStart(s[a]) &&
    (forall k :: a <= k < e ==> IsIdentChar(s[k])) && (e == |s| || !IsIdentChar(s[e])) &&
    !StartsWith(s, a, "go") && !StartsWith(s, a, "f\"") &&
    !StartsWith(s, a, "true") && !StartsWith(s, a, "false") &&
    PaddingTo(s, e, n)
  }

  /** A step that reads a control character, then the stream `rest` ending at `q`. */
  lemma CtrlStep(s: string, ctx: Context, p: nat, a: nat, n: nat, rest: seq<Spanned>, q: nat)
    requires CtrlAt(s, p, a, n) && LexAll(s, ctx, n) == Repeated(rest, q)
    ensures LexAll(s, ctx, p) == Repeated([Spanned(ControlChar(s[a]), Span(a, a + 1, ctx))] + rest, q)
  {
    ControlCharHead(s[a]);
    NoOperator(s, a);
    DispatchControlChar(s, ctx, a, s[a], a + 1);
    Step(s, ctx, p, a, ControlChar(s[a]), a + 1, n);
  }

  /** A step that reads the identifier run `a..e`, the word `w`, as the token `tok`, then the stream `rest`. */
  lemma WordStep(s: string, ctx: Context, p: nat, a: nat, e: nat, n: nat, w: string, tok: Token, rest: seq<Spanned>, q: nat)
    requires WordAt(s, p, a, e, n) && s[a..e] == w && ClassifyWord(w) == tok
    requires LexAll(s, ctx, n) == Repeated(rest, q)
    ensures LexAll(s, ctx, p) == Repeated([Spanned(tok, Span(a, e, ctx))] + rest, q)
  {
    IdentRunEndUnique(s, a, e);
    DispatchWord(s, ctx, a);
    Step(s, ctx, p, a, tok, e, n);
  }

  /** Prepending a token to a listed stream lists it first. */
  lemma Prepend2(x: Spanned, a: Spanned)
    ensures [x] + [a] == [x, a]
  {
  }

  lemma Prepend3(x: Spanned, a: Spanned, b: Spanned)
    ensures [x] + [a, b] == [x, a, b]
  {
  }

  lemma Prepend4(x: Spanned, a: Spanned, b: Spanned, c: Spanned)
    ensures [x] + [a, b, c] == [x, a, b, c]
  {
  }

  lemma Prepend5(x: Spanned, a: Spanned, b: Spanned, c: Spanned, d: Spanned)
    ensures [x] + [a, b, c, d] == [x, a, b, c, d]
  {
  }

  lemma Prepend6(x: Spanned, a: Spanned, b: Spanned, c: Spanned, d: Spanned, e: Spanned)
    ensures [x] + [a, b, c, d, e] == [x, a, b, c, d, e]
  {
  }

  lemma Prepend7(x: Spanned, a: Spanned, b: Spanned, c: Spanned, d: Spanned, e: Spanned, f: Spanned)
    ensures [x] + [a, b, c, d, e, f] == [x, a, b, c, d, e, f]
  {
  }

  /** `->` is one thin-arrow token. */
  lemma LexThinArrow(s: string, ctx: Context)
    requires s == "->"
    ensures Lex(s, ctx) == Repeated([Spanned(ThinArrow, Span(0, 2, ctx))], 2)
  {
    DispatchOperator(s, ctx, 0);
    LexWhitespaceOnly(s, ctx, 2);
  }

  /** `fn` is the function keyword. */
  lemma LexFunctionKeyword(s: string, ctx: Context)
    requires s == "fn"
    ensures Lex(s, ctx) == Repeated([Spanned(Function, Span(0, 2, ctx))], 2)
  {
    FnLayout(s);
    LexWhitespaceOnly(s, ctx, 2);
    WordStep(s, ctx, 0, 0, 2, 2, "fn", Function, [], 2);
  }

  lemma FnLayout(s: string)
    requires s == "fn"
    ensures WordAt(s, 0, 0, 2, 2) && s[0..2] == "fn" && ClassifyWord("fn") == Function
  {
    assert |s| == 2 && s[0] == 'f' && s[1] == 'n';
    FnAt(s, 0);
  }

  /** Three control characters close the input, with no padding between them. */
  lemma ClosingCtrls(s: string, ctx: Context, a: nat)
    requires a + 3 == |s| && CtrlAt(s, a, a, a + 1) && CtrlAt(s, a + 1, a + 1, a + 2) && CtrlAt(s, a + 2, a + 2, a + 3)
    ensures LexAll(s, ctx, a) == Repeated([
              Spanned(ControlChar(s[a]), Span(a, a + 1, ctx)),
              Spanned(ControlChar(s[a + 1]), Span(a + 1, a + 2, ctx)),
              Spanned(ControlChar(s[a + 2]), Span(a + 2, a + 3, ctx))], a + 3)
  {
    var t0 := Spanned(ControlChar(s[a]), Span(a, a + 1, ctx));
    var t1 := Spanned(ControlChar(s[a + 1]), Span(a + 1, a + 2, ctx));
    var t2 := Spanned(ControlChar(s[a + 2]), Span(a + 2, a + 3, ctx));
    LexWhitespaceOnly(s, ctx, a + 3);
    CtrlStep(s, ctx, a + 2, a + 2, a + 3, [], a + 3);
    assert [t2] + [] == [t2];
    CtrlStep(s, ctx, a + 1, a + 1, a + 2, [t2], a + 3);
    Prepend2(t1, t2);
    CtrlStep(s, ctx, a, a, a + 1, [t1, t2], a + 3);
    Prepend3(t0, t1, t2);
  }

  /** Without spaces, `typeY` is one identifier, not the keyword `type` followed by `Y`. */
  lemma LexWithoutSpaces(s: string, ctx: Context)
    requires s == "typeY=duck{};"
    ensures Lex(s, ctx) == Repeated([
              Spanned(Ident("typeY"), Span(0, 5, ctx)),
              Spanned(ControlChar('='), Span(5, 6, ctx)),
              Spanned(Duck, Span(6, 10, ctx)),
              Spanned(ControlChar('{'), Span(10, 11, ctx)),
              Spanned(ControlChar('}'), Span(11, 12, ctx)),
              Spanned(ControlChar(';'), Span(12, 13, ctx))], 13)
  {
    WithoutSpacesFrom5(s, ctx);
    WithoutSpacesTypeY(s);
    var t0 := Spanned(Ident("typeY"), Span(0, 5, ctx));
    var t1 := Spanned(ControlChar('='), Span(5, 6, ctx));
    var t2 := Spanned(Duck, Span(6, 10, ctx));
    var t3 := Spanned(ControlChar('{'), Span(10, 11, ctx));
    var t4 := Spanned(ControlChar('}'), Span(11, 12, ctx));
    var t5 := Spanned(ControlChar(';'), Span(12, 13, ctx));
    WordStep(s, ctx, 0, 0, 5, 5, "typeY", Ident("typeY"), [t1, t2, t3, t4, t5], 13);
    Prepend6(t0, t1, t2, t3, t4, t5);
  }

  lemma WithoutSpacesFrom5(s: string, ctx: Context)
    requires s == "typeY=duck{};"
    ensures LexAll(s, ctx, 5) == Repeated([
              Spanned(ControlChar('='), Span(5, 6, ctx)),
              Spanned(Duck, Span(6, 10, ctx)),
              Spanned(ControlChar('{'), Span(10, 11, ctx)),
              Spanned(ControlChar('}'), Span(11, 12, ctx)),
              Spanned(ControlChar(';'), Span(12, 13, ctx))], 13)
  {
    WithoutSpacesCtrls(s);
    ClosingCtrls(s, ctx, 10);
    WithoutSpacesDuck(s);
    var t1 := Spanned(ControlChar('='), Span(5, 6, ctx));
    var t2 := Spanned(Duck, Span(6, 10, ctx));
    var t3 := Spanned(ControlChar('{'), Span(10, 11, ctx));
    var t4 := Spanned(ControlChar('}'), Span(11, 12, ctx));
    var t5 := Spanned(ControlChar(';'), Span(12, 13, ctx));
    WordStep(s, ctx, 6, 6, 10, 10, "duck", Duck, [t3, t4, t5], 13);
    Prepend4(t2, t3, t4, t5);
    CtrlStep(s, ctx, 5, 5, 6, [t2, t3, t4, t5], 13);
    Prepend5(t1, t2, t3, t4, t5);
  }

  /** The run `typeY` is a word that no earlier alternative claims. */
  lemma WithoutSpacesTypeY(s: string)
    requires s == "typeY=duck{};"
    ensures WordAt(s, 0, 0, 5, 5) && s[0..5] == "typeY" && ClassifyWord("typeY") == Ident("typeY")
  {
    assert |s| == 13 && s[0] == 't' && s[1] == 'y' && s[2] == 'p' && s[3] == 'e' && s[4] == 'Y' && s[5] == '=';
    TypeYAt(s, 0);
  }

  lemma WithoutSpacesDuck(s: string)
    requires s == "typeY=duck{};"
    ensures WordAt(s, 6, 6, 10, 10) && s[6..10] == "duck" && ClassifyWord("duck") == Duck
  {
    assert |s| == 13 && s[6] == 'd' && s[7] == 'u' && s[8] == 'c' && s[9] == 'k' && s[10] == '{';
    DuckAt(s, 6, 10);
  }

  lemma WithoutSpacesCtrls(s: string)
    requires s == "typeY=duck{};"
    ensures CtrlAt(s, 5, 5, 6) && s[5] == '='
    ensures CtrlAt(s, 10, 10, 11) && CtrlAt(s, 11, 11, 12) && CtrlAt(s, 12, 12, 13)
    ensures s[10] == '{' && s[11] == '}' && s[12] == ';'
  {
  }

  /** With spaces, the keywords are separated and the spans skip the padding. */
  lemma LexWithSpaces(s: string, ctx: Context)
    requires s == "type Y = duck {};"
    ensures Lex(s, ctx) == Repeated([
              Spanned(Type, Span(0, 4, ctx)),
              Spanned(Ident("Y"), Span(5, 6, ctx)),
              Spanned(ControlChar('='), Span(7, 8, ctx)),
              Spanned(Duck, Span(9, 13, ctx)),
              Spanned(ControlChar('{'), Span(14, 15, ctx)),
              Spanned(ControlChar('}'), Span(15, 16, ctx)),
              Spanned(ControlChar(';'), Span(16, 17, ctx))], 17)
  {
    WithSpacesFrom7(s, ctx);
    WithSpacesY(s);
    WithSpacesType(s);
    var t0 := Spanned(Type, Span(0, 4, ctx));
    var t1 := Spanned(Ident("Y"), Span(5, 6, ctx));
    var t2 := Spanned(ControlChar('='), Span(7, 8, ctx));
    var t3 := Spanned(Duck, Span(9, 13, ctx));
    var t4 := Spanned(ControlChar('{'), Span(14, 15, ctx));
    var t5 := Spanned(ControlChar('}'), Span(15, 16, ctx));
    var t6 := Spanned(ControlChar(';'), Span(16, 17, ctx));
    WordStep(s, ctx, 5, 5, 6, 7, "Y", Ident("Y"), [t2, t3, t4, t5, t6], 17);
    Prepend6(t1, t2, t3, t4, t5, t6);
    WordStep(s, ctx, 0, 0, 4, 5, "type", Type, [t1, t2, t3, t4, t5, t6], 17);
    Prepend7(t0, t1, t2, t3, t4, t5, t6);
  }

  lemma WithSpacesFrom7(s: string, ctx: Context)
    requires s == "type Y = duck {};"
    ensures LexAll(s, ctx, 7) == Repeated([
              Spanned(ControlChar('='), Span(7, 8, ctx)),
              Spanned(Duck, Span(9, 13, ctx)),
              Spanned(ControlChar('{'), Span(14, 15, ctx)),
              Spanned(ControlChar('}'), Span(15, 16, ctx)),
              Spanned(ControlChar(';'), Span(16, 17, ctx))], 17)
  {
    WithSpacesCtrls(s);
    ClosingCtrls(s, ctx, 14);
    WithSpacesDuck(s);
    var t2 := Spanned(ControlChar('='), Span(7, 8, ctx));
    var t3 := Spanned(Duck, Span(9, 13, ctx));
    var t4 := Spanned(ControlChar('{'), Span(14, 15, ctx));
    var t5 := Spanned(ControlChar('}'), Span(15, 16, ctx));
    var t6 := Spanned(ControlChar(';'), Span(16, 17, ctx));
    WordStep(s, ctx, 9, 9, 13, 14, "duck", Duck, [t4, t5, t6], 17);
    Prepend4(t3, t4, t5, t6);
    CtrlStep(s, ctx, 7, 7, 9, [t3, t4, t5, t6], 17);
    Prepend5(t2, t3, t4, t5, t6);
  }

  /** The keyword `type` and the space after it. */
  lemma WithSpacesType(s: string)
    requires s == "type Y = duck {};"
    ensures WordAt(s, 0, 0, 4, 5) && s[0..4] == "type" && ClassifyWord("type") == Type
  {
    assert |s| == 17 && s[0] == 't' && s[1] == 'y' && s[2] == 'p' && s[3] == 'e' && s[4] == ' ' && s[5] == 'Y';
    TypeAt(s, 0);
  }

  lemma WithSpacesY(s: string)
    requires s == "type Y = duck {};"
    ensures WordAt(s, 5, 5, 6, 7) && s[5..6] == "Y" && ClassifyWord("Y") == Ident("Y")
  {
    assert |s| == 17 && s[5] == 'Y' && s[6] == ' ' && s[7] == '=';
    YAt(s, 5);
  }

  lemma WithSpacesDuck(s: string)
    requires s == "type Y = duck {};"
    ensures WordAt(s, 9, 9, 13, 14) && s[9..13] == "duck" && ClassifyWord("duck") == Duck
  {
    assert |s| == 17 && s[9] == 'd' && s[10] == 'u' && s[11] == 'c' && s[12] == 'k' && s[13] == ' ' && s[14] == '{';
    DuckAt(s, 9, 14);
  }

  lemma WithSpacesCtrls(s: string)
    requires s == "type Y = duck {};"
    ensures CtrlAt(s, 7, 7, 9) && s[7] == '='
    ensures CtrlAt(s, 14, 14, 15) && CtrlAt(s, 15, 15, 16) && CtrlAt(s, 16, 16, 17)
    ensures s[14] == '{' && s[15] == '}' && s[16] == ';'
  {
  }

  /** `trueX` is the literal `true` followed by the identifier `X`. */
  lemma LexBoolPrefix(s: string, ctx: Context)
    requires s == "trueX"
    ensures Lex(s, ctx) == Repeated([
              Spanned(BoolLiteral(true), Span(0, 4, ctx)),
              Spanned(Ident("X"), Span(4, 5, ctx))], 5)
  {
    BoolPrefixLayout(s);
    LexWhitespaceOnly(s, ctx, 5);
    WordStep(s, ctx, 4, 4, 5, 5, "X", Ident("X"), [], 5);
    DispatchBool(s, ctx, 0);
    Step(s, ctx, 0, 0, BoolLiteral(true), 4, 4);
  }

  lemma BoolPrefixLayout(s: string)
    requires s == "trueX"
    ensures StartsWith(s, 0, "true") && !IsWhitespace(s[0]) && PaddingTo(s, 4, 4)
    ensures WordAt(s, 4, 4, 5, 5) && s[4..5] == "X" && ClassifyWord("X") == Ident("X")
  {
    assert |s| == 5 && s[4] == 'X';
    XAt(s, 4);
  }

  // Word layouts stated on characters, so that the literal input stays out of the proofs.

  lemma FnAt(s: string, a: nat)
    requires a + 2 == |s| && s[a] == 'f' && s[a + 1] == 'n'
    ensures WordAt(s, a, a, a + 2, a + 2) && s[a..a + 2] == "fn"
  {
    NotStartsWithAt(s, a, "go", 0);
    NotStartsWithAt(s, a, "f\"", 1);
    NotStartsWithAt(s, a, "true", 0);
    NotStartsWithAt(s, a, "false", 1);
  }

  lemma TypeYAt(s: string, a: nat)
    requires a + 5 < |s| && s[a] == 't' && s[a + 1] == 'y' && s[a + 2] == 'p' && s[a + 3] == 'e'
    requires s[a + 4] == 'Y' && s[a + 5] == '='
    ensures WordAt(s, a, a, a + 5, a + 5) && s[a..a + 5] == "typeY"
  {
    SliceOfFive(s, a, "typeY");
    NotStartsWithAt(s, a, "go", 0);
    NotStartsWithAt(s, a, "f\"", 0);
    NotStartsWithAt(s, a, "true", 1);
    NotStartsWithAt(s, a, "false", 0);
  }

  lemma TypeAt(s: string, a: nat)
    requires a + 5 < |s| && s[a] == 't' && s[a + 1] == 'y' && s[a + 2] == 'p' && s[a + 3] == 'e'
    requires s[a + 4] == ' ' && s[a + 5] == 'Y'
    ensures WordAt(s, a, a, a + 4, a + 5) && s[a..a + 4] == "type"
  {
    SliceOfFour(s, a, "type");
    NotStartsWithAt(s, a, "go", 0);
    NotStartsWithAt(s, a, "f\"", 0);
    NotStartsWithAt(s, a, "true", 1);
    NotStartsWithAt(s, a, "false", 0);
  }

  /** `duck` followed by `{`, possibly after one space. */
  lemma DuckAt(s: string, a: nat, n: nat)
    requires a + 4 <= n <= a + 5 && n < |s| && s[a] == 'd' && s[a + 1] == 'u' && s[a + 2] == 'c' && s[a + 3] == 'k'
    requires (n == a + 5 ==> s[a + 4] == ' ') && s[n] == '{'
    ensures WordAt(s, a, a, a + 4, n) && s[a..a + 4] == "duck"
  {
    DuckRun(s, a);
    assert PaddingTo(s, a + 4, n);
  }

  lemma DuckRun(s: string, a: nat)
    requires a + 4 < |s| && s[a] == 'd' && s[a + 1] == 'u' && s[a + 2] == 'c' && s[a + 3] == 'k'
    requires s[a + 4] == ' ' || s[a + 4] == '{'
    ensures (forall k :: a <= k < a + 4 ==> IsIdentChar(s[k])) && !IsIdentChar(s[a + 4]) && s[a..a + 4] == "duck"
    ensures !StartsWith(s, a, "go") && !StartsWith(s, a, "f\"") && !StartsWith(s, a, "true") && !StartsWith(s, a, "false")
  {
    SliceOfFour(s, a, "duck");
    NotStartsWithAt(s, a, "go", 0);
    NotStartsWithAt(s, a, "f\"", 0);
    NotStartsWithAt(s, a, "true", 0);
    NotStartsWithAt(s, a, "false", 0);
  }

  lemma SliceOfFour(s: string, a: nat, w: string)
    requires |w| == 4 && a + 4 <= |s|
    requires s[a] == w[0] && s[a + 1] == w[1] && s[a + 2] == w[2] && s[a + 3] == w[3]
    ensures s[a..a + 4] == w
  {
    assert s[a..a + 4] == [s[a], s[a + 1], s[a + 2], s[a + 3]];
  }

  lemma SliceOfFive(s: string, a: nat, w: string)
    requires |w| == 5 && a + 5 <= |s|
    requires s[a] == w[0] && s[a + 1] == w[1] && s[a + 2] == w[2] && s[a + 3] == w[3] && s[a + 4] == w[4]
    ensures s[a..a + 5] == w
  {
    assert s[a..a + 5] == [s[a], s[a + 1], s[a + 2], s[a + 3], s[a + 4]];
  }

  lemma YAt(s: string, a: nat)
    requires a + 2 < |s| && s[a] == 'Y' && s[a + 1] == ' ' && s[a + 2] == '='
    ensures WordAt(s, a, a, a + 1, a + 2) && s[a..a + 1] == "Y"
  {
    NotStartsWithAt(s, a, "go", 0);
    NotStartsWithAt(s, a, "f\"", 0);
    NotStartsWithAt(s, a, "true", 0);
    NotStartsWithAt(s, a, "false", 0);
  }

  lemma XAt(s: string, a: nat)
    requires a + 1 == |s| && s[a] == 'X'
    ensures WordAt(s, a, a, a + 1, a + 1) && s[a..a + 1] == "X"
  {
    NotStartsWithAt(s, a, "go", 0);
    NotStartsWithAt(s, a, "f\"", 0);
    NotStartsWithAt(s, a, "true", 0);
    NotStartsWithAt(s, a, "false", 0);
  }

  /** An escaped quote inside a string literal decodes to a quote. */
  lemma LexEscapedQuote(s: string, ctx: Context)
    requires s == "\"X\\\"X\""
    ensures Lex(s, ctx) == Repeated([Spanned(StringLiteral("X\"X"), Span(0, 6, ctx))], 6)
  {
    assert QuotedString("X\"X") == s;
    DispatchString(s, ctx, 0, "X\"X");
    LexWhitespaceOnly(s, ctx, 6);
  }

  /** `1.1` is one float whose integer part and fraction digits are both `1`. */
  lemma LexFloat(s: string, ctx: Context)
    requires s == "1.1"
    ensures Lex(s, ctx) == Repeated([Spanned(FloatLiteral(1, "1"), Span(0, 3, ctx))], 3)
  {
    assert DecimalText(1) == "1";
    assert DecimalText(1) + ['.'] + "1" == s;
    DispatchFloat(s, ctx, 0, 1, "1");
    LexWhitespaceOnly(s, ctx, 3);
  }

  /** A leading zero is a whole integer by itself: `007` is three integers. */
  lemma LexLeadingZeros(s: string, ctx: Context)
    requires s == "007"
    ensures Lex(s, ctx) == Repeated([
              Spanned(IntLiteral(0), Span(0, 1, ctx)),
              Spanned(IntLiteral(0), Span(1, 2, ctx)),
              Spanned(IntLiteral(7), Span(2, 3, ctx))], 3)
  {
    assert |s| == 3 && s[0] == '0' && s[1] == '0' && s[2] == '7';
    LexWhitespaceOnly(s, ctx, 3);
    DigitStep(s, ctx, 2, 7, [], 3);
    DigitStep(s, ctx, 1, 0, [Spanned(IntLiteral(7), Span(2, 3, ctx))], 3);
    DigitStep(s, ctx, 0, 0, [Spanned(IntLiteral(0), Span(1, 2, ctx)), Spanned(IntLiteral(7), Span(2, 3, ctx))], 3);
  }

  /** A digit read as an integer of its own: a `0` never takes more digits, nor does a digit followed by none. */
  lemma DigitStep(s: string, ctx: Context, a: nat, d: nat, rest: seq<Spanned>, q: nat)
    requires a < |s| && d <= 9 && s[a] == DigitChar(d)
    requires d == 0 || a + 1 == |s|
    requires a + 1 == |s| || (s[a + 1] != '.' && !IsWhitespace(s[a + 1]))
    requires LexAll(s, ctx, a + 1) == Repeated(rest, q)
    ensures LexAll(s, ctx, a) == Repeated([Spanned(IntLiteral(d as i64), Span(a, a + 1, ctx))] + rest, q)
  {
    OneDigit(s, ctx, a, d);
    Step(s, ctx, a, a, IntLiteral(d as i64), a + 1, a + 1);
  }

  /** A single digit that no further digit and no fraction follows is an integer token. */
  lemma OneDigit(s: string, ctx: Context, a: nat, d: nat)
    requires a < |s| && d <= 9 && s[a] == DigitChar(d)
    requires d == 0 || a + 1 == |s| || !IsDigit(s[a + 1])
    requires a + 1 == |s| || !HasFraction(s, a + 1)
    ensures Dispatch(s, ctx, a) == Ok(IntLiteral(d as i64), a + 1)
  {
    assert DecimalText(d) == [DigitChar(d)];
    assert s[a..a + 1] == [s[a]];
    DispatchInt(s, ctx, a, d);
  }

  /** A token dispatched at `a` after the padding from `p`, with its own padding ending at `n`, is one padded token. */
  lemma PaddedToken(s: string, ctx: Context, p: nat, a: nat, tok: Token, b: nat, n: nat)
    requires p <= a <= |s| && PaddingTo(s, p, a) && Dispatch(s, ctx, a) == Ok(tok, b)
    requires b <= n <= |s| && PaddingTo(s, b, n)
    ensures LexSingle(s, ctx, p) == Ok(Spanned(tok, Span(a, b, ctx)), n)
  {
    SkipWhitespaceUnique(s, p, a);
    SkipWhitespaceUnique(s, b, n);
  }

  /** `1.` is an integer and a dot: a fraction needs a digit after the point. */
  lemma LexIntThenDot(s: string, ctx: Context)
    requires s == "1."
    ensures Lex(s, ctx) == Repeated([
              Spanned(IntLiteral(1), Span(0, 1, ctx)),
              Spanned(ControlChar('.'), Span(1, 2, ctx))], 2)
  {
    assert |s| == 2 && s[0] == '1' && s[1] == '.';
    OneDigit(s, ctx, 0, 1);
    LexWhitespaceOnly(s, ctx, 2);
    CtrlStep(s, ctx, 1, 1, 2, [], 2);
    Step(s, ctx, 0, 0, IntLiteral(1), 1, 1);
  }

  /** An input that is one format string, whose body holds `items` up to the closing quote at `q`. */
  lemma LexFmtOnly(s: string, ctx: Context, items: seq<FmtStringContents>, q: nat)
    requires 2 <= q && |s| == q + 1 && s[0] == 'f' && s[1] == '"' && s[q] == '"'
    requires FmtItems(s, ctx, 2) == Repeated(items, q)
    ensures Lex(s, ctx) == Repeated([Spanned(FormatStringLiteral(items), Span(0, q + 1, ctx))], q + 1)
  {
    assert s[0..2] == "f\"";
    FmtStringOfItems(s, ctx, 0, items, q);
    NotStartsWithAt(s, 0, "go", 0);
    LexWhitespaceOnly(s, ctx, q + 1);
    Step(s, ctx, 0, 0, FormatStringLiteral(items), q + 1, q + 1);
  }

  /** `f"{1}"`: the section's synthetic braces are stripped, leaving the one token. */
  lemma LexFmtSection(s: string, ctx: Context)
    requires s == "f\"{1}\""
    ensures Lex(s, ctx) == Repeated([
              Spanned(FormatStringLiteral([Tokens([Spanned(IntLiteral(1), Span(3, 4, ctx))])]), Span(0, 6, ctx))], 6)
  {
    assert |s| == 6 && s[0] == 'f' && s[1] == '"' && s[2] == '{' && s[3] == '1' && s[4] == '}' && s[5] == '"';
    var t := Spanned(IntLiteral(1), Span(3, 4, ctx));
    OneDigit(s, ctx, 3, 1);
    PaddedToken(s, ctx, 3, 3, IntLiteral(1), 4, 4);
    FmtGroupOfToken(s, ctx, 2, t, 4);
    FmtItemsSectionCons(s, ctx, 2);
    FmtItemsStop(s, ctx, 5);
    assert Wrap([t])[1..2] == [t];
    LexFmtOnly(s, ctx, [Tokens([t])], 5);
  }

  /** `f"{{{1}}}"`: the inner sections keep their synthetic braces; only the outermost pair is stripped. */
  lemma LexFmtNested(s: string, ctx: Context)
    requires s == "f\"{{{1}}}\""
    ensures Lex(s, ctx) == Repeated([
              Spanned(FormatStringLiteral([Tokens([
                Spanned(ControlChar('{'), EmptyRange), Spanned(ControlChar('{'), EmptyRange),
                Spanned(IntLiteral(1), Span(5, 6, ctx)),
                Spanned(ControlChar('}'), EmptyRange), Spanned(ControlChar('}'), EmptyRange)])]), Span(0, 10, ctx))], 10)
  {
    NestedLayout(s);
    var inner := NestedSections(s, ctx);
    FmtItemsSectionCons(s, ctx, 2);
    FmtItemsStop(s, ctx, 9);
    LexFmtOnly(s, ctx, [Tokens(inner)], 9);
  }

  /** Three nested sections around `1` at offset 5: each inner level keeps its synthetic braces. */
  lemma NestedSections(s: string, ctx: Context) returns (inner: seq<Spanned>)
    requires |s| == 10 && s[2] == '{' && s[3] == '{' && s[4] == '{' && s[5] == '1'
    requires s[6] == '}' && s[7] == '}' && s[8] == '}' && s[9] == '"'
    ensures FmtGroup(s, ctx, 2).Ok? && FmtGroup(s, ctx, 2).next == 9
    ensures var g := FmtGroup(s, ctx, 2).value; g[1..|g| - 1] == inner
    ensures inner == [OpenBrace, OpenBrace, Spanned(IntLiteral(1), Span(5, 6, ctx)), CloseBrace, CloseBrace]
  {
    var t := Spanned(IntLiteral(1), Span(5, 6, ctx));
    OneDigit(s, ctx, 5, 1);
    PaddedToken(s, ctx, 5, 5, IntLiteral(1), 6, 6);
    FmtGroupOfToken(s, ctx, 4, t, 6);
    FmtGroupOfGroup(s, ctx, 3, Wrap([t]), 7);
    FmtGroupOfGroup(s, ctx, 2, Wrap(Wrap([t])), 8);
    var g := Wrap(Wrap(Wrap([t])));
    inner := [OpenBrace, OpenBrace, t, CloseBrace, CloseBrace];
    assert g[1..|g| - 1] == inner;
  }

  lemma NestedLayout(s: string)
    requires s == "f\"{{{1}}}\""
    ensures |s| == 10 && s[0] == 'f' && s[1] == '"' && s[2] == '{' && s[3] == '{' && s[4] == '{' && s[5] == '1'
    ensures s[6] == '}' && s[7] == '}' && s[8] == '}' && s[9] == '"'
  {
  }

  /**
   * `f"{ {}}"`: after the space, the padded lexer reads `{` as a control
   * character and the section closes at the first `}`; the second `}` is a
   * literal character of the body.
   */
  lemma LexFmtPaddedBrace(s: string, ctx: Context)
    requires s == "f\"{ {}}\""
    ensures Lex(s, ctx) == Repeated([
              Spanned(FormatStringLiteral([Tokens([Spanned(ControlChar('{'), Span(4, 5, ctx))]), Char('}')]),
                      Span(0, 8, ctx))], 8)
  {
    assert |s| == 8 && s[0] == 'f' && s[1] == '"' && s[2] == '{' && s[3] == ' ' && s[4] == '{';
    assert s[5] == '}' && s[6] == '}' && s[7] == '"';
    var c := Spanned(ControlChar('{'), Span(4, 5, ctx));
    NoOperator(s, 4);
    DispatchControlChar(s, ctx, 4, '{', 5);
    PaddedToken(s, ctx, 3, 4, ControlChar('{'), 5, 5);
    FmtGroupOfToken(s, ctx, 2, c, 5);
    FmtItemsSectionCons(s, ctx, 2);
    assert FmtGroup(s, ctx, 6).Fail?;
    FmtItemsCharCons(s, ctx, 6, '}', 7);
    FmtItemsStop(s, ctx, 7);
    assert Wrap([c])[1..2] == [c];
    LexFmtOnly(s, ctx, [Tokens([c]), Char('}')], 7);
  }


  /** An escaped newline in a character literal. */
  lemma LexCharEscape(s: string, ctx: Context)
    requires s == "'\\n'"
    ensures Lex(s, ctx) == Repeated([Spanned(CharLiteral('\n'), Span(0, 4, ctx))], 4)
  {
    assert QuotedChar('\n') == s;
    DispatchChar(s, ctx, 0, '\n');
    LexWhitespaceOnly(s, ctx, 4);
  }

  /** Inline Go keeps the text between its outer braces verbatim, nested braces and spaces included. */
  lemma LexInlineGo(s: string, ctx: Context)
    requires s == "go { {} }"
    ensures Lex(s, ctx) == Repeated([Spanned(InlineGo(" {} "), Span(0, 9, ctx))], 9)
  {
    var g := NestedBlock();
    SkipWhitespaceUnique(s, 2, 3);
    assert s[3..9] == g;
    DispatchInlineGo(s, ctx, 0, g);
    LexWhitespaceOnly(s, ctx, 9);
  }

  /** `{ {} }` is a balanced block whose inside is ` {} `. */
  lemma NestedBlock() returns (g: string)
    ensures g == "{ {} }" && IsBlock(g) && g[1..|g| - 1] == " {} "
  {
    NonBraceIsLevel(' ');
    assert Depth("") == 0;
    assert PrefixDepth("", 0) == 0;
    BlockOfLevel("");
    assert "{" + "" + "}" == "{}";
    BlockIsLevel("{}");
    LevelConcat(" ", "{}");
    assert " " + "{}" == " {}";
    LevelConcat(" {}", " ");
    assert " {}" + " " == " {} ";
    BlockOfLevel(" {} ");
    g := "{" + " {} " + "}";
    assert g == "{ {} }";
  }

  /**
   * An unterminated `f"`: the format-string alternative fails, so the `f`
   * is an identifier, and the lone `"` that follows stops the lexer.
   */
  lemma LexUnterminatedFmt(s: string, ctx: Context)
    requires s == "f\""
    ensures Lex(s, ctx) == Repeated([Spanned(Ident("f"), Span(0, 1, ctx))], 1)
  {
    assert |s| == 2 && s[0] == 'f' && s[1] == '"';
    UnterminatedFmtIsIdent(s, ctx);
    LoneQuoteFails(s, ctx);
    Stop(s, ctx, 1, 1);
    Step(s, ctx, 0, 0, Ident("f"), 1, 1);
  }

  /** `f"` and nothing after it: no format string, so `f` is read as an identifier. */
  lemma UnterminatedFmtIsIdent(s: string, ctx: Context)
    requires |s| == 2 && s[0] == 'f' && s[1] == '"'
    ensures Dispatch(s, ctx, 0) == Ok(Ident("f"), 1)
  {
    assert FmtItems(s, ctx, 2) == Repeated([], 2);
    assert FmtString(s, ctx, 0).Fail?;
    NotStartsWithAt(s, 0, "go", 1);
    NotStartsWithAt(s, 0, "true", 0);
    NotStartsWithAt(s, 0, "false", 1);
    IdentRunEndUnique(s, 0, 1);
    assert s[0..1] == "f";
    DispatchWord(s, ctx, 0);
    assert ClassifyWord("f") == Ident("f");
  }

  /** A `"` with no closing quote after it starts no token. */
  lemma LoneQuoteFails(s: string, ctx: Context)
    requires |s| == 2 && s[1] == '"'
    ensures Dispatch(s, ctx, 1).Fail?
  {
    StringLexerNeedsClosingQuote(s, 1);
    NotStartsWithAt(s, 1, "go", 0);
    NotStartsWithAt(s, 1, "f\"", 0);
    DispatchIsSimple(s, ctx, 1);
  }

  /** Whitespace alone lexes to nothing, and the lexer stops before it. */
  lemma LexOnlyWhitespace(s: string, ctx: Context)
    requires s == "  \n"
    ensures Lex(s, ctx) == Repeated([], 0)
  {
    LexWhitespaceOnly(s, ctx, 0);
  }

  /** An integer too large for 64 bits stops the lexer where the number starts. */
  lemma LexIntegerOverflow(s: string, ctx: Context)
    requires s == "9223372036854775808"
    ensures Lex(s, ctx) == Repeated([], 0)
  {
    OverflowText(9223372036854775808);
    OverflowStops(s, ctx, 9223372036854775808);
  }

  /** The decimal text of any value beyond the 64-bit range lexes to nothing. */
  lemma OverflowStops(s: string, ctx: Context, v: nat)
    requires v > I64Max && s == DecimalText(v)
    ensures Lex(s, ctx) == Repeated([], 0)
  {
    assert StartsWith(s, 0, DecimalText(v));
    DispatchInt(s, ctx, 0, v);
    Stop(s, ctx, 0, 0);
  }

  /** Where the token after the padding fails, the stream ends before the padding. */
  lemma Stop(s: string, ctx: Context, p: nat, a: nat)
    requires p <= a <= |s| && PaddingTo(s, p, a) && Dispatch(s, ctx, a).Fail?
    ensures LexAll(s, ctx, p) == Repeated([], p)
  {
    SkipWhitespaceUnique(s, p, a);
  }

  /** The decimal text of 2^63, one digit at a time. */
  lemma OverflowText(v: nat)
    requires v == 9223372036854775808
    ensures DecimalText(v) == "9223372036854775808"
  {
    assert DecimalText(9) == "9";
    assert DecimalText(92) == "92";
    assert DecimalText(922) == "922";
    assert DecimalText(9223) == "9223";
    assert DecimalText(92233) == "92233";
    assert DecimalText(922337) == "922337";
    assert DecimalText(9223372) == "9223372";
    assert DecimalText(92233720) == "92233720";
    assert DecimalText(922337203) == "922337203";
    assert DecimalText(9223372036) == "9223372036";
    assert DecimalText(92233720368) == "92233720368";
    assert DecimalText(922337203685) == "922337203685";
    assert DecimalText(9223372036854) == "9223372036854";
    assert DecimalText(92233720368547) == "92233720368547";
    assert DecimalText(922337203685477) == "922337203685477";
    assert DecimalText(9223372036854775) == "9223372036854775";
    assert DecimalText(92233720368547758) == "92233720368547758";
    assert DecimalText(922337203685477580) == "922337203685477580";
  }
}
