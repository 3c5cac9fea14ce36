/**
 * The primitive literal lexers: string literals, character literals and
 * numeric literals, with the escape encodings they decode.
 */
module Literals {
  import opened TokenModel
  import opened Scan

  /**
   * The character an escape `\e` stands for inside a literal delimited by
   * `quote`; format strings (`braces`) also accept `\{`.
   */
  function Unescape(e: char, quote: char, braces: bool): (r: Option<char>)
    ensures IsQuote(quote) && r.Some? ==> Escape(r.value, quote, braces) == ['\\', e]
  {
    if e == '\\' then Some('\\')
    else if braces && e == '{' then Some('{')
    else if e == 'n' then Some('\n')
    else if e == 't' then Some('\t')
    else if e == quote then Some(quote)
    else None
  }

  /**
   * One character of a literal body: any character but backslash, newline,
   * tab and the closing quote, or one of the escapes.
   */
  function LiteralChar(s: string, i: nat, quote: char, braces: bool): (r: Option<(char, nat)>)
    requires i <= |s|
    ensures r.Some? ==> i < r.value.1 <= |s|
  {
    if i < |s| && s[i] != '\\' && s[i] != '\n' && s[i] != '\t' && s[i] != quote then
      Some((s[i], i + 1))
    else if i + 1 < |s| && s[i] == '\\' && Unescape(s[i + 1], quote, braces).Some? then
      Some((Unescape(s[i + 1], quote, braces).value, i + 2))
    else
      None
  }

  /** The delimiter characters of the literals this module lexes. */
  predicate IsQuote(quote: char) {
    quote == '"' || quote == '\''
  }

  /** How a character is written inside a literal delimited by `quote`. */
  function Escape(c: char, quote: char, braces: bool): (r: string)
    ensures |r| == 1 || (|r| == 2 && r[0] == '\\')
    ensures |r| == 1 ==> r == [c] && c != '\\' && c != '\n' && c != '\t' && c != quote
    ensures '\n' !in r && '\t' !in r
  {
    if c == '\\' then "\\\\"
    else if c == '\n' then "\\n"
    else if c == '\t' then "\\t"
    else if c == quote then ['\\', quote]
    else if braces && c == '{' then "\\{"
    else [c]
  }

  /** How a text is written inside a literal delimited by `quote`. */
  function EscapeAll(t: string, quote: char, braces: bool): (r: string)
    ensures |t| <= |r| <= 2 * |t|
  {
    if t == [] then [] else Escape(t[0], quote, braces) + EscapeAll(t[1..], quote, braces)
  }

  /** Every character reads back from its own escape, whatever follows it. */
  lemma LiteralCharReadsEscape(s: string, i: nat, c: char, quote: char, braces: bool)
    requires IsQuote(quote)
    requires StartsWith(s, i, Escape(c, quote, braces))
    ensures LiteralChar(s, i, quote, braces) == Some((c, i + |Escape(c, quote, braces)|))
  {
    var e := Escape(c, quote, braces);
    assert s[i] == e[0];
    if |e| == 2 {
      assert s[i + 1] == e[1];
    }
  }

  /** Outside format strings, a body character is read exactly from its escape. */
  lemma LiteralCharIsEscape(s: string, i: nat, quote: char)
    requires IsQuote(quote) && i <= |s|
    requires LiteralChar(s, i, quote, false).Some?
    ensures var (c, k) := LiteralChar(s, i, quote, false).value;
            s[i..k] == Escape(c, quote, false)
  {
  }

  /** The repeated body of a string or character literal. */
  function LiteralBody(s: string, i: nat, quote: char): (r: Repeated<char>)
    requires i <= |s|
    ensures i <= r.next <= |s|
    decreases |s| - i
  {
    match LiteralChar(s, i, quote, false)
    case Some((c, k)) =>
      var rest := LiteralBody(s, k, quote);
      Repeated([c] + rest.items, rest.next)
    case None => Repeated([], i)
  }

  /** The body reads exactly the escapes of what it returns, and stops at a character that cannot start one. */
  lemma {:induction false} LiteralBodyIsEscaped(s: string, i: nat, quote: char)
    requires IsQuote(quote) && i <= |s|
    ensures var r := LiteralBody(s, i, quote);
            s[i..r.next] == EscapeAll(r.items, quote, false) &&
            LiteralChar(s, r.next, quote, false).None?
    decreases |s| - i
  {
    match LiteralChar(s, i, quote, false)
    case Some((c, k)) =>
      var rest := LiteralBody(s, k, quote);
      LiteralBodyCons(s, i, quote, c, k);
      LiteralCharIsEscape(s, i, quote);
      LiteralBodyIsEscaped(s, k, quote);
      EscapeAllCons(c, rest.items, quote, false);
      SliceSplit(s, i, k, rest.next);
    case None =>
      assert s[i..i] == [];
  }

  /** A body that reads a character goes on after it. */
  lemma LiteralBodyCons(s: string, i: nat, quote: char, c: char, k: nat)
    requires i <= |s| && LiteralChar(s, i, quote, false) == Some((c, k))
    ensures LiteralBody(s, i, quote) ==
            Repeated([c] + LiteralBody(s, k, quote).items, LiteralBody(s, k, quote).next)
  {
  }

  lemma EscapeAllCons(c: char, rest: string, quote: char, braces: bool)
    ensures EscapeAll([c] + rest, quote, braces) == Escape(c, quote, braces) + EscapeAll(rest, quote, braces)
  {
    assert ([c] + rest)[1..] == rest;
  }

  /** A closing quote cannot start a body character. */
  lemma QuoteEndsBody(s: string, i: nat, quote: char, braces: bool)
    requires IsQuote(quote) && i < |s| && s[i] == quote
    ensures LiteralChar(s, i, quote, braces).None?
  {
  }

  /** The body reads back any text from its escaped form, up to the closing quote. */
  lemma {:induction false} LiteralBodyReadsEscaped(s: string, i: nat, t: string, quote: char)
    requires IsQuote(quote)
    requires StartsWith(s, i, EscapeAll(t, quote, false) + [quote])
    ensures LiteralBody(s, i, quote) == Repeated(t, i + |EscapeAll(t, quote, false)|)
    decreases t
  {
    if t == [] {
      StartsWithConcat(s, i, [], [quote]);
      StartsWithChar(s, i, quote);
      QuoteEndsBody(s, i, quote, false);
    } else {
      var k := i + |Escape(t[0], quote, false)|;
      EscapedHead(s, i, t, quote);
      LiteralBodyReadsEscaped(s, k, t[1..], quote);
      LiteralBodyCons(s, i, quote, t[0], k);
      assert [t[0]] + t[1..] == t;
    }
  }

  /** The first escape of an escaped text is read as its character, and the rest of the text follows it. */
  lemma EscapedHead(s: string, i: nat, t: string, quote: char)
    requires IsQuote(quote) && |t| >= 1
    requires StartsWith(s, i, EscapeAll(t, quote, false) + [quote])
    ensures var k: nat := i + |Escape(t[0], quote, false)|;
            LiteralChar(s, i, quote, false) == Some((t[0], k)) &&
            StartsWith(s, k, EscapeAll(t[1..], quote, false) + [quote]) &&
            |EscapeAll(t, quote, false)| == |Escape(t[0], quote, false)| + |EscapeAll(t[1..], quote, false)|
  {
    var head := Escape(t[0], quote, false);
    var tail := EscapeAll(t[1..], quote, false);
    assert EscapeAll(t, quote, false) + [quote] == head + (tail + [quote]);
    StartsWithConcat(s, i, head, tail + [quote]);
    LiteralCharReadsEscape(s, i, t[0], quote, false);
  }

  /** The text of a string literal whose decoded value is `t`. */
  function QuotedString(t: string): string {
    ['"'] + EscapeAll(t, '"', false) + ['"']
  }

  /** `string_lexer`: a `"`-delimited literal with the escapes `\\`, `\n`, `\t` and `\"`. */
  function StringLexer(s: string, p: nat): (r: Lexed<Token>)
    requires p <= |s|
    ensures r.Ok? ==> r.value.StringLiteral? && p + 2 <= r.next <= |s|
    ensures r.Ok? ==> s[p] == '"' && s[r.next - 1] == '"'
  {
    if p < |s| && s[p] == '"' then
      var body := LiteralBody(s, p + 1, '"');
      if body.next < |s| && s[body.next] == '"' then Ok(StringLiteral(body.items), body.next + 1)
      else Fail(NoMatch)
    else
      Fail(NoMatch)
  }

  /**
   * The string lexer accepts exactly the encodings of texts: what it consumes
   * is the quoted encoding of the text it returns, and every quoted encoding
   * is read back as its text.
   */
  lemma StringLexerDecodes(s: string, p: nat)
    requires p <= |s|
    requires StringLexer(s, p).Ok?
    ensures s[p..StringLexer(s, p).next] == QuotedString(StringLexer(s, p).value.text)
  {
    var body := LiteralBody(s, p + 1, '"');
    assert StringLexer(s, p) == Ok(StringLiteral(body.items), body.next + 1);
    LiteralBodyIsEscaped(s, p + 1, '"');
    SliceEnds(s, p, body.next);
  }

  lemma StringLexerReadsQuoted(s: string, p: nat, t: string)
    requires StartsWith(s, p, QuotedString(t))
    ensures StringLexer(s, p) == Ok(StringLiteral(t), p + |QuotedString(t)|)
  {
    var e := EscapeAll(t, '"', false);
    assert QuotedString(t) == ['"'] + (e + ['"']);
    StartsWithConcat(s, p, ['"'], e + ['"']);
    StartsWithChar(s, p, '"');
    LiteralBodyReadsEscaped(s, p + 1, t, '"');
    StartsWithConcat(s, p + 1, e, ['"']);
    StartsWithChar(s, p + 1 + |e|, '"');
    StringLexerOnBody(s, p, t, p + 1 + |e|);
  }

  /** The string lexer's last step: a body read up to a closing quote. */
  lemma StringLexerOnBody(s: string, p: nat, t: string, k: nat)
    requires p < k < |s| && s[p] == '"' && s[k] == '"'
    requires LiteralBody(s, p + 1, '"') == Repeated(t, k)
    ensures StringLexer(s, p) == Ok(StringLiteral(t), k + 1)
  {
  }

  /** An escaped text never holds a raw newline or tab. */
  lemma {:induction false} EscapeAllHasNoRawControl(t: string, quote: char, braces: bool)
    ensures forall k :: 0 <= k < |EscapeAll(t, quote, braces)| ==>
              EscapeAll(t, quote, braces)[k] != '\n' && EscapeAll(t, quote, braces)[k] != '\t'
  {
    if t != [] {
      EscapeAllHasNoRawControl(t[1..], quote, braces);
    }
  }

  /**
   * A string literal needs its closing quote and cannot span a raw newline
   * or tab: the lexer fails when the text from `p` holds no further quote,
   * and what it consumes contains neither.
   */
  lemma StringLexerNeedsClosingQuote(s: string, p: nat)
    requires p < |s| && s[p] == '"'
    requires forall k :: p < k < |s| ==> s[k] != '"'
    ensures StringLexer(s, p).Fail?
  {
  }

  lemma StringLexerRejectsRawControl(s: string, p: nat)
    requires p <= |s| && StringLexer(s, p).Ok?
    ensures forall k :: p <= k < StringLexer(s, p).next ==> s[k] != '\n' && s[k] != '\t'
  {
    var n := StringLexer(s, p).next;
    var t := StringLexer(s, p).value.text;
    StringLexerDecodes(s, p);
    EscapeAllHasNoRawControl(t, '"', false);
    forall k | p <= k < n
      ensures s[k] != '\n' && s[k] != '\t'
    {
      assert s[k] == QuotedString(t)[k - p];
    }
  }

  /** The text of a character literal whose decoded value is `c`. */
  function QuotedChar(c: char): string {
    ['\''] + Escape(c, '\'', false) + ['\'']
  }

  /** `char_lexer`: exactly one character or one of the escapes `\\`, `\n`, `\t`, `\'` between single quotes. */
  function CharLexer(s: string, p: nat): (r: Lexed<Token>)
    requires p <= |s|
    ensures r.Ok? ==> r.value.CharLiteral? && p + 3 <= r.next <= |s|
    ensures r.Ok? ==> s[p] == '\'' && s[r.next - 1] == '\''
  {
    if p < |s| && s[p] == '\'' then
      match LiteralChar(s, p + 1, '\'', false)
      case Some((c, k)) =>
        if k < |s| && s[k] == '\'' then Ok(CharLiteral(c), k + 1) else Fail(NoMatch)
      case None => Fail(NoMatch)
    else
      Fail(NoMatch)
  }

  /** The character lexer succeeds exactly on the quoted encodings of characters, and decodes them. */
  lemma CharLexerExact(s: string, p: nat, c: char)
    requires p <= |s|
    ensures CharLexer(s, p) == Ok(CharLiteral(c), p + |QuotedChar(c)|) <==> StartsWith(s, p, QuotedChar(c))
  {
    if StartsWith(s, p, QuotedChar(c)) {
      CharLexerReadsQuoted(s, p, c);
    }
    if CharLexer(s, p) == Ok(CharLiteral(c), p + |QuotedChar(c)|) {
      CharLexerIsQuoted(s, p, c);
    }
  }

  lemma CharLexerReadsQuoted(s: string, p: nat, c: char)
    requires StartsWith(s, p, QuotedChar(c))
    ensures CharLexer(s, p) == Ok(CharLiteral(c), p + |QuotedChar(c)|)
  {
    var e := Escape(c, '\'', false);
    assert QuotedChar(c) == ['\''] + (e + ['\'']);
    StartsWithConcat(s, p, ['\''], e + ['\'']);
    StartsWithConcat(s, p + 1, e, ['\'']);
    StartsWithChar(s, p, '\'');
    StartsWithChar(s, p + 1 + |e|, '\'');
    LiteralCharReadsEscape(s, p + 1, c, '\'', false);
  }

  lemma CharLexerIsQuoted(s: string, p: nat, c: char)
    requires p <= |s| && CharLexer(s, p) == Ok(CharLiteral(c), p + |QuotedChar(c)|)
    ensures StartsWith(s, p, QuotedChar(c))
  {
    var k := LiteralChar(s, p + 1, '\'', false).value.1;
    assert LiteralChar(s, p + 1, '\'', false) == Some((c, k));
    LiteralCharIsEscape(s, p + 1, '\'');
    SliceEnds(s, p, k);
  }

  /** `text::int(10)`: a non-zero digit followed by digits, or a single `0`; returns the run's end. */
  function IntRunEnd(s: string, p: nat): (r: Option<nat>)
    requires p <= |s|
    ensures r.Some? ==> p < r.value <= |s| && forall k :: p <= k < r.value ==> IsDigit(s[k])
    ensures r.Some? ==> s[p] != '0' || r.value == p + 1
    ensures r.None? <==> p == |s| || !IsDigit(s[p])
  {
    if p < |s| && '1' <= s[p] <= '9' then Some(DigitRunEnd(s, p + 1))
    else if p < |s| && s[p] == '0' then Some(p + 1)
    else None
  }

  /** Whether a fractional part `.digits` starts at `e`. */
  predicate HasFraction(s: string, e: nat) {
    e + 1 < |s| && s[e] == '.' && IsDigit(s[e + 1])
  }

  /**
   * `num_literal`: an integer run, parsed as a 64-bit integer (a run that
   * does not fit fails with an invalid-integer error), then an optional
   * fraction `.digits` that turns it into a float.
   */
  function NumLiteral(s: string, p: nat): (r: Lexed<Token>)
    requires p <= |s|
    ensures r.Ok? ==> p < r.next <= |s| && IsDigit(s[p]) && IsDigit(s[r.next - 1])
    ensures r.Ok? ==> r.value.IntLiteral? || r.value.FloatLiteral?
    ensures r.Fail? && r.error.InvalidInteger? ==> r.error.start == p
  {
    match IntRunEnd(s, p)
    case None => Fail(NoMatch)
    case Some(e) =>
      var v := DigitsValue(s[p..e]);
      if v > I64Max then Fail(InvalidInteger(p, e))
      else if HasFraction(s, e) then
        var f := DigitRunEnd(s, e + 1);
        Ok(FloatLiteral(v as i64, s[e + 1..f]), f)
      else
        Ok(IntLiteral(v as i64), e)
  }

  function DigitChar(d: nat): (c: char)
    requires d < 10
    ensures IsDigit(c) && DigitValue(c) == d
  {
    ('0' as int + d) as char
  }

  /** The canonical decimal text of a natural number: no leading zero unless it is `0` itself. */
  function DecimalText(v: nat): (t: string)
    ensures |t| >= 1 && forall k :: 0 <= k < |t| ==> IsDigit(t[k])
    ensures t[0] == '0' ==> v == 0
  {
    if v < 10 then [DigitChar(v)] else DecimalText(v / 10) + [DigitChar(v % 10)]
  }

  /** Reading a canonical decimal text gives back its number. */
  lemma {:induction false} DecimalTextValue(v: nat)
    ensures DigitsValue(DecimalText(v)) == v
  {
    if v >= 10 {
      DecimalTextValue(v / 10);
      var t := DecimalText(v);
      assert t[..|t| - 1] == DecimalText(v / 10);
    }
  }

  /** A digit run that starts with a non-zero digit has a positive value. */
  lemma {:induction false} LeadingDigitPositive(ds: string)
    requires |ds| >= 1 && forall k :: 0 <= k < |ds| ==> IsDigit(ds[k])
    requires ds[0] != '0'
    ensures DigitsValue(ds) >= 1
  {
    if |ds| > 1 {
      LeadingDigitPositive(ds[..|ds| - 1]);
    }
  }

  /** Every digit run the integer rule accepts is the canonical text of its value. */
  lemma {:induction false} CanonicalDigitsAreDecimalText(ds: string)
    requires |ds| >= 1 && forall k :: 0 <= k < |ds| ==> IsDigit(ds[k])
    requires ds[0] != '0' || |ds| == 1
    ensures DecimalText(DigitsValue(ds)) == ds
  {
    var init := ds[..|ds| - 1];
    if |ds| > 1 {
      CanonicalDigitsAreDecimalText(init);
      LeadingDigitPositive(init);
      var v := DigitsValue(ds);
      assert v / 10 == DigitsValue(init) && v % 10 == DigitValue(ds[|ds| - 1]);
      assert ds == init + [ds[|ds| - 1]];
    }
  }

  /** Whether no further digit follows position `e`. */
  predicate DigitsEndAt(s: string, e: nat)
    requires e <= |s|
  {
    e == |s| || !IsDigit(s[e])
  }

  /**
   * Integer literals: the lexer reads an integer exactly when the input holds
   * the canonical decimal text of a value in range with no fraction after it,
   * and an out-of-range value fails with an invalid-integer error. A `0` is
   * read alone even when digits follow it.
   */
  lemma NumLiteralReadsInt(s: string, p: nat, v: nat)
    requires StartsWith(s, p, DecimalText(v))
    requires v == 0 || DigitsEndAt(s, p + |DecimalText(v)|)
    requires v <= I64Max ==> !HasFraction(s, p + |DecimalText(v)|)
    ensures v <= I64Max ==> NumLiteral(s, p) == Ok(IntLiteral(v as i64), p + |DecimalText(v)|)
    ensures v > I64Max ==> NumLiteral(s, p) == Fail(InvalidInteger(p, p + |DecimalText(v)|))
  {
    var t := DecimalText(v);
    DecimalTextIsIntRun(s, p, v);
    DecimalTextValue(v);
  }

  /** The integer rule stops exactly after the canonical text of a number when no further digit follows, and after a `0` in any case. */
  lemma DecimalTextIsIntRun(s: string, p: nat, v: nat)
    requires StartsWith(s, p, DecimalText(v))
    requires v == 0 || DigitsEndAt(s, p + |DecimalText(v)|)
    ensures IntRunEnd(s, p) == Some(p + |DecimalText(v)|)
  {
    var t := DecimalText(v);
    assert forall k :: p <= k < p + |t| ==> s[k] == t[k - p];
    if t[0] != '0' {
      DigitRunEndUnique(s, p + 1, p + |t|);
    } else {
      assert |t| == 1;
    }
  }

  /** A digit string found at `i` and not followed by a digit is the digit run at `i`. */
  lemma DigitsAreDigitRun(s: string, i: nat, f: string)
    requires forall k :: 0 <= k < |f| ==> IsDigit(f[k])
    requires StartsWith(s, i, f) && DigitsEndAt(s, i + |f|)
    ensures DigitRunEnd(s, i) == i + |f|
  {
    assert forall k :: i <= k < i + |f| ==> s[k] == f[k - i];
    DigitRunEndUnique(s, i, i + |f|);
  }

  /** The float branch of the number rule, once the integer run and the fraction run are known. */
  lemma NumLiteralFloatRuns(s: string, p: nat, e: nat, f: nat, v: nat, frac: string)
    requires p < e < |s| && IntRunEnd(s, p) == Some(e) && v <= I64Max
    requires DigitsValue(s[p..e]) == v && HasFraction(s, e) && DigitRunEnd(s, e + 1) == f
    requires s[e + 1..f] == frac
    ensures NumLiteral(s, p) == Ok(FloatLiteral(v as i64, frac), f)
  {
  }

  /** Float literals, with the integer text, the point and the fraction located separately. */
  lemma NumLiteralReadsFloatParts(s: string, p: nat, e: nat, v: nat, f: string)
    requires v <= I64Max && e == p + |DecimalText(v)|
    requires |f| >= 1 && forall k :: 0 <= k < |f| ==> IsDigit(f[k])
    requires StartsWith(s, p, DecimalText(v))
    requires e < |s| && s[e] == '.'
    requires StartsWith(s, e + 1, f)
    requires DigitsEndAt(s, e + 1 + |f|)
    ensures NumLiteral(s, p) == Ok(FloatLiteral(v as i64, f), e + 1 + |f|)
  {
    DecimalTextIsIntRun(s, p, v);
    DecimalTextValue(v);
    DigitsAreDigitRun(s, e + 1, f);
    assert HasFraction(s, e) by {
      assert s[e + 1..e + 1 + |f|][0] == s[e + 1];
    }
    NumLiteralFloatRuns(s, p, e, e + 1 + |f|, v, f);
  }

  /** Float literals: the canonical text of the integer part, a point and a digit run read back as both parts. */
  lemma NumLiteralReadsFloat(s: string, p: nat, v: nat, f: string)
    requires v <= I64Max
    requires |f| >= 1 && forall k :: 0 <= k < |f| ==> IsDigit(f[k])
    requires StartsWith(s, p, DecimalText(v) + ['.'] + f)
    requires DigitsEndAt(s, p + |DecimalText(v)| + 1 + |f|)
    ensures NumLiteral(s, p) == Ok(FloatLiteral(v as i64, f), p + |DecimalText(v)| + 1 + |f|)
  {
    var t := DecimalText(v);
    StartsWithConcat(s, p, t + ['.'], f);
    StartsWithConcat(s, p, t, ['.']);
    StartsWithChar(s, p + |t|, '.');
    NumLiteralReadsFloatParts(s, p, p + |t|, v, f);
  }

  /**
   * Conversely, what the number lexer consumes for an integer literal is
   * the canonical text of its value, with no fraction after it.
   */
  lemma NumLiteralIntIsDecimalText(s: string, p: nat)
    requires p <= |s| && NumLiteral(s, p).Ok? && NumLiteral(s, p).value.IntLiteral?
    ensures var r := NumLiteral(s, p);
            r.value.value >= 0 &&
            s[p..r.next] == DecimalText(r.value.value as nat) && !HasFraction(s, r.next)
  {
    var e := IntRunEnd(s, p).value;
    CanonicalDigitsAreDecimalText(s[p..e]);
  }
}
