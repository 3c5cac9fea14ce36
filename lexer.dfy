/**
 * The tokenizer proper: the single-token dispatcher, which tries eleven
 * alternatives in a fixed order, the format-string lexer, which lexes every
 * `{...}` section with the whole dispatcher, and the top-level repetition.
 *
 * Each parser is a function of the input, a position and the file context,
 * returning the value and the position after it. `or` takes the first
 * alternative that succeeds; a repetition collects items until one fails and
 * then stops where that item started; padding skips whitespace on both sides.
 * Every alternative consumes at least one character, so the distance to the
 * end of the input bounds the mutual recursion.
 */
module Lexer {
  import opened TokenModel
  import opened Scan
  import opened Literals
  import opened InlineGo

  /** The characters that lex as single control-character tokens. */
  const ControlChars: set<char> :=
    {'!', '=', ':', '{', '}', ';', ',', '&', '(', ')', '-', '>', '.', '+', '*', '/', '%', '|', '[', ']'}

  /** The synthetic brace tokens a format-string section is wrapped in; they carry the sentinel span. */
  const OpenBrace: Spanned := Spanned(ControlChar('{'), EmptyRange)
  const CloseBrace: Spanned := Spanned(ControlChar('}'), EmptyRange)

  /** `just(lit).to(t)`: the fixed text `lit` yields `t`. */
  function Exact(s: string, p: nat, lit: string, t: Token): (r: Lexed<Token>)
    requires p <= |s| && |lit| >= 1
    ensures r.Ok? <==> StartsWith(s, p, lit)
    ensures r.Ok? ==> r == Ok(t, p + |lit|)
  {
    if StartsWith(s, p, lit) then Ok(t, p + |lit|) else Fail(NoMatch)
  }

  /** The boolean literals, matched as text: `trueX` yields `true` and leaves `X`. */
  function BoolLexer(s: string, p: nat): (r: Lexed<Token>)
    requires p <= |s|
    ensures r.Ok? <==> StartsWith(s, p, "true") || StartsWith(s, p, "false")
    ensures r.Ok? ==> r == if StartsWith(s, p, "true") then Ok(BoolLiteral(true), p + 4)
                          else Ok(BoolLiteral(false), p + 5)
  {
    var t := Exact(s, p, "true", BoolLiteral(true));
    if t.Ok? then t else Exact(s, p, "false", BoolLiteral(false))
  }

  /** The maximal identifier run at `p`, classified as a whole against the keyword table. */
  function KeywordOrIdent(s: string, p: nat): (r: Lexed<Token>)
    requires p <= |s|
    ensures r.Ok? <==> p < |s| && IsIdentStart(s[p])
    ensures r.Ok? ==> r.next == IdentRunEnd(s, p) && r.value == ClassifyWord(s[p..r.next])
  {
    if p < |s| && IsIdentStart(s[p]) then
      var e := IdentRunEnd(s, p);
      Ok(ClassifyWord(s[p..e]), e)
    else
      Fail(NoMatch)
  }

  /** One character of the control-character set. */
  function ControlCharLexer(s: string, p: nat): (r: Lexed<Token>)
    requires p <= |s|
    ensures r.Ok? <==> p < |s| && s[p] in ControlChars
    ensures r.Ok? ==> r == Ok(ControlChar(s[p]), p + 1)
  {
    if p < |s| && s[p] in ControlChars then Ok(ControlChar(s[p]), p + 1) else Fail(NoMatch)
  }

  /** The concatenation of the token groups a section's repetition collected. */
  function Flatten(parts: seq<seq<Spanned>>): (r: seq<Spanned>)
    ensures forall i, k :: 0 <= i < |parts| && 0 <= k < |parts[i]| ==> parts[i][k] in r
    ensures forall t :: t in r ==> exists i :: 0 <= i < |parts| && t in parts[i]
  {
    if parts == [] then [] else parts[0] + Flatten(parts[1..])
  }

  /** A section's tokens between its two synthetic brace tokens. */
  function Wrap(inner: seq<Spanned>): (v: seq<Spanned>)
    ensures |v| == |inner| + 2 && v[0] == OpenBrace && v[|v| - 1] == CloseBrace
    ensures v[1..|v| - 1] == inner
  {
    [OpenBrace] + inner + [CloseBrace]
  }

  /** Flattening a list with one more group appends that group's tokens. */
  lemma {:induction false} FlattenSnoc(parts: seq<seq<Spanned>>, last: seq<Spanned>)
    ensures Flatten(parts + [last]) == Flatten(parts) + last
    decreases |parts|
  {
    if parts == [] {
      assert [] + [last] == [last];
      assert Flatten([last]) == last + Flatten([]);
    } else {
      assert (parts + [last])[1..] == parts[1..] + [last];
      FlattenSnoc(parts[1..], last);
    }
  }

  /**
   * The closure that builds a section's token list: push the synthetic `{`,
   * extend with each collected group in order, push the synthetic `}`.
   */
  method WrapGroup(parts: seq<seq<Spanned>>) returns (v: seq<Spanned>)
    ensures v == Wrap(Flatten(parts))
  {
    v := [OpenBrace];
    var i := 0;
    while i < |parts|
      invariant 0 <= i <= |parts|
      invariant v == [OpenBrace] + Flatten(parts[..i])
    {
      var part := parts[i];
      var j := 0;
      while j < |part|
        invariant 0 <= j <= |part|
        invariant v == [OpenBrace] + Flatten(parts[..i]) + part[..j]
      {
        v := v + [part[j]];
        assert part[..j + 1] == part[..j] + [part[j]];
        j := j + 1;
      }
      assert part[..j] == part;
      assert parts[..i + 1] == parts[..i] + [part];
      FlattenSnoc(parts[..i], part);
      i := i + 1;
    }
    assert parts[..i] == parts;
    v := v + [CloseBrace];
  }

  /** `lex_single`: skip whitespace, dispatch one token spanning what it consumed, skip whitespace. */
  function LexSingle(s: string, ctx: Context, p: nat): (r: Lexed<Spanned>)
    requires p <= |s|
    ensures r.Ok? ==> p < r.next <= |s|
    decreases |s| - p, 4
  {
    var a := SkipWhitespace(s, p);
    match Dispatch(s, ctx, a)
    case Ok(t, b) => Ok(Spanned(t, Span(a, b, ctx)), SkipWhitespace(s, b))
    case Fail(e) => Fail(e)
  }

  /**
   * The nine alternatives after inline Go and format strings, in their
   * fixed order; the first that succeeds wins. When all fail, the failure
   * is the number rule's invalid-integer error if it raised one.
   */
  function SimpleToken(s: string, p: nat): (r: Lexed<Token>)
    requires p <= |s|
    ensures r.Ok? ==> p < r.next <= |s|
  {
    var thinArrow := Exact(s, p, "->", ThinArrow);
    var scopeRes := Exact(s, p, "::", ScopeRes);
    var boolean := BoolLexer(s, p);
    var equals := Exact(s, p, "==", Equals);
    var word := KeywordOrIdent(s, p);
    var ctrl := ControlCharLexer(s, p);
    var str := StringLexer(s, p);
    var num := NumLiteral(s, p);
    var chr := CharLexer(s, p);
    if thinArrow.Ok? then thinArrow
    else if scopeRes.Ok? then scopeRes
    else if boolean.Ok? then boolean
    else if equals.Ok? then equals
    else if word.Ok? then word
    else if ctrl.Ok? then ctrl
    else if str.Ok? then str
    else if num.Ok? then num
    else if chr.Ok? then chr
    else if num.error.InvalidInteger? then num
    else Fail(NoMatch)
  }

  /** The eleven alternatives of a token in their fixed order: inline Go, format strings, then the rest. */
  function Dispatch(s: string, ctx: Context, p: nat): (r: Lexed<Token>)
    requires p <= |s|
    ensures r.Ok? ==> p < r.next <= |s|
    decreases |s| - p, 3
  {
    var inlineGo := InlineGoParser(s, p);
    if inlineGo.Ok? then inlineGo
    else
      var fmt := FmtString(s, ctx, p);
      if fmt.Ok? then fmt else SimpleToken(s, p)
  }

  /** `fmt_string`: `f"`, a repetition of sections and literal characters, and the closing `"`. */
  function FmtString(s: string, ctx: Context, p: nat): (r: Lexed<Token>)
    requires p <= |s|
    ensures r.Ok? ==> StartsWith(s, p, "f\"") && p + 3 <= r.next <= |s| && s[r.next - 1] == '"'
    ensures r.Ok? ==> r.value.FormatStringLiteral?
    decreases |s| - p, 2
  {
    if StartsWith(s, p, "f\"") then
      var items := FmtItems(s, ctx, p + 2);
      if items.next < |s| && s[items.next] == '"' then Ok(FormatStringLiteral(items.items), items.next + 1)
      else Fail(NoMatch)
    else
      Fail(NoMatch)
  }

  /**
   * The body of a format string: a `{` first tries to open a section, whose
   * outermost synthetic braces are stripped; otherwise (and for `}`) a literal
   * character with the escapes `\\`, `\{`, `\n`, `\t` and `\"`.
   */
  function FmtItems(s: string, ctx: Context, i: nat): (r: Repeated<FmtStringContents>)
    requires i <= |s|
    ensures i <= r.next <= |s|
    decreases |s| - i, 2
  {
    var section := FmtGroup(s, ctx, i);
    if section.Ok? then
      var rest := FmtItems(s, ctx, section.next);
      Repeated([Tokens(section.value[1..|section.value| - 1])] + rest.items, rest.next)
    else
      match LiteralChar(s, i, '"', true)
      case Some((c, k)) =>
        var rest := FmtItems(s, ctx, k);
        Repeated([Char(c)] + rest.items, rest.next)
      case None => Repeated([], i)
  }

  /**
   * `lex_fstring_tokens`: a `{`, a repetition of nested sections and of
   * single tokens lexed by the whole padded dispatcher (only where the next
   * character is not a brace), and a `}`; the tokens are wrapped in
   * synthetic brace tokens at every level.
   */
  function FmtGroup(s: string, ctx: Context, i: nat): (r: Lexed<seq<Spanned>>)
    requires i <= |s|
    ensures r.Ok? ==> i < r.next <= |s| && s[i] == '{' && |r.value| >= 2
    decreases |s| - i, 1
  {
    if i < |s| && s[i] == '{' then
      var parts := GroupItems(s, ctx, i + 1);
      if parts.next < |s| && s[parts.next] == '}' then Ok(Wrap(Flatten(parts.items)), parts.next + 1)
      else Fail(NoMatch)
    else
      Fail(NoMatch)
  }

  /** The repeated interior of a section: each item is a nested section or a one-token group. */
  function GroupItems(s: string, ctx: Context, j: nat): (r: Repeated<seq<Spanned>>)
    requires j <= |s|
    ensures j <= r.next <= |s|
    decreases |s| - j, 5
  {
    if j < |s| && s[j] == '{' then
      match FmtGroup(s, ctx, j)
      case Ok(g, k) =>
        var rest := GroupItems(s, ctx, k);
        Repeated([g] + rest.items, rest.next)
      case Fail(_) => Repeated([], j)
    else if j < |s| && s[j] != '}' then
      match LexSingle(s, ctx, j)
      case Ok(t, k) =>
        var rest := GroupItems(s, ctx, k);
        Repeated([[t]] + rest.items, rest.next)
      case Fail(_) => Repeated([], j)
    else
      Repeated([], j)
  }

  /** `lexer`: single tokens repeated from `p` until one fails. */
  function LexAll(s: string, ctx: Context, p: nat): (r: Repeated<Spanned>)
    requires p <= |s|
    ensures p <= r.next <= |s|
    decreases |s| - p
  {
    match LexSingle(s, ctx, p)
    case Ok(t, n) =>
      var rest := LexAll(s, ctx, n);
      Repeated([t] + rest.items, rest.next)
    case Fail(_) => Repeated([], p)
  }
}
