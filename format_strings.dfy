/**
 * Format strings: the synthetic braces of every `{...}` section nest
 * properly, and literal text reads back from its escaped form.
 */
module FormatStrings {
  import opened TokenModel
  import opened Scan
  import opened Literals
  import opened InlineGo
  import opened Lexer
  import opened DispatchProps

  /** How a token takes part in section nesting: a synthetic brace, or a neutral token. */
  function BraceOf(t: Spanned): char {
    if t == OpenBrace then '{' else if t == CloseBrace then '}' else '.'
  }

  /** The nesting a token sequence's synthetic braces form, one character per token. */
  function Skeleton(ts: seq<Spanned>): (k: string)
    ensures |k| == |ts| && forall i :: 0 <= i < |ts| ==> k[i] == BraceOf(ts[i])
  {
    seq(|ts|, i requires 0 <= i < |ts| => BraceOf(ts[i]))
  }

  lemma SkeletonConcat(a: seq<Spanned>, b: seq<Spanned>)
    ensures Skeleton(a + b) == Skeleton(a) + Skeleton(b)
  {
  }

  lemma SkeletonSlice(ts: seq<Spanned>, i: nat, j: nat)
    requires i <= j <= |ts|
    ensures Skeleton(ts[i..j]) == Skeleton(ts)[i..j]
  {
  }

  /** A padded token carries a real span, so it is never a synthetic brace. */
  lemma LexedTokenIsNeutral(s: string, ctx: Context, j: nat)
    requires j <= |s| && LexSingle(s, ctx, j).Ok?
    ensures Skeleton([LexSingle(s, ctx, j).value]) == "."
  {
  }

  /**
   * A section is a block of synthetic braces: it opens with the synthetic
   * `{`, closes with the synthetic `}`, and every nested section inside it
   * is closed before it.
   */
  lemma {:induction false} FmtGroupIsBlock(s: string, ctx: Context, i: nat)
    requires i <= |s| && FmtGroup(s, ctx, i).Ok?
    ensures var g := FmtGroup(s, ctx, i).value;
            g[0] == OpenBrace && g[|g| - 1] == CloseBrace && IsBlock(Skeleton(g))
    decreases |s| - i, 0
  {
    var inner := Flatten(GroupItems(s, ctx, i + 1).items);
    assert FmtGroup(s, ctx, i).value == Wrap(inner);
    GroupItemsIsLevel(s, ctx, i + 1);
    SkeletonWrap(inner);
    BlockOfLevel(Skeleton(inner));
  }

  /** The synthetic braces a section is wrapped in open and close its nesting. */
  lemma SkeletonWrap(inner: seq<Spanned>)
    ensures Skeleton(Wrap(inner)) == "{" + Skeleton(inner) + "}"
  {
    assert Skeleton([OpenBrace]) == "{";
    assert Skeleton([CloseBrace]) == "}";
    SkeletonConcat([OpenBrace] + inner, [CloseBrace]);
    SkeletonConcat([OpenBrace], inner);
  }

  /** The items of a section's interior, flattened, are balanced. */
  lemma {:induction false} GroupItemsIsLevel(s: string, ctx: Context, j: nat)
    requires j <= |s|
    ensures IsLevel(Skeleton(Flatten(GroupItems(s, ctx, j).items)))
    decreases |s| - j, 1
  {
    var r := GroupItems(s, ctx, j);
    if r.items == [] {
      assert Skeleton([]) == [];
      assert Depth([]) == 0;
      assert PrefixDepth([], 0) == 0;
    } else {
      var first := r.items[0];
      var k: nat;
      if j < |s| && s[j] == '{' {
        k := FmtGroup(s, ctx, j).next;
        FmtGroupIsBlock(s, ctx, j);
        BlockIsLevel(Skeleton(first));
      } else {
        k := LexSingle(s, ctx, j).next;
        LexedTokenIsNeutral(s, ctx, j);
        NonBraceIsLevel('.');
      }
      var rest := GroupItems(s, ctx, k);
      assert r.items == [first] + rest.items;
      assert Flatten(r.items) == first + Flatten(rest.items);
      GroupItemsIsLevel(s, ctx, k);
      SkeletonConcat(first, Flatten(rest.items));
      LevelConcat(Skeleton(first), Skeleton(Flatten(rest.items)));
    }
  }

  /** Every section among format-string items holds balanced tokens. */
  ghost predicate SectionsBalanced(cs: seq<FmtStringContents>) {
    forall k :: 0 <= k < |cs| && cs[k].Tokens? ==> IsLevel(Skeleton(cs[k].tokens))
  }

  /** Every section of a format-string body holds balanced tokens once its outer braces are stripped. */
  lemma {:induction false} FmtItemsBalanced(s: string, ctx: Context, i: nat)
    requires i <= |s|
    ensures SectionsBalanced(FmtItems(s, ctx, i).items)
    decreases |s| - i
  {
    var section := FmtGroup(s, ctx, i);
    if section.Ok? {
      var g := section.value;
      FmtItemsSectionCons(s, ctx, i);
      SectionIsBalanced(s, ctx, i);
      FmtItemsBalanced(s, ctx, section.next);
      SectionsBalancedCons(Tokens(g[1..|g| - 1]), FmtItems(s, ctx, section.next).items);
    } else {
      match LiteralChar(s, i, '"', true)
      case Some((c, n)) =>
        FmtItemsCharCons(s, ctx, i, c, n);
        FmtItemsBalanced(s, ctx, n);
        SectionsBalancedCons(Char(c), FmtItems(s, ctx, n).items);
      case None =>
        assert FmtItems(s, ctx, i).items == [];
    }
  }

  /** A section's tokens, with the outer synthetic braces stripped, are balanced. */
  lemma SectionIsBalanced(s: string, ctx: Context, i: nat)
    requires i <= |s| && FmtGroup(s, ctx, i).Ok?
    ensures var g := FmtGroup(s, ctx, i).value;
            IsLevel(Skeleton(g[1..|g| - 1]))
  {
    var g := FmtGroup(s, ctx, i).value;
    FmtGroupIsBlock(s, ctx, i);
    LevelOfBlock(Skeleton(g));
    SkeletonSlice(g, 1, |g| - 1);
  }

  /** One more balanced item keeps a list of items balanced. */
  lemma SectionsBalancedCons(x: FmtStringContents, rest: seq<FmtStringContents>)
    requires x.Tokens? ==> IsLevel(Skeleton(x.tokens))
    requires SectionsBalanced(rest)
    ensures SectionsBalanced([x] + rest)
  {
    var items := [x] + rest;
    forall k | 0 <= k < |items| && items[k].Tokens?
      ensures IsLevel(Skeleton(items[k].tokens))
    {
      if k > 0 {
        assert items[k] == rest[k - 1];
      }
    }
  }

  /** Where a section opens, the body holds its stripped tokens and goes on after it. */
  lemma FmtItemsSectionCons(s: string, ctx: Context, i: nat)
    requires i <= |s| && FmtGroup(s, ctx, i).Ok?
    ensures var g := FmtGroup(s, ctx, i);
            var rest := FmtItems(s, ctx, g.next);
            FmtItems(s, ctx, i) == Repeated([Tokens(g.value[1..|g.value| - 1])] + rest.items, rest.next)
  {
  }

  /** The sections of a lexed format string are balanced. */
  lemma FmtStringBalanced(s: string, ctx: Context, p: nat)
    requires p <= |s| && FmtString(s, ctx, p).Ok?
    ensures SectionsBalanced(FmtString(s, ctx, p).value.contents)
  {
    FmtItemsBalanced(s, ctx, p + 2);
  }

  /** The literal-character items of a text. */
  function Chars(t: string): (r: seq<FmtStringContents>)
    ensures |r| == |t| && forall k :: 0 <= k < |t| ==> r[k] == Char(t[k])
  {
    seq(|t|, k requires 0 <= k < |t| => Char(t[k]))
  }

  /** With `{` escaped, no escape starts with an opening brace, so none opens a section. */
  lemma EscapeStartsNoSection(c: char)
    ensures Escape(c, '"', true)[0] != '{'
  {
  }

  /** The body reads any text back from its escaped form, as literal characters, up to the closing quote. */
  lemma FmtItemsReadsEscaped(s: string, ctx: Context, i: nat, t: string)
    requires StartsWith(s, i, EscapeAll(t, '"', true) + ['"'])
    ensures FmtItems(s, ctx, i) == Repeated(Chars(t), i + |EscapeAll(t, '"', true)|)
  {
    EscapedCharsRead(s, ctx, i, t);
  }

  /** `t`, escaped and followed by the closing quote, is written at `i`. */
  ghost predicate EscapedAt(s: string, i: nat, t: string) {
    StartsWith(s, i, EscapeAll(t, '"', true) + ['"'])
  }

  /** The body at `i` reads `t` as literal characters and stops after its escaped form. */
  ghost predicate ReadsChars(s: string, ctx: Context, i: nat, t: string)
    requires i <= |s|
  {
    FmtItems(s, ctx, i) == Repeated(Chars(t), i + |EscapeAll(t, '"', true)|)
  }

  lemma {:induction false} EscapedCharsRead(s: string, ctx: Context, i: nat, t: string)
    requires EscapedAt(s, i, t)
    ensures i <= |s| && ReadsChars(s, ctx, i, t)
    decreases t
  {
    if t == [] {
      FmtItemsReadsNothing(s, ctx, i, t);
    } else {
      var k := i + |Escape(t[0], '"', true)|;
      EscapedHeadReads(s, i, t);
      EscapedCharsRead(s, ctx, k, t[1..]);
      FmtItemsPlainCons(s, ctx, i, t, k);
    }
  }

  /** With nothing escaped, the body stops at once at the closing quote. */
  lemma FmtItemsReadsNothing(s: string, ctx: Context, i: nat, t: string)
    requires t == [] && EscapedAt(s, i, t)
    ensures i <= |s| && ReadsChars(s, ctx, i, t)
  {
    assert EscapeAll(t, '"', true) == [];
    assert StartsWith(s, i, ['"']);
    StartsWithChar(s, i, '"');
    FmtItemsStop(s, ctx, i);
    assert Chars(t) == [];
  }

  lemma CharsCons(t: string)
    requires |t| >= 1
    ensures Chars(t) == [Char(t[0])] + Chars(t[1..])
  {
  }

  /** The first escape of an escaped body is read as its character, and the rest follows it. */
  lemma EscapedHeadReads(s: string, i: nat, t: string)
    requires |t| >= 1 && StartsWith(s, i, EscapeAll(t, '"', true) + ['"'])
    ensures var h := Escape(t[0], '"', true);
            i < |s| && s[i] != '{' && LiteralChar(s, i, '"', true).Some? &&
            LiteralChar(s, i, '"', true).value.0 == t[0] && LiteralChar(s, i, '"', true).value.1 == i + |h| &&
            EscapedAt(s, i + |h|, t[1..]) &&
            |EscapeAll(t, '"', true)| == |h| + |EscapeAll(t[1..], '"', true)|
  {
    var head := Escape(t[0], '"', true);
    var tail := EscapeAll(t[1..], '"', true);
    EscapeAllSplit(t);
    StartsWithConcat(s, i, head, tail + ['"']);
    HeadNotBrace(s, i, t[0]);
    LiteralCharReadsEscape(s, i, t[0], '"', true);
  }

  /** An escaped text with its closing quote is its first escape followed by the rest. */
  lemma EscapeAllSplit(t: string)
    requires |t| >= 1
    ensures EscapeAll(t, '"', true) + ['"'] == Escape(t[0], '"', true) + (EscapeAll(t[1..], '"', true) + ['"'])
    ensures |EscapeAll(t, '"', true)| == |Escape(t[0], '"', true)| + |EscapeAll(t[1..], '"', true)|
  {
  }

  /** Where an escape is written, no section opens. */
  lemma HeadNotBrace(s: string, i: nat, c: char)
    requires StartsWith(s, i, Escape(c, '"', true))
    ensures i < |s| && s[i] != '{'
  {
    EscapeStartsNoSection(c);
    assert s[i..i + |Escape(c, '"', true)|][0] == s[i];
  }

  /** A closing quote ends a format string's body. */
  lemma FmtItemsStop(s: string, ctx: Context, i: nat)
    requires i < |s| && s[i] == '"'
    ensures FmtItems(s, ctx, i) == Repeated([], i)
  {
    QuoteEndsBody(s, i, '"', true);
  }

  /** Where no section opens, a literal character is read and the body goes on after it. */
  lemma FmtItemsCharCons(s: string, ctx: Context, i: nat, c: char, k: nat)
    requires i <= |s| && FmtGroup(s, ctx, i).Fail? && LiteralChar(s, i, '"', true) == Some((c, k))
    ensures FmtItems(s, ctx, i) == Repeated([Char(c)] + FmtItems(s, ctx, k).items, FmtItems(s, ctx, k).next)
  {
  }

  /** Away from an opening brace no section opens, so the escaped first character is read, then the rest of the text. */
  lemma FmtItemsPlainCons(s: string, ctx: Context, i: nat, t: string, k: nat)
    requires |t| >= 1 && i < |s| && s[i] != '{' && LiteralChar(s, i, '"', true) == Some((t[0], k))
    requires ReadsChars(s, ctx, k, t[1..])
    requires i + |EscapeAll(t, '"', true)| == k + |EscapeAll(t[1..], '"', true)|
    ensures ReadsChars(s, ctx, i, t)
  {
    var n := k + |EscapeAll(t[1..], '"', true)|;
    assert FmtItems(s, ctx, k) == Repeated(Chars(t[1..]), n);
    assert FmtGroup(s, ctx, i).Fail?;
    FmtItemsCharCons(s, ctx, i, t[0], k);
    CharsCons(t);
  }

  /** A format string is its body's items, when the body stops at a closing quote. */
  lemma FmtStringOfItems(s: string, ctx: Context, p: nat, items: seq<FmtStringContents>, q: nat)
    requires StartsWith(s, p, "f\"") && p + 2 <= |s|
    requires FmtItems(s, ctx, p + 2) == Repeated(items, q) && q < |s| && s[q] == '"'
    ensures FmtString(s, ctx, p) == Ok(FormatStringLiteral(items), q + 1)
  {
  }

  /** A format string with no sections lexes to its text, one literal character per item. */
  lemma FmtStringReadsEscaped(s: string, ctx: Context, p: nat, t: string)
    requires StartsWith(s, p, "f\"" + EscapeAll(t, '"', true) + "\"")
    ensures FmtString(s, ctx, p) ==
            Ok(FormatStringLiteral(Chars(t)), p + |EscapeAll(t, '"', true)| + 3)
  {
    var e := EscapeAll(t, '"', true);
    assert "f\"" + e + "\"" == "f\"" + (e + ['"']);
    StartsWithConcat(s, p, "f\"", e + ['"']);
    StartsWithConcat(s, p + 2, e, ['"']);
    StartsWithChar(s, p + 2 + |e|, '"');
    FmtItemsReadsEscaped(s, ctx, p + 2, t);
    FmtStringOfItems(s, ctx, p, Chars(t), p + 2 + |e|);
  }

  /** A section holding one token is that token between the two synthetic braces. */
  lemma FmtGroupOfToken(s: string, ctx: Context, i: nat, t: Spanned, k: nat)
    requires i + 1 < |s| && s[i] == '{' && s[i + 1] != '{' && s[i + 1] != '}'
    requires LexSingle(s, ctx, i + 1) == Ok(t, k) && k < |s| && s[k] == '}'
    ensures FmtGroup(s, ctx, i) == Ok(Wrap([t]), k + 1)
  {
    assert GroupItems(s, ctx, k) == Repeated([], k);
    assert GroupItems(s, ctx, i + 1) == Repeated([[t]], k);
    assert [[t]][1..] == [];
    assert Flatten([[t]]) == [t];
  }

  /** A section holding one nested section wraps the nested tokens once more: every level keeps its braces. */
  lemma FmtGroupOfGroup(s: string, ctx: Context, i: nat, g: seq<Spanned>, k: nat)
    requires i < |s| && s[i] == '{' && FmtGroup(s, ctx, i + 1) == Ok(g, k) && k < |s| && s[k] == '}'
    ensures FmtGroup(s, ctx, i) == Ok(Wrap(g), k + 1)
  {
    assert GroupItems(s, ctx, k) == Repeated([], k);
    assert GroupItems(s, ctx, i + 1) == Repeated([g], k);
    assert [g][1..] == [];
    assert Flatten([g]) == g;
  }

  /**
   * Inside a section, a `{` after whitespace opens no nested section: the
   * first-character test sees the whitespace, and the padded lexer then
   * reads the brace as a control character.
   */
  lemma GroupItemsPaddedBrace(s: string, ctx: Context, j: nat)
    requires j < |s| && IsWhitespace(s[j])
    requires SkipWhitespace(s, j) < |s| && s[SkipWhitespace(s, j)] == '{'
    ensures var a := SkipWhitespace(s, j);
            var r := GroupItems(s, ctx, j);
            |r.items| >= 1 && r.items[0] == [Spanned(ControlChar('{'), Span(a, a + 1, ctx))]
  {
    var a := SkipWhitespace(s, j);
    NotStartsWithAt(s, a, "->", 0);
    NotStartsWithAt(s, a, "::", 0);
    NotStartsWithAt(s, a, "==", 0);
    DispatchControlChar(s, ctx, a, '{', a + 1);
  }

  /** A format string made of one section holds that section's tokens without the outermost synthetic braces. */
  lemma FmtStringOfSection(s: string, ctx: Context, p: nat, g: seq<Spanned>, k: nat)
    requires StartsWith(s, p, "f\"") && p + 2 <= |s|
    requires FmtGroup(s, ctx, p + 2) == Ok(g, k) && k < |s| && s[k] == '"'
    ensures FmtString(s, ctx, p) == Ok(FormatStringLiteral([Tokens(g[1..|g| - 1])]), k + 1)
  {
    FmtItemsSectionCons(s, ctx, p + 2);
    FmtItemsStop(s, ctx, k);
    assert [Tokens(g[1..|g| - 1])] + [] == [Tokens(g[1..|g| - 1])];
    FmtStringOfItems(s, ctx, p, [Tokens(g[1..|g| - 1])], k);
  }
}
