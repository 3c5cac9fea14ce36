/**
 * Inline Go blocks: `go`, at least one whitespace character, then a
 * brace-balanced block captured verbatim. Only brace nesting matters inside
 * the block; strings and comments of the embedded Go code are not recognised.
 */
module InlineGo {
  import opened TokenModel
  import opened Scan

  /** The concatenation of the pieces a repetition collected. */
  function Join(parts: seq<string>): string {
    if parts == [] then [] else parts[0] + Join(parts[1..])
  }

  /**
   * `go_text_parser`: a `{`, then any mix of non-brace characters and nested
   * blocks, then `}`; the result is the pieces joined and re-wrapped in braces
   * (which `GoTextIsSlice` shows is the slice of the input the block occupies).
   */
  function GoText(s: string, p: nat): (r: Lexed<string>)
    requires p <= |s|
    ensures r.Ok? ==> p + 2 <= r.next <= |s| && s[p] == '{' && s[r.next - 1] == '}' && |r.value| >= 2
    decreases |s| - p, 0
  {
    if p < |s| && s[p] == '{' then
      var parts := GoItems(s, p + 1);
      if parts.next < |s| && s[parts.next] == '}' then
        Ok("{" + Join(parts.items) + "}", parts.next + 1)
      else
        Fail(NoMatch)
    else
      Fail(NoMatch)
  }

  /** The repeated interior of a block: nested blocks and single non-brace characters. */
  function GoItems(s: string, j: nat): (r: Repeated<string>)
    requires j <= |s|
    ensures j <= r.next <= |s|
    decreases |s| - j, 1
  {
    if j < |s| && s[j] == '{' then
      match GoText(s, j)
      case Ok(g, k) =>
        var rest := GoItems(s, k);
        Repeated([g] + rest.items, rest.next)
      case Fail(_) => Repeated([], j)
    else if j < |s| && s[j] != '}' then
      var rest := GoItems(s, j + 1);
      Repeated([[s[j]]] + rest.items, rest.next)
    else
      Repeated([], j)
  }

  /**
   * `inline_go_parser`: `go`, a run of at least one whitespace character and
   * a block; the token holds the block with its outermost braces stripped.
   */
  function InlineGoParser(s: string, p: nat): (r: Lexed<Token>)
    requires p <= |s|
    ensures r.Ok? ==> StartsWith(s, p, "go") && r.value.InlineGo? && p < r.next <= |s| && s[r.next - 1] == '}'
  {
    if StartsWith(s, p, "go") then
      var b := SkipWhitespace(s, p + 2);
      if b > p + 2 then
        match GoText(s, b)
        case Ok(x, n) => Ok(InlineGo(x[1..|x| - 1]), n)
        case Fail(e) => Fail(e)
      else
        Fail(NoMatch)
    else
      Fail(NoMatch)
  }

  /** The capture is exactly the slice of the input the block occupies. */
  lemma {:induction false} GoTextIsSlice(s: string, p: nat)
    requires p <= |s| && GoText(s, p).Ok?
    ensures GoText(s, p).value == s[p..GoText(s, p).next]
    decreases |s| - p, 0
  {
    var parts := GoItems(s, p + 1);
    var q := parts.next;
    assert GoText(s, p) == Ok("{" + Join(parts.items) + "}", q + 1);
    GoItemsJoin(s, p + 1);
    SliceInBraces(s, p, q);
  }

  /** A slice that starts with `{` and ends with `}` is its interior wrapped in braces. */
  lemma SliceInBraces(s: string, p: nat, q: nat)
    requires p < q < |s| && s[p] == '{' && s[q] == '}'
    ensures s[p..q + 1] == "{" + s[p + 1..q] + "}"
  {
    SliceEnds(s, p, q);
  }

  /** The pieces of a block's interior, joined, are the slice of the input they were read from. */
  lemma {:induction false} GoItemsJoin(s: string, j: nat)
    requires j <= |s|
    ensures Join(GoItems(s, j).items) == s[j..GoItems(s, j).next]
    decreases |s| - j, 1
  {
    var r := GoItems(s, j);
    if j < |s| && s[j] == '{' && GoText(s, j).Ok? {
      var g := GoText(s, j).value;
      var k := GoText(s, j).next;
      var rest := GoItems(s, k);
      assert r == Repeated([g] + rest.items, rest.next);
      GoTextIsSlice(s, j);
      GoItemsJoin(s, k);
      JoinCons(g, rest.items);
      SliceSplit(s, j, k, rest.next);
    } else if j < |s| && s[j] != '{' && s[j] != '}' {
      var rest := GoItems(s, j + 1);
      assert r == Repeated([[s[j]]] + rest.items, rest.next);
      GoItemsJoin(s, j + 1);
      JoinCons([s[j]], rest.items);
      SliceSplit(s, j, j + 1, rest.next);
      assert s[j..j + 1] == [s[j]];
    } else {
      assert r.items == [];
    }
  }

  lemma JoinCons(g: string, rest: seq<string>)
    ensures Join([g] + rest) == g + Join(rest)
  {
    assert ([g] + rest)[1..] == rest;
  }

  /**
   * The inline-Go token holds the interior of the block that follows `go`
   * and its whitespace, verbatim.
   */
  lemma InlineGoCode(s: string, p: nat)
    requires p <= |s| && InlineGoParser(s, p).Ok?
    ensures var r := InlineGoParser(s, p);
            var b := SkipWhitespace(s, p + 2);
            p + 2 < b < r.next - 1 && s[b] == '{' && s[r.next - 1] == '}' &&
            r.value.code == s[b + 1..r.next - 1]
  {
    var b := SkipWhitespace(s, p + 2);
    var x := GoText(s, b).value;
    var n := GoText(s, b).next;
    assert InlineGoParser(s, p) == Ok(InlineGo(x[1..|x| - 1]), n);
    GoTextIsSlice(s, b);
    SliceOfSlice(s, b, n, 1, |x| - 1);
  }

  // Brace balance.

  /** The brace nesting depth at the end of `t`: opening braces minus closing braces. */
  function Depth(t: string): int {
    if t == [] then 0 else Depth(t[..|t| - 1]) + BraceDelta(t[|t| - 1])
  }

  /** How one character changes the nesting depth. */
  function BraceDelta(c: char): int {
    if c == '{' then 1 else if c == '}' then -1 else 0
  }

  /** The nesting depth after the first `k` characters of `t`. */
  function PrefixDepth(t: string, k: nat): int
    requires k <= |t|
  {
    Depth(t[..k])
  }

  /** A balanced text: no prefix closes more braces than it opened, and the whole closes all it opened. */
  ghost predicate IsLevel(t: string) {
    Depth(t) == 0 && forall k :: 0 <= k <= |t| ==> PrefixDepth(t, k) >= 0
  }

  /** A block: an opening brace whose match is the last character. */
  ghost predicate IsBlock(g: string) {
    |g| >= 2 && g[0] == '{' && Depth(g) == 0 && forall k :: 1 <= k < |g| ==> PrefixDepth(g, k) >= 1
  }

  lemma {:induction false} DepthConcat(a: string, b: string)
    ensures Depth(a + b) == Depth(a) + Depth(b)
    decreases |b|
  {
    if b != [] {
      var b' := b[..|b| - 1];
      assert (a + b)[..|a + b| - 1] == a + b';
      assert (a + b)[|a + b| - 1] == b[|b| - 1];
      assert Depth(a + b) == Depth(a + b') + BraceDelta(b[|b| - 1]);
      DepthConcat(a, b');
    } else {
      assert a + b == a;
    }
  }

  lemma DepthOfChar(c: char)
    ensures Depth([c]) == BraceDelta(c)
  {
    assert [c][..0] == [];
  }

  lemma LevelConcat(a: string, b: string)
    requires IsLevel(a) && IsLevel(b)
    ensures IsLevel(a + b)
  {
    DepthConcat(a, b);
    forall k | 0 <= k <= |a + b|
      ensures PrefixDepth(a + b, k) >= 0
    {
      if k <= |a| {
        assert (a + b)[..k] == a[..k];
        assert PrefixDepth(a, k) >= 0;
      } else {
        assert (a + b)[..k] == a + b[..k - |a|];
        DepthConcat(a, b[..k - |a|]);
        assert PrefixDepth(b, k - |a|) >= 0;
      }
    }
  }

  lemma BlockIsLevel(g: string)
    requires IsBlock(g)
    ensures IsLevel(g)
  {
    assert g[..|g|] == g;
    assert g[..0] == [];
    assert forall k :: 1 <= k < |g| ==> PrefixDepth(g, k) >= 1;
  }

  lemma NonBraceIsLevel(c: char)
    requires c != '{' && c != '}'
    ensures IsLevel([c])
  {
    DepthOfChar(c);
    assert [c][..0] == [];
    assert [c][..1] == [c];
    assert PrefixDepth([c], 0) == 0 && PrefixDepth([c], 1) == 0;
  }

  /** Wrapping a balanced text in braces gives a block. */
  lemma BlockOfLevel(t: string)
    requires IsLevel(t)
    ensures IsBlock("{" + t + "}")
  {
    var g := "{" + t + "}";
    assert g == "{" + (t + "}");
    DepthConcat("{", t + "}");
    DepthConcat(t, "}");
    DepthOfChar('{');
    DepthOfChar('}');
    forall k | 1 <= k < |g|
      ensures PrefixDepth(g, k) >= 1
    {
      assert g[..k] == "{" + t[..k - 1];
      DepthConcat("{", t[..k - 1]);
      assert PrefixDepth(t, k - 1) >= 0;
    }
  }

  /** A block is a brace, a balanced text and the matching brace. */
  lemma LevelOfBlock(g: string)
    requires IsBlock(g)
    ensures g[|g| - 1] == '}' && IsLevel(g[1..|g| - 1])
  {
    var t := g[1..|g| - 1];
    assert g[..1] == [g[0]];
    DepthOfChar('{');
    assert g[..|g| - 1] == g[..1] + t;
    DepthConcat(g[..1], t);
    assert PrefixDepth(g, |g| - 1) >= 1;
    assert g[..|g|] == g;
    forall k | 0 <= k <= |t|
      ensures PrefixDepth(t, k) >= 0
    {
      assert g[..k + 1] == g[..1] + t[..k];
      DepthConcat(g[..1], t[..k]);
      assert PrefixDepth(g, k + 1) >= 1;
    }
  }

  /** The suffix of a balanced text after a balanced prefix is balanced. */
  lemma LevelSuffix(t: string, k: nat)
    requires IsLevel(t) && k <= |t| && Depth(t[..k]) == 0
    ensures IsLevel(t[k..])
  {
    assert t == t[..k] + t[k..];
    DepthConcat(t[..k], t[k..]);
    forall i | 0 <= i <= |t| - k
      ensures PrefixDepth(t[k..], i) >= 0
    {
      assert t[..k + i] == t[..k] + t[k..][..i];
      DepthConcat(t[..k], t[k..][..i]);
      assert PrefixDepth(t, k + i) >= 0;
    }
  }

  /** A balanced text that starts with `{` starts with a whole block, and the rest is balanced. */
  lemma SplitFirstBlock(t: string) returns (k: nat)
    requires IsLevel(t) && |t| >= 1 && t[0] == '{'
    ensures 2 <= k <= |t| && IsBlock(t[..k]) && IsLevel(t[k..])
  {
    assert t[..1] == [t[0]];
    DepthOfChar('{');
    assert t[..|t|] == t;
    k := 1;
    while PrefixDepth(t, k) != 0
      invariant 1 <= k <= |t|
      invariant forall i :: 1 <= i < k ==> PrefixDepth(t, i) >= 1
      decreases |t| - k
    {
      k := k + 1;
    }
    var g := t[..k];
    forall i | 1 <= i < k
      ensures PrefixDepth(g, i) >= 1
    {
      assert g[..i] == t[..i];
      assert PrefixDepth(t, i) >= 1;
    }
    LevelSuffix(t, k);
  }

  /** Every block the capture returns is a block: it is balanced and its first brace matches its last. */
  lemma {:induction false} GoTextIsBlock(s: string, p: nat)
    requires p <= |s| && GoText(s, p).Ok?
    ensures IsBlock(GoText(s, p).value)
    decreases |s| - p, 0
  {
    var parts := GoItems(s, p + 1);
    GoTextIsSlice(s, p);
    GoItemsIsLevel(s, p + 1);
    BlockOfLevel(s[p + 1..parts.next]);
    assert s[p..parts.next + 1] == "{" + s[p + 1..parts.next] + "}";
  }

  lemma {:induction false} GoItemsIsLevel(s: string, j: nat)
    requires j <= |s|
    ensures IsLevel(s[j..GoItems(s, j).next])
    decreases |s| - j, 1
  {
    var r := GoItems(s, j);
    if j < |s| && s[j] == '{' && GoText(s, j).Ok? {
      var k := GoText(s, j).next;
      GoTextIsBlock(s, j);
      GoTextIsSlice(s, j);
      BlockIsLevel(s[j..k]);
      GoItemsIsLevel(s, k);
      assert s[j..r.next] == s[j..k] + s[k..r.next];
      LevelConcat(s[j..k], s[k..r.next]);
    } else if j < |s| && s[j] != '{' && s[j] != '}' {
      NonBraceIsLevel(s[j]);
      GoItemsIsLevel(s, j + 1);
      assert s[j..r.next] == [s[j]] + s[j + 1..r.next];
      LevelConcat([s[j]], s[j + 1..r.next]);
    } else {
      assert s[j..r.next] == [];
      assert s[j..r.next][..0] == [];
    }
  }

  /** The capture is the slice up to the brace that ends its interior. */
  lemma GoTextOfItems(s: string, p: nat, q: nat)
    requires p < |s| && s[p] == '{' && GoItems(s, p + 1).next == q && q < |s| && s[q] == '}'
    ensures GoText(s, p) == Ok(s[p..q + 1], q + 1)
  {
    GoTextIsSlice(s, p);
  }

  /** Conversely, the capture reads every block that occurs in the input, whatever follows it. */
  lemma {:induction false} GoTextReadsBlock(s: string, p: nat, g: string)
    requires IsBlock(g) && StartsWith(s, p, g)
    ensures GoText(s, p) == Ok(g, p + |g|)
    decreases |g|, 0
  {
    var t := BlockAt(s, p, g);
    GoItemsReadsLevel(s, p + 1, t);
    GoTextOfItems(s, p, p + 1 + |t|);
  }

  /** A block in the input: its opening brace, a level inside and the closing brace. */
  lemma BlockAt(s: string, p: nat, g: string) returns (t: string)
    requires IsBlock(g) && StartsWith(s, p, g)
    ensures t == g[1..|g| - 1] && |g| == |t| + 2 && IsLevel(t)
    ensures p < |s| && s[p] == '{' && StartsWith(s, p + 1, t + "}")
    ensures p + 1 + |t| < |s| && s[p + 1 + |t|] == '}' && s[p..p + 1 + |t| + 1] == g
  {
    LevelOfBlock(g);
    t := g[1..|g| - 1];
    assert g == [g[0]] + (t + "}");
    StartsWithConcat(s, p, [g[0]], t + "}");
    StartsWithChar(s, p, '{');
    StartsWithConcat(s, p + 1, t, "}");
    StartsWithChar(s, p + 1 + |t|, '}');
  }

  lemma {:induction false} GoItemsReadsLevel(s: string, j: nat, t: string)
    requires IsLevel(t) && StartsWith(s, j, t + "}")
    ensures GoItems(s, j).next == j + |t|
    decreases |t|, 2
  {
    StartsWithConcat(s, j, t, "}");
    if t == [] {
      StartsWithChar(s, j, '}');
    } else if t[0] == '{' {
      GoItemsReadsBlockFirst(s, j, t);
    } else {
      GoItemsReadsCharFirst(s, j, t);
    }
  }

  /** A repetition that starts with a block continues after it. */
  lemma GoItemsAfterBlock(s: string, j: nat, g: string, n: nat)
    requires j < |s| && s[j] == '{' && GoText(s, j) == Ok(g, j + |g|)
    requires GoItems(s, j + |g|).next == n
    ensures GoItems(s, j).next == n
  {
  }

  /** A match of a text and a brace splits anywhere inside the text. */
  lemma StartsWithBeforeBrace(s: string, j: nat, t: string, k: nat)
    requires StartsWith(s, j, t + "}") && k <= |t|
    ensures StartsWith(s, j, t[..k]) && StartsWith(s, j + k, t[k..] + "}")
  {
    assert t + "}" == t[..k] + (t[k..] + "}");
    StartsWithConcat(s, j, t[..k], t[k..] + "}");
  }

  lemma {:induction false} GoItemsReadsBlockFirst(s: string, j: nat, t: string)
    requires IsLevel(t) && StartsWith(s, j, t + "}") && |t| >= 1 && t[0] == '{'
    ensures GoItems(s, j).next == j + |t|
    decreases |t|, 1
  {
    var k := SplitFirstBlock(t);
    var g := t[..k];
    StartsWithBeforeBrace(s, j, t, k);
    assert GoText(s, j) == Ok(g, j + k) && s[j] == '{' by {
      GoTextReadsBlock(s, j, g);
    }
    assert GoItems(s, j + k).next == j + |t| by {
      GoItemsReadsLevel(s, j + k, t[k..]);
    }
    GoItemsAfterBlock(s, j, g, j + |t|);
  }

  lemma {:induction false} GoItemsReadsCharFirst(s: string, j: nat, t: string)
    requires IsLevel(t) && StartsWith(s, j, t + "}") && |t| >= 1 && t[0] != '{'
    ensures GoItems(s, j).next == j + |t|
    decreases |t|, 1
  {
    assert t + "}" == [t[0]] + (t[1..] + "}");
    StartsWithConcat(s, j, [t[0]], t[1..] + "}");
    StartsWithChar(s, j, t[0]);
    assert t[..1] == [t[0]];
    DepthOfChar(t[0]);
    assert PrefixDepth(t, 1) >= 0;
    LevelSuffix(t, 1);
    GoItemsReadsLevel(s, j + 1, t[1..]);
  }

  /**
   * The inline-Go rule reads `go`, whitespace and any block after it, and
   * keeps the block's interior verbatim.
   */
  lemma InlineGoReadsBlock(s: string, p: nat, g: string)
    requires StartsWith(s, p, "go") && p + 2 <= |s|
    requires IsBlock(g)
    requires SkipWhitespace(s, p + 2) > p + 2 && StartsWith(s, SkipWhitespace(s, p + 2), g)
    ensures InlineGoParser(s, p) ==
            Ok(InlineGo(g[1..|g| - 1]), SkipWhitespace(s, p + 2) + |g|)
  {
    GoTextReadsBlock(s, SkipWhitespace(s, p + 2), g);
  }

  /** Without whitespace between `go` and the block, the inline-Go rule does not apply. */
  lemma InlineGoNeedsWhitespace(s: string, p: nat)
    requires p + 2 < |s| && StartsWith(s, p, "go") && !IsWhitespace(s[p + 2])
    ensures InlineGoParser(s, p).Fail?
  {
  }
}
