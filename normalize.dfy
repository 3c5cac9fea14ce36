/**
 * Position erasure: replacing the span of a token, and of every token nested
 * in its format-string sections, with the sentinel span, so that token
 * streams can be compared by content alone.
 */
module Normalize {
  import opened TokenModel

  /** The token with its span and every nested span replaced by the sentinel. */
  function EmptySpans(t: Spanned): (r: Spanned)
    ensures r.span == EmptyRange
    decreases t, 2
  {
    Spanned(EmptyToken(t.token), EmptyRange)
  }

  /** A token with the spans nested in its format-string sections erased; other tokens hold no spans. */
  function EmptyToken(tok: Token): (r: Token)
    ensures r.FormatStringLiteral? <==> tok.FormatStringLiteral?
    ensures !tok.FormatStringLiteral? ==> r == tok
    decreases tok, 1
  {
    match tok
    case FormatStringLiteral(cs) =>
      FormatStringLiteral(seq(|cs|, k requires 0 <= k < |cs| => EmptyContent(cs[k])))
    case _ => tok
  }

  /** A format-string item with the spans of its section's tokens erased. */
  function EmptyContent(c: FmtStringContents): (r: FmtStringContents)
    ensures r.Char? <==> c.Char?
    ensures c.Char? ==> r == c
    decreases c, 0
  {
    match c
    case Char(_) => c
    case Tokens(ts) => Tokens(seq(|ts|, k requires 0 <= k < |ts| => EmptySpans(ts[k])))
  }

  /**
   * `token_empty_range`: overwrite the span, then walk the format-string
   * items and, inside every section, erase each token in place.
   */
  method TokenEmptyRange(t: Spanned) returns (r: Spanned)
    ensures r == EmptySpans(t)
    decreases t
  {
    r := t.(span := EmptyRange);
    if t.token.FormatStringLiteral? {
      var contents := t.token.contents;
      var i := 0;
      while i < |contents|
        invariant 0 <= i <= |contents| == |t.token.contents|
        invariant forall k :: 0 <= k < i ==> contents[k] == EmptyContent(t.token.contents[k])
        invariant forall k :: i <= k < |contents| ==> contents[k] == t.token.contents[k]
      {
        if contents[i].Tokens? {
          var item := t.token.contents[i];
          assert item in t.token.contents;
          var tokens := item.tokens;
          var j := 0;
          while j < |tokens|
            invariant 0 <= j <= |tokens| == |item.tokens|
            invariant forall k :: 0 <= k < j ==> tokens[k] == EmptySpans(item.tokens[k])
            invariant forall k :: j <= k < |tokens| ==> tokens[k] == item.tokens[k]
          {
            assert item.tokens[j] in item.tokens;
            var erased := TokenEmptyRange(tokens[j]);
            tokens := tokens[j := erased];
            j := j + 1;
          }
          contents := contents[i := Tokens(tokens)];
        }
        i := i + 1;
      }
      r := Spanned(FormatStringLiteral(contents), EmptyRange);
    }
  }

  /** Every span in the token, nested ones included, is the sentinel. */
  ghost predicate AllSpansEmpty(t: Spanned)
    decreases t, 2
  {
    t.span == EmptyRange && TokenSpansEmpty(t.token)
  }

  ghost predicate TokenSpansEmpty(tok: Token)
    decreases tok, 1
  {
    tok.FormatStringLiteral? ==>
      forall k :: 0 <= k < |tok.contents| ==> ContentSpansEmpty(tok.contents[k])
  }

  ghost predicate ContentSpansEmpty(c: FmtStringContents)
    decreases c, 0
  {
    c.Tokens? ==> forall k :: 0 <= k < |c.tokens| ==> AllSpansEmpty(c.tokens[k])
  }

  /**
   * Erasure leaves no span behind, and it changes exactly the tokens that
   * still hold one: a token is its own erasure iff all its spans are empty.
   */
  lemma {:induction false} EmptySpansFixedPoint(t: Spanned)
    ensures AllSpansEmpty(EmptySpans(t))
    ensures EmptySpans(t) == t <==> AllSpansEmpty(t)
    decreases t, 2
  {
    EmptyTokenFixedPoint(t.token);
  }

  lemma {:induction false} EmptyTokenFixedPoint(tok: Token)
    ensures TokenSpansEmpty(EmptyToken(tok))
    ensures EmptyToken(tok) == tok <==> TokenSpansEmpty(tok)
    decreases tok, 1
  {
    if tok.FormatStringLiteral? {
      var cs := tok.contents;
      var es := EmptyToken(tok).contents;
      forall k | 0 <= k < |cs|
        ensures ContentSpansEmpty(es[k])
        ensures es[k] == cs[k] <==> ContentSpansEmpty(cs[k])
      {
        EmptyContentFixedPoint(cs[k]);
      }
      if TokenSpansEmpty(tok) {
        assert es == cs;
      }
      if EmptyToken(tok) == tok {
        forall k | 0 <= k < |cs|
          ensures ContentSpansEmpty(cs[k])
        {
          assert es[k] == cs[k];
        }
      }
    }
  }

  lemma {:induction false} EmptyContentFixedPoint(c: FmtStringContents)
    ensures ContentSpansEmpty(EmptyContent(c))
    ensures EmptyContent(c) == c <==> ContentSpansEmpty(c)
    decreases c, 0
  {
    if c.Tokens? {
      var ts := c.tokens;
      var es := EmptyContent(c).tokens;
      forall k | 0 <= k < |ts|
        ensures AllSpansEmpty(es[k])
        ensures es[k] == ts[k] <==> AllSpansEmpty(ts[k])
      {
        EmptySpansFixedPoint(ts[k]);
      }
      if ContentSpansEmpty(c) {
        assert es == ts;
      }
      if EmptyContent(c) == c {
        forall k | 0 <= k < |ts|
          ensures AllSpansEmpty(ts[k])
        {
          assert es[k] == ts[k];
        }
      }
    }
  }

  /** Erasing twice is erasing once. */
  lemma EmptySpansIdempotent(t: Spanned)
    ensures EmptySpans(EmptySpans(t)) == EmptySpans(t)
  {
    EmptySpansFixedPoint(t);
    EmptySpansFixedPoint(EmptySpans(t));
  }

  /** Two tokens that agree everywhere except in their spans, nested ones included. */
  predicate SameModuloSpans(a: Spanned, b: Spanned)
    decreases a, 2
  {
    SameToken(a.token, b.token)
  }

  predicate SameToken(x: Token, y: Token)
    decreases x, 1
  {
    if x.FormatStringLiteral? && y.FormatStringLiteral? then
      |x.contents| == |y.contents| &&
      forall k :: 0 <= k < |x.contents| ==> SameContent(x.contents[k], y.contents[k])
    else
      x == y
  }

  predicate SameContent(c: FmtStringContents, d: FmtStringContents)
    decreases c, 0
  {
    if c.Tokens? && d.Tokens? then
      |c.tokens| == |d.tokens| &&
      forall k :: 0 <= k < |c.tokens| ==> SameModuloSpans(c.tokens[k], d.tokens[k])
    else
      c == d
  }

  /** Erasure identifies exactly the tokens that differ only in their spans. */
  lemma {:induction false} EmptySpansEqualIff(a: Spanned, b: Spanned)
    ensures EmptySpans(a) == EmptySpans(b) <==> SameModuloSpans(a, b)
    decreases a, 2
  {
    EmptyTokenEqualIff(a.token, b.token);
  }

  lemma {:induction false} EmptyTokenEqualIff(x: Token, y: Token)
    ensures EmptyToken(x) == EmptyToken(y) <==> SameToken(x, y)
    decreases x, 1
  {
    if x.FormatStringLiteral? && y.FormatStringLiteral? {
      var ex := EmptyToken(x).contents;
      var ey := EmptyToken(y).contents;
      if |x.contents| == |y.contents| {
        forall k | 0 <= k < |x.contents|
          ensures ex[k] == ey[k] <==> SameContent(x.contents[k], y.contents[k])
        {
          EmptyContentEqualIff(x.contents[k], y.contents[k]);
        }
        if ex == ey {
          forall k | 0 <= k < |x.contents|
            ensures SameContent(x.contents[k], y.contents[k])
          {
            assert ex[k] == ey[k];
          }
        }
      } else {
        assert |ex| != |ey|;
      }
    }
  }

  lemma {:induction false} EmptyContentEqualIff(c: FmtStringContents, d: FmtStringContents)
    ensures EmptyContent(c) == EmptyContent(d) <==> SameContent(c, d)
    decreases c, 0
  {
    if c.Tokens? && d.Tokens? {
      var ec := EmptyContent(c).tokens;
      var ed := EmptyContent(d).tokens;
      if |c.tokens| == |d.tokens| {
        forall k | 0 <= k < |c.tokens|
          ensures ec[k] == ed[k] <==> SameModuloSpans(c.tokens[k], d.tokens[k])
        {
          EmptySpansEqualIff(c.tokens[k], d.tokens[k]);
        }
        if ec == ed {
          forall k | 0 <= k < |c.tokens|
            ensures SameModuloSpans(c.tokens[k], d.tokens[k])
          {
            assert ec[k] == ed[k];
          }
        }
      } else {
        assert |ec| != |ed|;
      }
    }
  }
}
