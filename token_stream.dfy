/**
 * The token stream the top-level repetition produces: padded tokens whose
 * spans are trimmed, ordered and separated only by whitespace, and where
 * the stream stops.
 */
module TokenStream {
  import opened TokenModel
  import opened Scan
  import opened Lexer
  import opened DispatchProps

  /**
   * A padded token spans exactly what the dispatcher read after the leading
   * whitespace: the span is trimmed, the padding on both sides is whitespace
   * and the next token starts at a non-whitespace character.
   */
  lemma LexSingleSpan(s: string, ctx: Context, p: nat)
    requires p <= |s| && LexSingle(s, ctx, p).Ok?
    ensures var r := LexSingle(s, ctx, p);
            var a := SkipWhitespace(s, p);
            var sp := r.value.span;
            sp.Span? && sp.start == a && sp.context == ctx &&
            p <= a < sp.end <= r.next <= |s| &&
            AllWhitespace(s, p, a) && AllWhitespace(s, sp.end, r.next) &&
            !IsWhitespace(s[a]) && !IsWhitespace(s[sp.end - 1]) &&
            (r.next == |s| || !IsWhitespace(s[r.next])) &&
            Dispatch(s, ctx, a) == Ok(r.value.token, sp.end)
  {
    DispatchTrimmed(s, ctx, SkipWhitespace(s, p));
  }

  /** Token `t` carries a trimmed span of the file. */
  ghost predicate Trimmed(s: string, ctx: Context, t: Spanned) {
    t.span.Span? && t.span.context == ctx && t.span.start < t.span.end <= |s| &&
    !IsWhitespace(s[t.span.start]) && !IsWhitespace(s[t.span.end - 1])
  }

  /** Every token is what the dispatcher reads over its own span. */
  ghost predicate AllRead(s: string, ctx: Context, ts: seq<Spanned>) {
    forall i :: 0 <= i < |ts| ==>
      ts[i].span.Span? && ts[i].span.start <= |s| &&
      Dispatch(s, ctx, ts[i].span.start) == Ok(ts[i].token, ts[i].span.end)
  }

  /**
   * The tokens cover s[p..q] in order: their spans are trimmed and do not
   * overlap, and only whitespace lies before, between and after them.
   */
  ghost predicate Tiles(s: string, ctx: Context, ts: seq<Spanned>, p: nat, q: nat)
    requires p <= q <= |s|
  {
    (forall i :: 0 <= i < |ts| ==> Trimmed(s, ctx, ts[i]) && p <= ts[i].span.start && ts[i].span.end <= q) &&
    (forall i, j :: 0 <= i < j < |ts| ==> ts[i].span.end <= ts[j].span.start) &&
    (forall i :: 0 <= i < |ts| - 1 ==> AllWhitespace(s, ts[i].span.end, ts[i + 1].span.start)) &&
    if ts == [] then AllWhitespace(s, p, q)
    else AllWhitespace(s, p, ts[0].span.start) && AllWhitespace(s, ts[|ts| - 1].span.end, q)
  }

  /** A token after whitespace, then whitespace, then a tiling, is a tiling. */
  lemma TilesCons(s: string, ctx: Context, t: Spanned, ts: seq<Spanned>, p: nat, n: nat, q: nat)
    requires Trimmed(s, ctx, t) && p <= t.span.start && t.span.end <= n <= q <= |s|
    requires AllWhitespace(s, p, t.span.start) && AllWhitespace(s, t.span.end, n)
    requires Tiles(s, ctx, ts, n, q)
    ensures Tiles(s, ctx, [t] + ts, p, q)
  {
    ConsInside(s, ctx, t, ts, p, n, q);
    ConsOrdered(s, ctx, t, ts, n, q);
    ConsGaps(s, ctx, t, ts, n, q);
    var us := [t] + ts;
    if ts != [] {
      assert us[|us| - 1] == ts[|ts| - 1];
    }
  }

  lemma ConsInside(s: string, ctx: Context, t: Spanned, ts: seq<Spanned>, p: nat, n: nat, q: nat)
    requires Trimmed(s, ctx, t) && p <= t.span.start && t.span.end <= n <= q <= |s|
    requires Tiles(s, ctx, ts, n, q)
    ensures forall i :: 0 <= i < |[t] + ts| ==>
              Trimmed(s, ctx, ([t] + ts)[i]) && p <= ([t] + ts)[i].span.start && ([t] + ts)[i].span.end <= q
  {
    var us := [t] + ts;
    forall i | 0 <= i < |us|
      ensures Trimmed(s, ctx, us[i]) && p <= us[i].span.start && us[i].span.end <= q
    {
      if i > 0 {
        assert us[i] == ts[i - 1];
      }
    }
  }

  lemma ConsOrdered(s: string, ctx: Context, t: Spanned, ts: seq<Spanned>, n: nat, q: nat)
    requires Trimmed(s, ctx, t) && t.span.end <= n <= q <= |s| && Tiles(s, ctx, ts, n, q)
    ensures forall i, j :: 0 <= i < j < |[t] + ts| ==> ([t] + ts)[i].span.end <= ([t] + ts)[j].span.start
  {
    var us := [t] + ts;
    forall i, j | 0 <= i < j < |us|
      ensures us[i].span.end <= us[j].span.start
    {
      assert us[j] == ts[j - 1];
      if i > 0 {
        assert us[i] == ts[i - 1];
      }
    }
  }

  lemma ConsGaps(s: string, ctx: Context, t: Spanned, ts: seq<Spanned>, n: nat, q: nat)
    requires Trimmed(s, ctx, t) && t.span.end <= n <= q <= |s| && AllWhitespace(s, t.span.end, n)
    requires Tiles(s, ctx, ts, n, q)
    ensures forall i :: 0 <= i < |[t] + ts| - 1 ==> AllWhitespace(s, ([t] + ts)[i].span.end, ([t] + ts)[i + 1].span.start)
  {
    var us := [t] + ts;
    forall i | 0 <= i < |us| - 1
      ensures AllWhitespace(s, us[i].span.end, us[i + 1].span.start)
    {
      assert us[i + 1] == ts[i];
      if i > 0 {
        assert us[i] == ts[i - 1];
      }
    }
  }

  /** Prepending a token read at its span keeps every token read at its span. */
  lemma AllReadCons(s: string, ctx: Context, t: Spanned, ts: seq<Spanned>)
    requires t.span.Span? && t.span.start <= |s| && Dispatch(s, ctx, t.span.start) == Ok(t.token, t.span.end)
    requires AllRead(s, ctx, ts)
    ensures AllRead(s, ctx, [t] + ts)
  {
    var us := [t] + ts;
    forall i | 0 <= i < |us|
      ensures us[i].span.Span? && us[i].span.start <= |s| &&
              Dispatch(s, ctx, us[i].span.start) == Ok(us[i].token, us[i].span.end)
    {
      if i > 0 {
        assert us[i] == ts[i - 1];
      }
    }
  }

  /**
   * The lexer's tokens are each read by the dispatcher at their span and
   * tile the input from where it started to where it stopped, and it
   * stopped where no further token can be lexed.
   */
  lemma {:induction false} LexAllTiles(s: string, ctx: Context, p: nat)
    requires p <= |s|
    ensures var r := LexAll(s, ctx, p);
            AllRead(s, ctx, r.items) && Tiles(s, ctx, r.items, p, r.next) &&
            LexSingle(s, ctx, r.next).Fail?
    decreases |s| - p
  {
    match LexSingle(s, ctx, p)
    case Ok(t, n) =>
      LexAllTiles(s, ctx, n);
      LexAllStep(s, ctx, p);
    case Fail(_) =>
  }

  /** One more token in front keeps the stream read at its spans and tiling the input. */
  lemma LexAllStep(s: string, ctx: Context, p: nat)
    requires p <= |s| && LexSingle(s, ctx, p).Ok?
    requires var n := LexSingle(s, ctx, p).next;
             var rest := LexAll(s, ctx, n);
             AllRead(s, ctx, rest.items) && Tiles(s, ctx, rest.items, n, rest.next)
    ensures var r := LexAll(s, ctx, p);
            AllRead(s, ctx, r.items) && Tiles(s, ctx, r.items, p, r.next)
  {
    var t := LexSingle(s, ctx, p).value;
    var n := LexSingle(s, ctx, p).next;
    var rest := LexAll(s, ctx, n);
    LexSingleSpan(s, ctx, p);
    TilesCons(s, ctx, t, rest.items, p, n, rest.next);
    AllReadCons(s, ctx, t, rest.items);
    assert LexAll(s, ctx, p) == Repeated([t] + rest.items, rest.next);
  }

  /**
   * The tokens of `r` are each read by the dispatcher at their span, tile
   * the input from the start to where lexing stopped, and no token can be
   * lexed there.
   */
  ghost predicate LexesWhole(s: string, ctx: Context, r: Repeated<Spanned>) {
    r.next <= |s| && AllRead(s, ctx, r.items) && Tiles(s, ctx, r.items, 0, r.next) &&
    LexSingle(s, ctx, r.next).Fail?
  }

  /** `lexer`: the token stream of a whole file, and where lexing stopped. */
  function Lex(s: string, ctx: Context): (r: Repeated<Spanned>)
    ensures LexesWhole(s, ctx, r)
  {
    LexAllTiles(s, ctx, 0);
    LexAll(s, ctx, 0)
  }

  /**
   * Whitespace alone yields no tokens: the failing attempt is rewound, so
   * the lexer stops where it started, before the whitespace.
   */
  lemma LexWhitespaceOnly(s: string, ctx: Context, p: nat)
    requires p <= |s| && AllWhitespace(s, p, |s|)
    ensures LexAll(s, ctx, p) == Repeated([], p)
  {
    SkipWhitespaceUnique(s, p, |s|);
  }
}
