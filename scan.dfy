/**
 * Character classes and the maximal runs the lexer scans: padding whitespace,
 * identifier runs and decimal digit runs, over a character sequence and a position.
 */
module Scan {

  /** Why an alternative failed: no match, or a digit run too large for a 64-bit integer. */
  datatype LexError = NoMatch | InvalidInteger(start: nat, end: nat)

  /** The outcome of running a parser at a position: a value and the position after it, or a failure. */
  datatype Lexed<T> = Ok(value: T, next: nat) | Fail(error: LexError)

  /** The outcome of a repetition: the collected values and the position where it stopped; it never fails. */
  datatype Repeated<T> = Repeated(items: seq<T>, next: nat)

  /** The ASCII characters Rust's `char::is_whitespace` accepts. */
  predicate IsWhitespace(c: char) {
    c == ' ' || c == '\t' || c == '\n' || c == '\r' || c == '\U{0B}' || c == '\U{0C}'
  }

  predicate IsDigit(c: char) {
    '0' <= c <= '9'
  }

  predicate IsIdentStart(c: char) {
    ('a' <= c <= 'z') || ('A' <= c <= 'Z') || c == '_'
  }

  predicate IsIdentChar(c: char) {
    IsIdentStart(c) || IsDigit(c)
  }

  /** Whether `lit` occurs in `s` at position `p`. */
  predicate StartsWith(s: string, p: nat, lit: string) {
    p + |lit| <= |s| && s[p..p + |lit|] == lit
  }

  /** A match of `a + b` is a match of `a` followed by a match of `b`. */
  lemma StartsWithConcat(s: string, i: nat, a: string, b: string)
    ensures StartsWith(s, i, a + b) <==> StartsWith(s, i, a) && StartsWith(s, i + |a|, b)
  {
    if StartsWith(s, i, a + b) {
      assert s[i..i + |a|] == (a + b)[..|a|];
      assert s[i + |a|..i + |a| + |b|] == (a + b)[|a|..];
    }
    if StartsWith(s, i, a) && StartsWith(s, i + |a|, b) {
      assert s[i..i + |a| + |b|] == s[i..i + |a|] + s[i + |a|..i + |a| + |b|];
    }
  }

  /** A slice of a slice is a slice of the whole. */
  lemma SliceOfSlice(s: string, i: nat, j: nat, a: nat, b: nat)
    requires i <= j <= |s| && a <= b <= j - i
    ensures s[i..j][a..b] == s[i + a..i + b]
  {
    assert forall k :: 0 <= k < b - a ==> s[i..j][a..b][k] == s[i + a..i + b][k];
  }

  /** A slice splits at any point inside it. */
  lemma SliceSplit(s: string, i: nat, k: nat, j: nat)
    requires i <= k <= j <= |s|
    ensures s[i..j] == s[i..k] + s[k..j]
  {
  }

  /** A slice is its first character, its interior and its last character. */
  lemma SliceEnds(s: string, p: nat, q: nat)
    requires p < q < |s|
    ensures s[p..q + 1] == [s[p]] + s[p + 1..q] + [s[q]]
  {
    SliceSplit(s, p, p + 1, q + 1);
    SliceSplit(s, p + 1, q, q + 1);
    assert s[p..p + 1] == [s[p]] && s[q..q + 1] == [s[q]];
  }

  /** A one-character match is a character comparison. */
  lemma StartsWithChar(s: string, i: nat, c: char)
    ensures StartsWith(s, i, [c]) <==> i < |s| && s[i] == c
  {
    if i < |s| && s[i] == c {
      assert s[i..i + 1] == [c];
    }
  }

  /** Whether every character of s[a..b] is whitespace. */
  predicate AllWhitespace(s: string, a: nat, b: nat)
    requires a <= b <= |s|
  {
    forall k :: a <= k < b ==> IsWhitespace(s[k])
  }

  /** The end of the (possibly empty) run of whitespace starting at `p`. */
  function SkipWhitespace(s: string, p: nat): (q: nat)
    requires p <= |s|
    ensures p <= q <= |s|
    ensures AllWhitespace(s, p, q)
    ensures q == |s| || !IsWhitespace(s[q])
    decreases |s| - p
  {
    if p < |s| && IsWhitespace(s[p]) then SkipWhitespace(s, p + 1) else p
  }

  /** The end of the run of identifier characters starting at `p`. */
  function IdentRunEnd(s: string, p: nat): (q: nat)
    requires p <= |s|
    ensures p <= q <= |s|
    ensures forall k :: p <= k < q ==> IsIdentChar(s[k])
    ensures q == |s| || !IsIdentChar(s[q])
    decreases |s| - p
  {
    if p < |s| && IsIdentChar(s[p]) then IdentRunEnd(s, p + 1) else p
  }

  /** The end of the run of decimal digits starting at `p`. */
  function DigitRunEnd(s: string, p: nat): (q: nat)
    requires p <= |s|
    ensures p <= q <= |s|
    ensures forall k :: p <= k < q ==> IsDigit(s[k])
    ensures q == |s| || !IsDigit(s[q])
    decreases |s| - p
  {
    if p < |s| && IsDigit(s[p]) then DigitRunEnd(s, p + 1) else p
  }

  /** A maximal run is determined by its start: any end with the run's two defining properties is the run's end. */
  lemma {:induction false} DigitRunEndUnique(s: string, p: nat, q: nat)
    requires p <= q <= |s|
    requires forall k :: p <= k < q ==> IsDigit(s[k])
    requires q == |s| || !IsDigit(s[q])
    ensures DigitRunEnd(s, p) == q
    decreases q - p
  {
    if p < q {
      DigitRunEndUnique(s, p + 1, q);
    }
  }

  /** Same for identifier runs. */
  lemma {:induction false} IdentRunEndUnique(s: string, p: nat, q: nat)
    requires p <= q <= |s|
    requires forall k :: p <= k < q ==> IsIdentChar(s[k])
    requires q == |s| || !IsIdentChar(s[q])
    ensures IdentRunEnd(s, p) == q
    decreases q - p
  {
    if p < q {
      IdentRunEndUnique(s, p + 1, q);
    }
  }

  /** Same for whitespace runs. */
  lemma {:induction false} SkipWhitespaceUnique(s: string, p: nat, q: nat)
    requires p <= q <= |s|
    requires AllWhitespace(s, p, q)
    requires q == |s| || !IsWhitespace(s[q])
    ensures SkipWhitespace(s, p) == q
    decreases q - p
  {
    if p < q {
      SkipWhitespaceUnique(s, p + 1, q);
    }
  }

  /** The numeric value of a decimal digit. */
  function DigitValue(c: char): (d: nat)
    requires IsDigit(c)
    ensures d < 10
  {
    (c as int - '0' as int) as nat
  }

  /** The value of a string of decimal digits, most significant first. */
  function DigitsValue(ds: string): nat
    requires forall k :: 0 <= k < |ds| ==> IsDigit(ds[k])
  {
    if ds == [] then 0 else 10 * DigitsValue(ds[..|ds| - 1]) + DigitValue(ds[|ds| - 1])
  }
}
