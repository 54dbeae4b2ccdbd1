/** The pieces of the Java library that both classes lean on: the character classes
    behind Character.isWhitespace and Character.isDigit, String.indexOf and
    String.startsWith, the value Integer.parseInt computes, and Collections.reverse.
    The cursor loops of the two classes are proved against SkipWs and DigitRunEnd. */
module JavaText {

  /** Integer.MAX_VALUE: Integer.parseInt throws above it. */
  const MaxInt: int := 0x7fff_ffff

  /** Character.isWhitespace (Unicode tables of Java 15 and later): the space,
      line and paragraph separators except the no-break spaces U+00A0, U+2007 and
      U+202F, together with U+0009..U+000D and U+001C..U+001F. */
  predicate IsWhitespace(c: char) {
    var n := c as int;
    (9 <= n <= 13) || (28 <= n <= 32) || n == 0x1680 ||
    (0x2000 <= n <= 0x2006) || (0x2008 <= n <= 0x200A) ||
    n == 0x2028 || n == 0x2029 || n == 0x205F || n == 0x3000
  }

  /** Character.isDigit, restricted to the ASCII digits. */
  predicate IsDigit(c: char) {
    '0' <= c <= '9'
  }

  predicate AllDigits(ds: string) {
    forall i :: 0 <= i < |ds| ==> IsDigit(ds[i])
  }

  /** The first index at or after p that does not hold whitespace: where the
      skipWhitespace loop leaves the cursor. */
  function SkipWs(s: string, p: nat): (q: nat)
    requires p <= |s|
    ensures p <= q <= |s|
    decreases |s| - p
  {
    if p < |s| && IsWhitespace(s[p]) then SkipWs(s, p + 1) else p
  }

  /** skipWhitespace stops at the first character that is not whitespace. */
  lemma {:induction false} SkipWsStops(s: string, p: nat)
    requires p <= |s|
    ensures forall i :: p <= i < SkipWs(s, p) ==> IsWhitespace(s[i])
    ensures SkipWs(s, p) == |s| || !IsWhitespace(s[SkipWs(s, p)])
    decreases |s| - p
  {
    if p < |s| && IsWhitespace(s[p]) {
      SkipWsStops(s, p + 1);
    }
  }

  /** The first index at or after p that does not hold a digit: where the
      digit loop of parseNumber leaves the cursor. */
  function DigitRunEnd(s: string, p: nat): (q: nat)
    requires p <= |s|
    ensures p <= q <= |s|
    decreases |s| - p
  {
    if p < |s| && IsDigit(s[p]) then DigitRunEnd(s, p + 1) else p
  }

  /** The digit loop consumes the maximal run of digits. */
  lemma {:induction false} DigitRunMaximal(s: string, p: nat)
    requires p <= |s|
    ensures AllDigits(s[p..DigitRunEnd(s, p)])
    ensures DigitRunEnd(s, p) == |s| || !IsDigit(s[DigitRunEnd(s, p)])
    decreases |s| - p
  {
    if p < |s| && IsDigit(s[p]) {
      DigitRunMaximal(s, p + 1);
      assert s[p..DigitRunEnd(s, p)] == [s[p]] + s[p + 1..DigitRunEnd(s, p)];
    }
  }

  /** A run of digits followed by a non-digit or the end is exactly what the
      digit loop consumes. */
  lemma {:induction false} DigitRunEndAt(s: string, p: nat, q: nat)
    requires p <= q <= |s|
    requires AllDigits(s[p..q])
    requires q == |s| || !IsDigit(s[q])
    ensures DigitRunEnd(s, p) == q
    decreases q - p
  {
    if p < q {
      assert IsDigit(s[p..q][0]);
      assert s[p + 1..q] == s[p..q][1..];
      DigitRunEndAt(s, p + 1, q);
    }
  }

  /** String.indexOf(c, from): the first index at or after `from` holding c, or -1. */
  function IndexOf(s: string, c: char, from: nat): (r: int)
    requires from <= |s|
    ensures r == -1 || from <= r < |s|
    decreases |s| - from
  {
    if from == |s| then -1
    else if s[from] == c then from
    else IndexOf(s, c, from + 1)
  }

  /** indexOf finds the first occurrence at or after `from`, and -1 means there is none. */
  lemma {:induction false} IndexOfFirst(s: string, c: char, from: nat)
    requires from <= |s|
    ensures IndexOf(s, c, from) == -1 ==> forall i :: from <= i < |s| ==> s[i] != c
    ensures IndexOf(s, c, from) >= 0 ==>
              s[IndexOf(s, c, from)] == c && forall i :: from <= i < IndexOf(s, c, from) ==> s[i] != c
    decreases |s| - from
  {
    if from < |s| && s[from] != c {
      IndexOfFirst(s, c, from + 1);
    }
  }

  /** String.startsWith(prefix, at): the prefix stands in s, character by
      character, from `at` on. */
  predicate StartsWith(s: string, prefix: string, at: nat)
    ensures StartsWith(s, prefix, at) <==>
              at + |prefix| <= |s| && forall i :: 0 <= i < |prefix| ==> s[at + i] == prefix[i]
  {
    at + |prefix| <= |s| && s[at..at + |prefix|] == prefix
  }

  function DigitValue(c: char): nat
    requires IsDigit(c)
  {
    (c as int) - ('0' as int)
  }

  /** The number a run of decimal digits denotes, most significant digit first:
      what Integer.parseInt returns when it does not overflow. */
  function DecimalValue(ds: string): (n: nat)
    requires AllDigits(ds)
    ensures n < Pow10(|ds|)
  {
    if ds == [] then 0
    else 10 * DecimalValue(ds[..|ds| - 1]) + DigitValue(ds[|ds| - 1])
  }

  function Pow10(k: nat): nat {
    if k == 0 then 1 else 10 * Pow10(k - 1)
  }

  /** The shortest decimal spelling of n: the partner of DecimalValue. */
  function Decimal(n: nat): (ds: string)
    ensures AllDigits(ds) && |ds| > 0
  {
    if n < 10 then [('0' as int + n) as char]
    else Decimal(n / 10) + [('0' as int + n % 10) as char]
  }

  lemma {:induction false} DecimalRoundTrip(n: nat)
    ensures DecimalValue(Decimal(n)) == n
  {
    var ds := Decimal(n);
    if n >= 10 {
      DecimalRoundTrip(n / 10);
      assert ds[..|ds| - 1] == Decimal(n / 10);
    }
  }

  /** Collections.reverse, as a function on the list's contents. */
  function Reversed<T>(xs: seq<T>): (r: seq<T>)
    ensures |r| == |xs|
  {
    if xs == [] then [] else Reversed(xs[1..]) + [xs[0]]
  }

  lemma {:induction false} ReversedAt<T>(xs: seq<T>, i: nat)
    requires i < |xs|
    ensures Reversed(xs)[i] == xs[|xs| - 1 - i]
  {
    if i < |xs| - 1 {
      ReversedAt(xs[1..], i);
    }
  }

  /** Reversing twice gives back the list: why parseArray's pop-then-reverse
      keeps the elements in source order. */
  lemma ReversedTwice<T>(xs: seq<T>)
    ensures Reversed(Reversed(xs)) == xs
  {
    var r := Reversed(xs);
    forall i | 0 <= i < |xs|
      ensures Reversed(r)[i] == xs[i]
    {
      ReversedAt(r, i);
      ReversedAt(xs, |xs| - 1 - i);
    }
  }
}
