/** What the rules of JSONParser accept, stated against the input text rather
    than against the rules themselves. */
module ParserFacts {
  import opened JavaText
  import opened Json
  import opened ParserSpec

  /** parseStringLit yields exactly the characters strictly between the quote
      at the cursor and the next quote, with no escapes, and fails exactly when
      one of the two quotes is missing. */
  lemma StringLitContent(s: string, p: nat)
    requires p <= |s|
    ensures StringLit(s, p).Success? ==>
              && s[StringLit(s, p).end - 1] == '"'
              && StringLit(s, p).value == s[p + 1..StringLit(s, p).end - 1]
              && '"' !in StringLit(s, p).value
    ensures StringLit(s, p).Failure? <==> p < |s| && (s[p] != '"' || '"' !in s[p + 1..])
  {
    if p < |s| && s[p] == '"' {
      IndexOfFirst(s, '"', p + 1);
      var e := IndexOf(s, '"', p + 1);
      if e == -1 {
      } else {
        assert s[p + 1..][e - p - 1] == '"';
        var v := s[p + 1..e];
        forall i | 0 <= i < |v| ensures v[i] != '"' {
          assert v[i] == s[p + 1 + i];
        }
      }
    }
  }

  /** A quoted run with no quote inside is read as exactly that run. */
  lemma QuotedAt(s: string, p: nat, t: string)
    requires '"' !in t && StartsWith(s, "\"" + t + "\"", p)
    ensures StringLit(s, p) == Success(t, p + |t| + 2)
  {
    var w := "\"" + t + "\"";
    var quote := p + |t| + 1;
    var u := s[p..p + |w|];
    assert u == w;
    assert s[p] == u[0] == w[0] == '"';
    assert s[quote] == u[|t| + 1] == w[|t| + 1] == '"';
    forall i | 0 <= i < |t| ensures s[p + 1 + i] == t[i] {
      assert s[p + 1 + i] == u[1 + i] == w[1 + i] == t[i];
    }
    IndexOfFirst(s, '"', p + 1);
    forall i | p + 1 <= i < quote ensures s[i] != '"' {
      assert s[p + 1 + (i - p - 1)] == t[i - p - 1];
    }
    assert IndexOf(s, '"', p + 1) == quote;
    var v := s[p + 1..quote];
    forall i | 0 <= i < |t| ensures v[i] == t[i] {
      assert v[i] == s[p + 1 + i];
    }
    assert v == t;
  }

  /** parseNumber reads the maximal run of digits at the cursor, at least one,
      and yields its decimal value; it throws when that value exceeds
      Integer.MAX_VALUE. */
  lemma NumberContent(s: string, p: nat)
    requires p <= |s|
    ensures Number(s, p).Success? ==>
              && AllDigits(s[p..Number(s, p).end])
              && (Number(s, p).end == |s| || !IsDigit(s[Number(s, p).end]))
              && Number(s, p).value == DecimalValue(s[p..Number(s, p).end]) <= MaxInt
    ensures Number(s, p).Exception? <==>
              && AllDigits(s[p..DigitRunEnd(s, p)])
              && p < DigitRunEnd(s, p)
              && DecimalValue(s[p..DigitRunEnd(s, p)]) > MaxInt
  {
    DigitRunMaximal(s, p);
  }

  /** The decimal spelling of n, followed by anything but a digit, reads back
      as n, or throws when n is above Integer.MAX_VALUE. */
  lemma NumberReadsDecimal(s: string, p: nat, n: nat)
    requires p + |Decimal(n)| <= |s| && s[p..p + |Decimal(n)|] == Decimal(n)
    requires p + |Decimal(n)| == |s| || !IsDigit(s[p + |Decimal(n)|])
    ensures n <= MaxInt ==> Number(s, p) == Success(n, p + |Decimal(n)|)
    ensures n > MaxInt ==> Number(s, p) == Exception
  {
    DigitRunEndAt(s, p, p + |Decimal(n)|);
    DecimalRoundTrip(n);
  }

  /** A word the text starts with at p begins with the character at p. */
  lemma StartsWithHead(s: string, w: string, p: nat)
    requires |w| > 0 && StartsWith(s, w, p)
    ensures s[p] == w[0]
  {
    assert s[p..p + |w|][0] == s[p];
  }

  /** None of the three literals starts at p when s[p] is not their initial. */
  lemma NoLiteralAt(s: string, p: nat)
    requires p < |s| && s[p] !in {'n', 't', 'f'}
    ensures !StartsWith(s, "null", p) && !StartsWith(s, "true", p) && !StartsWith(s, "false", p)
  {
    if StartsWith(s, "null", p) { StartsWithHead(s, "null", p); }
    if StartsWith(s, "true", p) { StartsWithHead(s, "true", p); }
    if StartsWith(s, "false", p) { StartsWithHead(s, "false", p); }
  }

  /** No rule starting at a closing bracket, a closing brace or a comma
      matches anything. */
  lemma NothingStartsAtCloser(s: string, p: nat)
    requires p < |s| && s[p] in {']', '}', ','}
    ensures Value(s, p) == Failure && Pair(s, p) == Failure
  {
    assert SkipWs(s, p) == p;
    NoLiteralAt(s, p);
    assert StringLit(s, p) == Failure;
    assert Number(s, p) == Failure;
    assert Braced(s, p) == Failure;
    assert Object(s, p) == Failure;
    assert Bracketed(s, p) == Failure;
    assert Array(s, p) == Failure;
  }

  /** An empty object: `{`, then nothing but whitespace before `}`. */
  lemma EmptyObject(s: string, p: nat, open: nat, close: nat)
    requires p <= open < close < |s|
    requires open == SkipWs(s, p) && s[open] == '{'
    requires close == SkipWs(s, open + 1) && s[close] == '}'
    ensures Object(s, p) == Success(JObj(map[]), SkipWs(s, close + 1))
  {
    NothingStartsAtCloser(s, close);
    assert SkipWs(s, close) == close;
    assert Pairs(s, close) == Success([], close);
    assert Braced(s, p) == Success([], SkipWs(s, close + 1));
  }

  /** An empty array: `[`, then nothing but whitespace before `]`. */
  lemma EmptyArray(s: string, p: nat, open: nat, close: nat)
    requires p <= open < close < |s|
    requires open == SkipWs(s, p) && s[open] == '['
    requires close == SkipWs(s, open + 1) && s[close] == ']'
    ensures Array(s, p) == Success(JArr([]), SkipWs(s, close + 1))
  {
    NothingStartsAtCloser(s, close);
    assert SkipWs(s, close) == close;
    assert Values(s, close) == Success([], close);
    assert Bracketed(s, p) == Success([], SkipWs(s, close + 1));
  }

  /** No whitespace is skipped before a scalar: from a whitespace character
      only an object or an array can be matched. */
  lemma LeadingWhitespace(s: string, p: nat)
    requires p < |s| && IsWhitespace(s[p])
    ensures Value(s, p).Success? ==> Value(s, p).value.JObj? || Value(s, p).value.JArr?
  {
    NoLiteralAt(s, p);
  }

  /** A comma followed by a closing bracket or brace ends the loops of
      parsePairs and parseValues before the comma, so the closing check that
      follows sees the comma and fails. */
  lemma TrailingCommaEndsList(s: string, q: nat, comma: nat, next: nat)
    requires q <= comma < next < |s|
    requires comma == SkipWs(s, q) && s[comma] == ','
    requires next == SkipWs(s, comma + 1) && s[next] in {']', '}'}
    ensures MoreValues(s, q) == Success([], q)
    ensures MorePairs(s, q) == Success([], q)
  {
    NothingStartsAtCloser(s, next);
  }

  /** A key followed by anything but `:` makes the object fail, and an input
      that opens with such an object is rejected whatever follows: the
      `{"metadata""created"…` input of the tests. */
  lemma MissingColon(s: string, key: string)
    requires '"' !in key
    requires 4 + |key| <= |s| && StartsWith(s, "{" + "\"" + key + "\"", 0)
    requires s[3 + |key|] != ':' && !IsWhitespace(s[3 + |key|])
    ensures Value(s, 0) == Failure
  {
    var w := "{" + "\"" + key + "\"";
    assert s[1..3 + |key|] == w[1..] == "\"" + key + "\"";
    QuotedAt(s, 1, key);
    assert SkipWs(s, 3 + |key|) == 3 + |key|;
    assert Pair(s, 1) == Failure;
    assert s[0] == w[0] == '{';
    assert SkipWs(s, 0) == 0 && SkipWs(s, 1) == 1;
    assert Braced(s, 0) == Failure;
    assert Bracketed(s, 0) == Failure;
    NoLiteralAt(s, 0);
  }
}
