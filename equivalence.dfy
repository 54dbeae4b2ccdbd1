/** JSONRecognizer and JSONParser run the same grammar: on a text with no
    digit run above Integer.MAX_VALUE, rule for rule, the recognizer matches
    exactly where the parser matches and ends at the same cursor, fails where
    the parser fails and throws where the parser throws. Such a digit run,
    which Integer.parseInt refuses, is the one way the parser throws where the
    recognizer does not. */
module Equivalence {
  import opened JavaText
  import opened Json
  import P = ParserSpec
  import R = RecognizerSpec

  /** No digit run of the text is above Integer.MAX_VALUE: the only way the
      parser throws where the recognizer does not is ruled out. */
  predicate NoOverflow(s: string) {
    forall i :: 0 <= i <= |s| ==> !P.Number(s, i).Exception?
  }

  lemma StringLitAgrees(s: string, p: nat)
    requires p <= |s|
    ensures R.StringLit(s, p) == Erase(P.StringLit(s, p))
  {
  }

  /** A digit run above Integer.MAX_VALUE: the parser throws, the recognizer
      reads the whole run as a number. */
  lemma OverflowDiverges(s: string, p: nat)
    requires p <= |s| && P.Number(s, p).Exception?
    ensures P.Value(s, p) == Exception
    ensures R.Value(s, p) == Success((), DigitRunEnd(s, p))
  {
  }

  lemma {:induction false} ValueAgrees(s: string, p: nat)
    requires p <= |s|
    requires NoOverflow(s)
    ensures R.Value(s, p) == Erase(P.Value(s, p))
    decreases |s| - p, 2
  {
    StringLitAgrees(s, p);
    if P.StringLit(s, p).Failure? && P.Number(s, p).Failure? {
      if !P.Literal(s, p, "null", JNull).Success? && !P.Literal(s, p, "true", JBool(true)).Success?
         && !P.Literal(s, p, "false", JBool(false)).Success? {
        BracedAgrees(s, p);
        if P.Braced(s, p).Failure? {
          BracketedAgrees(s, p);
        }
      }
    }
  }

  lemma {:induction false} BracedAgrees(s: string, p: nat)
    requires p <= |s|
    requires NoOverflow(s)
    ensures R.Object(s, p) == Erase(P.Braced(s, p))
    decreases |s| - p, 0
  {
    var q := SkipWs(s, p);
    if Char(s, q, '{').Success? {
      var first := SkipWs(s, q + 1);
      PairsAgrees(s, first);
    }
  }

  lemma {:induction false} PairAgrees(s: string, p: nat)
    requires p <= |s|
    requires NoOverflow(s)
    ensures R.Pair(s, p) == Erase(P.Pair(s, p))
    decreases |s| - p, 0
  {
    StringLitAgrees(s, p);
    if P.StringLit(s, p).Success? {
      var k := SkipWs(s, P.StringLit(s, p).end);
      if Char(s, k, ':').Success? {
        ValueAgrees(s, SkipWs(s, k + 1));
      }
    }
  }

  lemma {:induction false} PairsAgrees(s: string, p: nat)
    requires p <= |s|
    requires NoOverflow(s)
    ensures R.Pairs(s, p) == Erase(P.Pairs(s, p))
    decreases |s| - p, 1
  {
    PairAgrees(s, p);
    if P.Pair(s, p).Success? {
      MorePairsAgrees(s, P.Pair(s, p).end);
    }
  }

  lemma {:induction false} NextPairAgrees(s: string, p: nat)
    requires p <= |s|
    requires NoOverflow(s)
    ensures R.NextPair(s, p) == Erase(P.NextPair(s, p))
    decreases |s| - p, 0
  {
    var q := SkipWs(s, p);
    if Char(s, q, ',').Success? {
      var a := SkipWs(s, q + 1);
      PairAgrees(s, a);
      if P.Pair(s, a).Success? {
        assert R.NextPair(s, p) == Success((), SkipWs(s, P.Pair(s, a).end));
      }
    }
  }

  lemma {:induction false} MorePairsAgrees(s: string, p: nat)
    requires p <= |s|
    requires NoOverflow(s)
    ensures R.MorePairs(s, p) == Erase(P.MorePairs(s, p))
    decreases |s| - p, 1
  {
    NextPairAgrees(s, p);
    if P.NextPair(s, p).Success? {
      MorePairsAgrees(s, P.NextPair(s, p).end);
    }
  }

  lemma {:induction false} BracketedAgrees(s: string, p: nat)
    requires p <= |s|
    requires NoOverflow(s)
    ensures R.Array(s, p) == Erase(P.Bracketed(s, p))
    decreases |s| - p, 0
  {
    var q := SkipWs(s, p);
    if Char(s, q, '[').Success? {
      var first := SkipWs(s, q + 1);
      ValuesAgrees(s, first);
    }
  }

  lemma {:induction false} ValuesAgrees(s: string, p: nat)
    requires p <= |s|
    requires NoOverflow(s)
    ensures R.Values(s, p) == Erase(P.Values(s, p))
    decreases |s| - p, 3
  {
    ValueAgrees(s, p);
    if P.Value(s, p).Success? {
      MoreValuesAgrees(s, P.Value(s, p).end);
    }
  }

  lemma {:induction false} NextValueAgrees(s: string, p: nat)
    requires p <= |s|
    requires NoOverflow(s)
    ensures R.NextValue(s, p) == Erase(P.NextValue(s, p))
    decreases |s| - p, 0
  {
    var q := SkipWs(s, p);
    if Char(s, q, ',').Success? {
      var a := SkipWs(s, q + 1);
      ValueAgrees(s, a);
      if P.Value(s, a).Success? {
        assert R.NextValue(s, p) == Success((), SkipWs(s, P.Value(s, a).end));
      }
    }
  }

  lemma {:induction false} MoreValuesAgrees(s: string, p: nat)
    requires p <= |s|
    requires NoOverflow(s)
    ensures R.MoreValues(s, p) == Erase(P.MoreValues(s, p))
    decreases |s| - p, 1
  {
    NextValueAgrees(s, p);
    if P.NextValue(s, p).Success? {
      MoreValuesAgrees(s, P.NextValue(s, p).end);
    }
  }

  /** The same simulation, rule for rule, wherever the parser's rule does not
      throw: a digit run above Integer.MAX_VALUE elsewhere in the text, inside
      a string literal or after the value, does not matter. */
  lemma {:induction false} ValueAgreesUnthrown(s: string, p: nat)
    requires p <= |s|
    requires !P.Value(s, p).Exception?
    ensures R.Value(s, p) == Erase(P.Value(s, p))
    decreases |s| - p, 2
  {
    StringLitAgrees(s, p);
    if P.StringLit(s, p).Failure? && P.Number(s, p).Failure? {
      if !P.Literal(s, p, "null", JNull).Success? && !P.Literal(s, p, "true", JBool(true)).Success?
         && !P.Literal(s, p, "false", JBool(false)).Success? {
        BracedAgreesUnthrown(s, p);
        if P.Braced(s, p).Failure? {
          BracketedAgreesUnthrown(s, p);
        }
      }
    }
  }

  lemma {:induction false} BracedAgreesUnthrown(s: string, p: nat)
    requires p <= |s|
    requires !P.Braced(s, p).Exception?
    ensures R.Object(s, p) == Erase(P.Braced(s, p))
    decreases |s| - p, 0
  {
    var q := SkipWs(s, p);
    if Char(s, q, '{').Success? {
      var first := SkipWs(s, q + 1);
      PairsAgreesUnthrown(s, first);
    }
  }

  lemma {:induction false} PairAgreesUnthrown(s: string, p: nat)
    requires p <= |s|
    requires !P.Pair(s, p).Exception?
    ensures R.Pair(s, p) == Erase(P.Pair(s, p))
    decreases |s| - p, 0
  {
    StringLitAgrees(s, p);
    if P.StringLit(s, p).Success? {
      var k := SkipWs(s, P.StringLit(s, p).end);
      if Char(s, k, ':').Success? {
        ValueAgreesUnthrown(s, SkipWs(s, k + 1));
      }
    }
  }

  lemma {:induction false} PairsAgreesUnthrown(s: string, p: nat)
    requires p <= |s|
    requires !P.Pairs(s, p).Exception?
    ensures R.Pairs(s, p) == Erase(P.Pairs(s, p))
    decreases |s| - p, 1
  {
    PairAgreesUnthrown(s, p);
    if P.Pair(s, p).Success? {
      MorePairsAgreesUnthrown(s, P.Pair(s, p).end);
    }
  }

  lemma {:induction false} NextPairAgreesUnthrown(s: string, p: nat)
    requires p <= |s|
    requires !P.NextPair(s, p).Exception?
    ensures R.NextPair(s, p) == Erase(P.NextPair(s, p))
    decreases |s| - p, 0
  {
    var q := SkipWs(s, p);
    if Char(s, q, ',').Success? {
      var a := SkipWs(s, q + 1);
      PairAgreesUnthrown(s, a);
      if P.Pair(s, a).Success? {
        assert R.NextPair(s, p) == Success((), SkipWs(s, P.Pair(s, a).end));
      }
    }
  }

  lemma {:induction false} MorePairsAgreesUnthrown(s: string, p: nat)
    requires p <= |s|
    requires !P.MorePairs(s, p).Exception?
    ensures R.MorePairs(s, p) == Erase(P.MorePairs(s, p))
    decreases |s| - p, 1
  {
    NextPairAgreesUnthrown(s, p);
    if P.NextPair(s, p).Success? {
      MorePairsAgreesUnthrown(s, P.NextPair(s, p).end);
    }
  }

  lemma {:induction false} BracketedAgreesUnthrown(s: string, p: nat)
    requires p <= |s|
    requires !P.Bracketed(s, p).Exception?
    ensures R.Array(s, p) == Erase(P.Bracketed(s, p))
    decreases |s| - p, 0
  {
    var q := SkipWs(s, p);
    if Char(s, q, '[').Success? {
      var first := SkipWs(s, q + 1);
      ValuesAgreesUnthrown(s, first);
    }
  }

  lemma {:induction false} ValuesAgreesUnthrown(s: string, p: nat)
    requires p <= |s|
    requires !P.Values(s, p).Exception?
    ensures R.Values(s, p) == Erase(P.Values(s, p))
    decreases |s| - p, 3
  {
    ValueAgreesUnthrown(s, p);
    if P.Value(s, p).Success? {
      MoreValuesAgreesUnthrown(s, P.Value(s, p).end);
    }
  }

  lemma {:induction false} NextValueAgreesUnthrown(s: string, p: nat)
    requires p <= |s|
    requires !P.NextValue(s, p).Exception?
    ensures R.NextValue(s, p) == Erase(P.NextValue(s, p))
    decreases |s| - p, 0
  {
    var q := SkipWs(s, p);
    if Char(s, q, ',').Success? {
      var a := SkipWs(s, q + 1);
      ValueAgreesUnthrown(s, a);
      if P.Value(s, a).Success? {
        assert R.NextValue(s, p) == Success((), SkipWs(s, P.Value(s, a).end));
      }
    }
  }

  lemma {:induction false} MoreValuesAgreesUnthrown(s: string, p: nat)
    requires p <= |s|
    requires !P.MoreValues(s, p).Exception?
    ensures R.MoreValues(s, p) == Erase(P.MoreValues(s, p))
    decreases |s| - p, 1
  {
    NextValueAgreesUnthrown(s, p);
    if P.NextValue(s, p).Success? {
      MoreValuesAgreesUnthrown(s, P.NextValue(s, p).end);
    }
  }

  /** recognize against parse: on a text with no overflowing digit run, the
      recognizer throws exactly where the parser throws, and returns true
      exactly where the parser returns a value it matched. */
  lemma RecognizeMatchesParse(s: string)
    requires NoOverflow(s)
    ensures R.Value(s, 0).Exception? <==> P.Value(s, 0).Exception?
    ensures R.Value(s, 0).Success? <==> P.Value(s, 0).Success?
  {
    ValueAgrees(s, 0);
  }

  /** recognize against parse on every text: the recognizer throws only where
      the parser throws, and where the parser does not throw, the recognizer
      returns true exactly where parse returns a value it matched. */
  lemma RecognizeAgainstParse(s: string)
    ensures R.Value(s, 0).Exception? ==> P.Value(s, 0).Exception?
    ensures P.Value(s, 0).Success? ==> R.Value(s, 0).Success?
    ensures P.Value(s, 0).Failure? ==> R.Value(s, 0).Failure?
  {
    if !P.Value(s, 0).Exception? {
      ValueAgreesUnthrown(s, 0);
    }
  }
}
