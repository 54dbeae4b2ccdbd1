/** The inputs of the repository's tests and the edge cases of the grammar,
    each with what the parser and the recognizer make of it. */
module Examples {
  import opened JavaText
  import opened Json
  import opened ParserSpec
  import opened ParserFacts
  import opened Printer
  import opened Readback
  import opened Equivalence
  import R = RecognizerSpec

  /** The object inside the `data` array of the test document. */
  const Inner: Doc := Obj([("key", Str("value")), ("true", Bool(true)), ("false", Bool(false)), ("number", Num(2019)),
                           ("null", Null), ("array", Arr([])), ("object", Obj([]))])
  /** The document of JSONParserTest and JSONRecognizerTest. */
  const TestDoc: Doc := Obj([("metadata", Obj([("created", Str("1600"))])), ("data", Arr([Inner, Obj([])]))])

  /** The entries of the inner object, in the order of the text, and the
      HashMap the tests expect for it. */
  const InnerEntries: seq<(string, J)> :=
    [("key", JStr("value")), ("true", JBool(true)), ("false", JBool(false)), ("number", JNum(2019)),
     ("null", JNull), ("array", JArr([])), ("object", JObj(map[]))]

  const InnerTree: map<string, J> :=
    map["key" := JStr("value"), "true" := JBool(true), "false" := JBool(false), "number" := JNum(2019),
        "null" := JNull, "array" := JArr([]), "object" := JObj(map[])]

  /** Entries and Fold, one member at a time. */
  lemma EntriesFrom(ms: seq<(string, Doc)>, i: nat)
    requires i < |ms|
    ensures Entries(ms[i..]) == [(ms[i].0, Meaning(ms[i].1))] + Entries(ms[i + 1..])
  {
    assert ms[i..][1..] == ms[i + 1..];
  }

  lemma FoldFrom(xs: seq<(string, J)>, i: nat)
    requires i < |xs|
    ensures Fold(xs[i..]) == Fold(xs[i + 1..])[xs[i].0 := xs[i].1]
  {
    assert xs[i..][1..] == xs[i + 1..];
  }

  lemma InnerEntriesTail()
    ensures Entries(Inner.members[4..]) == InnerEntries[4..]
  {
    var ms := Inner.members;
    assert |ms| == 7 && ms[7..] == [];
    EntriesFrom(ms, 6);
    EntriesFrom(ms, 5);
    EntriesFrom(ms, 4);
  }

  lemma InnerEntriesAre()
    ensures Entries(Inner.members) == InnerEntries
  {
    var ms := Inner.members;
    InnerEntriesTail();
    EntriesFrom(ms, 3);
    EntriesFrom(ms, 2);
    EntriesFrom(ms, 1);
    EntriesFrom(ms, 0);
    assert ms[0..] == ms;
  }

  lemma InnerFoldTail()
    ensures Fold(InnerEntries[4..]) == map["null" := JNull, "array" := JArr([]), "object" := JObj(map[])]
  {
    var xs := InnerEntries;
    assert |xs| == 7 && xs[7..] == [];
    FoldFrom(xs, 6);
    FoldFrom(xs, 5);
    FoldFrom(xs, 4);
  }

  lemma InnerFoldMiddle()
    ensures Fold(InnerEntries[2..]) ==
              map["false" := JBool(false), "number" := JNum(2019), "null" := JNull, "array" := JArr([]), "object" := JObj(map[])]
  {
    var xs := InnerEntries;
    InnerFoldTail();
    FoldFrom(xs, 3);
    FoldFrom(xs, 2);
  }

  lemma InnerFoldRest()
    ensures Fold(InnerEntries[1..]) ==
              map["true" := JBool(true), "false" := JBool(false), "number" := JNum(2019), "null" := JNull,
                  "array" := JArr([]), "object" := JObj(map[])]
  {
    InnerFoldMiddle();
    FoldFrom(InnerEntries, 1);
  }

  lemma InnerFold()
    ensures Fold(InnerEntries) == InnerTree
  {
    var xs := InnerEntries;
    InnerFoldRest();
    FoldFrom(xs, 0);
    assert xs[0..] == xs;
    var rest := Fold(xs[1..]);
    assert Fold(xs) == rest["key" := JStr("value")];
    assert InnerTree == rest["key" := JStr("value")];
  }

  /** The inner object means the HashMap the tests build with `inner.put`. */
  lemma InnerMeaning()
    ensures Meaning(Inner) == JObj(InnerTree)
  {
    InnerEntriesAre();
    InnerFold();
  }

  /** The tree both tests of JSONParserTest expect. */
  const Expected: J :=
    JObj(map["metadata" := JObj(map["created" := JStr("1600")]), "data" := JArr([JObj(InnerTree), JObj(map[])])])

  lemma DataMeaning()
    ensures Meaning(Arr([Inner, Obj([])])) == JArr([JObj(InnerTree), JObj(map[])])
  {
    InnerMeaning();
    var items := [Inner, Obj([])];
    assert items[1..] == [Obj([])];
    assert Meaning(Obj([])) == JObj(map[]);
    assert Meanings([Obj([])]) == [JObj(map[])];
    assert Meanings(items) == [JObj(InnerTree)] + [JObj(map[])];
  }

  lemma TestEntries()
    ensures Entries(TestDoc.members) ==
              [("metadata", JObj(map["created" := JStr("1600")])), ("data", JArr([JObj(InnerTree), JObj(map[])]))]
  {
    var ms := TestDoc.members;
    assert ms[2..] == [];
    EntriesFrom(ms, 1);
    EntriesFrom(ms, 0);
    assert ms[0..] == ms;
    DataMeaning();
    assert Meaning(ms[0].1) == JObj(map["created" := JStr("1600")]);
  }

  lemma TestTree()
    ensures Meaning(TestDoc) == Expected
  {
    TestEntries();
    var xs := Entries(TestDoc.members);
    assert xs[2..] == [];
    FoldFrom(xs, 1);
    FoldFrom(xs, 0);
    assert xs[0..] == xs;
  }

  /** The compact test input has no whitespace at all; the pretty one puts a
      newline and two spaces per level before every entry and closer, and one
      space after every colon. */
  const Compact: Layout := Layout("", "", "")
  const Pretty: Layout := Layout("\n", "  ", " ")

  /** One more member in front of a printable tail. */
  lemma MembersFrom(ms: seq<(string, Doc)>, i: nat)
    requires i < |ms| && '"' !in ms[i].0 && Printable(ms[i].1) && MembersPrintable(ms[i + 1..])
    ensures MembersPrintable(ms[i..])
  {
    assert ms[i..][1..] == ms[i + 1..];
  }

  lemma InnerTailPrintable()
    ensures MembersPrintable(Inner.members[4..])
  {
    var ms := Inner.members;
    assert |ms| == 7 && ms[7..] == [];
    MembersFrom(ms, 6);
    MembersFrom(ms, 5);
    MembersFrom(ms, 4);
  }

  lemma InnerPrintable()
    ensures Printable(Inner)
  {
    var ms := Inner.members;
    InnerTailPrintable();
    MembersFrom(ms, 3);
    MembersFrom(ms, 2);
    MembersFrom(ms, 1);
    MembersFrom(ms, 0);
    assert ms[0..] == ms;
  }

  lemma DataPrintable()
    ensures Printable(Arr([Inner, Obj([])]))
  {
    InnerPrintable();
    assert ItemsPrintable([Obj([])]);
  }

  /** The test document can be printed in both layouts and read back. */
  lemma TestDocPrintable()
    ensures Printable(TestDoc) && Fits(Compact) && Fits(Pretty)
  {
    DataPrintable();
    assert Printable(Obj([("created", Str("1600"))]));
    assert MembersPrintable(TestDoc.members[1..]);
  }

  /** Both test inputs are read as the tree the tests expect. */
  lemma TestInputs()
    ensures Value(Print(TestDoc, Compact, 0), 0) == Success(Expected, |Print(TestDoc, Compact, 0)|)
    ensures Value(Print(TestDoc, Pretty, 0), 0) == Success(Expected, |Print(TestDoc, Pretty, 0)|)
  {
    TestDocPrintable();
    TestTree();
    PrintedParses(TestDoc, Compact);
    PrintedParses(TestDoc, Pretty);
  }

  /** Empty containers: the list loops succeed with nothing. */
  lemma EmptyObjectText()
    ensures Value("{}", 0) == Success(JObj(map[]), 2)
  {
  }

  lemma EmptyArrayText()
    ensures Value("[ ]", 0) == Success(JArr([]), 3)
  {
  }

  /** What follows the value is not looked at. */
  lemma TrailingInput()
    ensures Value("[]x", 0) == Success(JArr([]), 2)
  {
  }

  /** Whitespace is skipped before a container but not before a scalar. */
  lemma LeadingBeforeArray()
    ensures Value(" []", 0) == Success(JArr([]), 3)
  {
  }

  lemma LeadingBeforeNumber()
    ensures Value(" 1", 0) == Failure
  {
  }

  /** `null` is read as the Java null, which parse also returns when nothing
      matches: the two cannot be told apart. */
  lemma NullOrNothing()
    ensures Value("null", 0) == Success(JNull, 4)
    ensures Value("x", 0) == Failure
  {
  }

  /** charAt reads past the end of a truncated input, in both classes. */
  lemma FaultEmpty()
    ensures Value("", 0) == Exception && R.Value("", 0) == Exception
  {
  }

  lemma FaultUnclosed()
    ensures Value("[", 0) == Exception && R.Value("[", 0) == Exception
    ensures Value("{", 0) == Exception
  {
  }

  lemma FaultAfterItem()
    ensures Value("[1", 0) == Exception
    ensures R.Value("[1", 0) == Exception
  {
  }

  lemma FaultAfterComma()
    ensures Value("[1,", 0) == Exception
  {
  }

  lemma RecognizerFaultAfterComma()
    ensures R.Value("[1,", 0) == Exception
  {
  }

  /** A comma before the closing bracket: the value after it fails, the loop
      stops before the comma, and `]` is not there; the failure goes up to the
      top in both classes. */
  lemma TrailingCommaRejected()
    ensures Value("[1,]", 0) == Failure && R.Value("[1,]", 0) == Failure
  {
    var s := "[1,]";
    assert SkipWs(s, 0) == 0 && SkipWs(s, 1) == 1 && SkipWs(s, 2) == 2 && SkipWs(s, 3) == 3;
    assert Value(s, 3) == Failure && R.Value(s, 3) == Failure;
    assert NextValue(s, 2) == Failure && R.NextValue(s, 2) == Failure;
    assert MoreValues(s, 2) == Success([], 2) && R.MoreValues(s, 2) == Success((), 2);
    assert Value(s, 1) == Success(JNum(1), 2) && R.Value(s, 1) == Success((), 2);
    assert Values(s, 1) == Prepend([JNum(1)], MoreValues(s, 2));
    assert R.Values(s, 1) == R.MoreValues(s, 2);
    assert Bracketed(s, 0) == Failure && R.Array(s, 0) == Failure;
  }

  /** The same for a comma before the closing brace. */
  lemma TrailingCommaInObjectRejected()
    ensures Value("{\"a\":1,}", 0) == Failure && R.Value("{\"a\":1,}", 0) == Failure
  {
    var s := "{\"a\":1,}";
    assert SkipWs(s, 0) == 0 && SkipWs(s, 1) == 1 && SkipWs(s, 4) == 4 && SkipWs(s, 5) == 5;
    assert SkipWs(s, 6) == 6 && SkipWs(s, 7) == 7;
    assert Pair(s, 7) == Failure && R.Pair(s, 7) == Failure;
    assert NextPair(s, 6) == Failure && R.NextPair(s, 6) == Failure;
    assert MorePairs(s, 6) == Success([], 6) && R.MorePairs(s, 6) == Success((), 6);
    assert IndexOf(s, '"', 2) == 3 && s[2..3] == "a";
    assert StringLit(s, 1) == Success("a", 4) && R.StringLit(s, 1) == Success((), 4);
    assert Value(s, 5) == Success(JNum(1), 6) && R.Value(s, 5) == Success((), 6);
    assert Pair(s, 1) == Success(("a", JNum(1)), 6) && R.Pair(s, 1) == Success((), 6);
    assert Pairs(s, 1) == Prepend([("a", JNum(1))], MorePairs(s, 6));
    assert R.Pairs(s, 1) == R.MorePairs(s, 6);
    assert Braced(s, 0) == Failure && R.Object(s, 0) == Failure;
  }

  /** A digit run above Integer.MAX_VALUE inside a string literal. */
  const BigStr: string := "[\"2147483648\"]"

  /** The text has an overflowing run: parseInt would throw at its third
      character. */
  lemma BigStrOverflows()
    ensures !NoOverflow(BigStr)
  {
    var s := BigStr;
    BigDecimal();
    assert s[2..12] == Big && !IsDigit(s[12]);
    NumberReadsDecimal(s, 2, 2147483648);
    assert Number(s, 2) == Exception;
  }

  /** The parser reads it as a list holding one string. */
  lemma BigStrParsed()
    ensures Value(BigStr, 0) == Success(JArr([JStr(Big)]), 14)
  {
    var s := BigStr;
    assert SkipWs(s, 0) == 0 && SkipWs(s, 1) == 1 && SkipWs(s, 13) == 13 && SkipWs(s, 14) == 14;
    assert IndexOf(s, '"', 2) == 12 && s[2..12] == Big;
    assert StringLit(s, 1) == Success(Big, 13);
    assert Value(s, 1) == Success(JStr(Big), 13);
    assert NextValue(s, 13) == Failure;
    assert MoreValues(s, 13) == Success([], 13);
    assert [JStr(Big)] + [] == [JStr(Big)];
    assert Values(s, 1) == Success([JStr(Big)], 13);
    assert Char(s, 0, '[') == Success((), 1) && Char(s, 13, ']') == Success((), 14);
    assert Bracketed(s, 0) == Success([JStr(Big)], 14);
  }

  /** The recognizer accepts it, at the same end. */
  lemma BigStrRecognized()
    ensures R.Value(BigStr, 0) == Success((), 14)
  {
    var s := BigStr;
    assert SkipWs(s, 0) == 0 && SkipWs(s, 1) == 1 && SkipWs(s, 13) == 13 && SkipWs(s, 14) == 14;
    assert IndexOf(s, '"', 2) == 12;
    assert R.StringLit(s, 1) == Success((), 13);
    assert R.Value(s, 1) == Success((), 13);
    assert R.NextValue(s, 13) == Failure;
    assert R.MoreValues(s, 13) == Success((), 13);
    assert R.Values(s, 1) == Success((), 13);
    assert R.Array(s, 0) == Success((), 14);
  }

  /** Yet both classes read it, and they agree: the run is inside a string. */
  lemma BigInString()
    ensures !NoOverflow(BigStr)
    ensures Value(BigStr, 0) == Success(JArr([JStr(Big)]), 14)
    ensures R.Value(BigStr, 0) == Success((), 14)
  {
    BigStrOverflows();
    BigStrParsed();
    BigStrRecognized();
  }

  /** A key given twice. */
  const Twice: string := "{\"k\":1,\"k\":2}"
  const TwiceDoc: Doc := Obj([("k", Num(1)), ("k", Num(2))])

  lemma TwicePrinted()
    ensures Printable(TwiceDoc) && Print(TwiceDoc, Compact, 0) == Twice
  {
    assert Decimal(1) == "1" && Decimal(2) == "2";
    assert Break(Compact, 0) == "" && Break(Compact, 1) == "";
    assert PrintMembers(TwiceDoc.members[1..], Compact, 1) == ",\"k\":2";
  }

  lemma TwiceMeaning()
    ensures Meaning(TwiceDoc) == JObj(map["k" := JNum(1)])
  {
    var ms := TwiceDoc.members;
    assert ms[2..] == [];
    EntriesFrom(ms, 1);
    EntriesFrom(ms, 0);
    assert ms[0..] == ms;
  }

  /** For a repeated key the first member wins: the value of `k` is 1. */
  lemma FirstKeyWins()
    ensures Value(Twice, 0) == Success(JObj(map["k" := JNum(1)]), 13)
  {
    TwicePrinted();
    TwiceMeaning();
    PrintedParses(TwiceDoc, Compact);
  }

  const Big: string := "2147483648"

  /** Integer.MAX_VALUE + 1 is refused by Integer.parseInt. */
  lemma BigDecimal()
    ensures Decimal(2147483648) == Big
  {
    assert Decimal(214) == "214";
    assert Decimal(214748) == "214748";
    assert Decimal(214748364) == "214748364";
  }

  lemma BigThrows()
    ensures Number(Big, 0) == Exception
  {
    BigDecimal();
    NumberReadsDecimal(Big, 0, 2147483648);
  }

  /** On Integer.MAX_VALUE + 1 the parser throws and the recognizer accepts. */
  lemma Overflow()
    ensures Value(Big, 0) == Exception
    ensures R.Value(Big, 0).Success?
  {
    BigThrows();
    OverflowDiverges(Big, 0);
  }
}
