/** Printed documents read back: where the text Print gives for a document
    stands in a string, parseValue reads it as the document's meaning. This
    is the sense in which the parser ignores the whitespace a Layout puts
    between tokens, and it is how concrete inputs are checked against the
    trees they should produce. */
module Readback {
  import opened JavaText
  import opened Json
  import opened ParserSpec
  import opened ParserFacts
  import opened Printer

  /** n characters of whitespace stand in s from p on. */
  predicate WsRun(s: string, p: nat, n: nat) {
    p + n <= |s| && forall i :: p <= i < p + n ==> IsWhitespace(s[i])
  }

  /** A run of whitespace in front of p is skipped as if the cursor started
      after it. */
  lemma {:induction false} SkipRun(s: string, p: nat, n: nat)
    requires WsRun(s, p, n)
    ensures SkipWs(s, p) == SkipWs(s, p + n)
    decreases n
  {
    if n > 0 {
      assert IsWhitespace(s[p]);
      SkipRun(s, p + 1, n - 1);
    }
  }

  lemma SkipWsTwice(s: string, p: nat)
    requires p <= |s|
    ensures SkipWs(s, SkipWs(s, p)) == SkipWs(s, p)
  {
    SkipWsStops(s, p);
  }

  /** What follows the text of a list's items: whitespace, then `close`. */
  predicate ClosedBy(s: string, q: nat, close: char) {
    q <= |s| && SkipWs(s, q) < |s| && s[SkipWs(s, q)] == close
  }

  /** The cursor q ends a token: a number read up to q stops there. */
  predicate Delimited(s: string, q: nat) {
    q >= |s| || !IsDigit(s[q])
  }

  /** Where parseValue stops after a value whose text ends at q: right there
      after a scalar, and past the whitespace that follows when the value is
      a container (deep). */
  function End(s: string, q: nat, deep: bool): (e: nat)
    requires q <= |s|
    ensures e <= |s| && SkipWs(s, e) == SkipWs(s, q)
  {
    if deep then SkipWsTwice(s, q); SkipWs(s, q) else q
  }

  /** Blank text standing in s is a run of whitespace. */
  lemma BlankRun(s: string, w: string, p: nat)
    requires Blank(w) && At(s, w, p)
    ensures WsRun(s, p, |w|)
  {
    forall i | p <= i < p + |w| ensures IsWhitespace(s[i]) {
      assert s[p + (i - p)] == w[i - p];
    }
  }

  /** The text of a non-empty container: the opener, blank text, the first
      entry, the rest, blank text and the closer. */
  lemma Framed(s: string, p: nat, open: string, br: string, body: string, more: string, last: string, close: string)
    requires |open| == 1 && |close| == 1 && Blank(br) && Blank(last)
    requires At(s, open + br + body + more + last + close, p)
    ensures p < |s| && s[p] == open[0] && WsRun(s, p + 1, |br|)
    ensures At(s, body, p + 1 + |br|) && At(s, more, p + 1 + |br| + |body|)
    ensures var c := p + 1 + |br| + |body| + |more|;
            WsRun(s, c, |last|) && c + |last| < |s| && s[c + |last|] == close[0]
  {
    Pieces(s, p, open, br, body, more, last, close);
    BlankRun(s, br, p + 1);
    BlankRun(s, last, p + 1 + |br| + |body| + |more|);
  }

  /** The text of a comma-led entry: `,`, blank text, the entry and the rest. */
  lemma Led(s: string, p: nat, br: string, body: string, more: string)
    requires Blank(br) && At(s, "," + br + body + more, p)
    ensures p < |s| && s[p] == ',' && WsRun(s, p + 1, |br|)
    ensures At(s, body, p + 1 + |br|) && At(s, more, p + 1 + |br| + |body|)
  {
    Turn(s, p, ",", br, body, more);
    BlankRun(s, br, p + 1);
  }

  /** Printed text begins with a token, never with whitespace. */
  lemma PrintHead(d: Doc, lay: Layout, k: nat)
    ensures |Print(d, lay, k)| > 0 && !IsWhitespace(Print(d, lay, k)[0])
  {
    match d
    case Num(n) => assert IsDigit(Decimal(n)[0]);
    case _ =>
  }

  lemma DocHead(s: string, p: nat, d: Doc, lay: Layout, k: nat)
    requires At(s, Print(d, lay, k), p)
    ensures p < |s| && !IsWhitespace(s[p])
  {
    PrintHead(d, lay, k);
    AtHead(s, Print(d, lay, k), p);
  }

  /** Whitespace, then a closer: the cursor stands on no digit, and skipping
      lands on the closer. */
  lemma RunThenCloser(s: string, c: nat, n: nat, close: char)
    requires WsRun(s, c, n) && c + n < |s| && s[c + n] == close && !IsWhitespace(close) && !IsDigit(close)
    ensures c < |s| && !IsDigit(s[c]) && SkipWs(s, c) == c + n && ClosedBy(s, c, close)
  {
    SkipRun(s, c, n);
    if n > 0 { assert IsWhitespace(s[c]); }
  }

  /** Whitespace, then a token: skipping lands on the token. */
  lemma RunThenToken(s: string, q: nat, n: nat)
    requires WsRun(s, q, n) && q + n < |s| && !IsWhitespace(s[q + n])
    ensures SkipWs(s, q) == q + n
  {
    SkipRun(s, q, n);
  }

  /** parseArray over `[`, whitespace, the first value, the turns of the
      loop, whitespace and `]`. */
  lemma ArrayStep(s: string, p: nat, a: nat, e: nat, c: nat)
    requires p < |s| && s[p] == '[' && a <= |s| && SkipWs(s, p + 1) == a
    requires Value(s, a).Success? && Value(s, a).end == e
    requires MoreValues(s, e).Success? && SkipWs(s, MoreValues(s, e).end) == c && c < |s| && s[c] == ']'
    ensures Array(s, p) == Success(JArr([Value(s, a).value] + MoreValues(s, e).value), SkipWs(s, c + 1))
  {
    ValuesStep(s, a, e);
    BracketedStep(s, p, a, [Value(s, a).value] + MoreValues(s, e).value, MoreValues(s, e).end, c);
  }

  /** parseValues over the first value and the turns of the loop. */
  lemma ValuesStep(s: string, a: nat, e: nat)
    requires a <= |s| && Value(s, a).Success? && Value(s, a).end == e && MoreValues(s, e).Success?
    ensures Values(s, a) == Success([Value(s, a).value] + MoreValues(s, e).value, MoreValues(s, e).end)
  {
  }

  /** `[`, the values read from a, and `]` after whitespace. */
  lemma BracketedStep(s: string, p: nat, a: nat, v: seq<J>, last: nat, c: nat)
    requires p < |s| && s[p] == '[' && a <= |s| && SkipWs(s, p + 1) == a
    requires Values(s, a) == Success(v, last) && SkipWs(s, last) == c && c < |s| && s[c] == ']'
    ensures Bracketed(s, p) == Success(v, SkipWs(s, c + 1))
  {
    assert SkipWs(s, p) == p;
    assert Char(s, p, '[') == Success((), p + 1);
    assert Char(s, c, ']') == Success((), c + 1);
  }

  lemma ObjectStep(s: string, p: nat, a: nat, e: nat, c: nat)
    requires p < |s| && s[p] == '{' && a <= |s| && SkipWs(s, p + 1) == a
    requires Pair(s, a).Success? && Pair(s, a).end == e
    requires MorePairs(s, e).Success? && SkipWs(s, MorePairs(s, e).end) == c && c < |s| && s[c] == '}'
    ensures Object(s, p) == Success(JObj(Fold([Pair(s, a).value] + MorePairs(s, e).value)), SkipWs(s, c + 1))
  {
    PairsStep(s, a, e);
    BracedStep(s, p, a, [Pair(s, a).value] + MorePairs(s, e).value, MorePairs(s, e).end, c);
  }

  /** parsePairs over the first pair and the turns of the loop. */
  lemma PairsStep(s: string, a: nat, e: nat)
    requires a <= |s| && Pair(s, a).Success? && Pair(s, a).end == e && MorePairs(s, e).Success?
    ensures Pairs(s, a) == Success([Pair(s, a).value] + MorePairs(s, e).value, MorePairs(s, e).end)
  {
  }

  /** `{`, the pairs read from a, and `}` after whitespace. */
  lemma BracedStep(s: string, p: nat, a: nat, v: seq<(string, J)>, last: nat, c: nat)
    requires p < |s| && s[p] == '{' && a <= |s| && SkipWs(s, p + 1) == a
    requires Pairs(s, a) == Success(v, last) && SkipWs(s, last) == c && c < |s| && s[c] == '}'
    ensures Braced(s, p) == Success(v, SkipWs(s, c + 1))
  {
    assert SkipWs(s, p) == p;
    assert Char(s, p, '{') == Success((), p + 1);
    assert Char(s, c, '}') == Success((), c + 1);
  }

  /** One turn of the loop in parseValues over `,`, whitespace and a value. */
  lemma NextValueStep(s: string, p: nat, a: nat, e: nat)
    requires p < |s| && s[p] == ',' && a <= |s| && SkipWs(s, p + 1) == a
    requires Value(s, a).Success? && SkipWs(s, Value(s, a).end) == e
    ensures MoreValues(s, p) == Prepend([Value(s, a).value], MoreValues(s, e))
  {
    assert SkipWs(s, p) == p;
    assert NextValue(s, p) == Success(Value(s, a).value, e);
  }

  lemma NextPairStep(s: string, p: nat, a: nat, e: nat)
    requires p < |s| && s[p] == ',' && a <= |s| && SkipWs(s, p + 1) == a
    requires Pair(s, a).Success? && SkipWs(s, Pair(s, a).end) == e
    ensures MorePairs(s, p) == Prepend([Pair(s, a).value], MorePairs(s, e))
  {
    assert SkipWs(s, p) == p;
    assert NextPair(s, p) == Success(Pair(s, a).value, e);
  }

  /** The loops stop, with nothing more, where the closer follows. */
  lemma ListStops(s: string, p: nat, close: char)
    requires p <= |s| && ClosedBy(s, p, close) && close != ','
    ensures MoreValues(s, p) == Success([], p)
    ensures MorePairs(s, p) == Success([], p)
  {
    assert NextValue(s, p) == Failure;
    assert NextPair(s, p) == Failure;
  }

  lemma ClosedByNoDigit(s: string, q: nat, close: char)
    requires ClosedBy(s, q, close) && !IsDigit(close)
    ensures q < |s| && !IsDigit(s[q])
  {
    SkipWsStops(s, q);
  }

  /** Where the first entry of a list ends, the loop over the rest begins: at
      the entry's end, or past the whitespace after it when nothing follows. */
  lemma AfterFirst(s: string, r: nat, e: nat, w: nat, close: char)
    requires r <= |s| && (e == r || e == SkipWs(s, r))
    requires w > 0 ==> SkipWs(s, r) == r
    requires ClosedBy(s, r + w, close)
    ensures w > 0 ==> e == r
    ensures ClosedBy(s, e + w, close) && SkipWs(s, e + w) == SkipWs(s, r + w)
  {
    SkipWsTwice(s, r);
  }

  /** The whitespace of a spelled non-empty list: what the parser's skips find
      after the opener (n1 wide), after the first entry (ending at r, deep when
      it is a container) and before the closer that follows the rest (w wide,
      then n0 of whitespace). */
  lemma ListFacts(s: string, p: nat, n1: nat, n0: nat, r: nat, w: nat, deep: bool, close: char) returns (e: nat)
    requires p < |s| && WsRun(s, p + 1, n1) && p + 1 + n1 < |s| && !IsWhitespace(s[p + 1 + n1])
    requires p + 1 + n1 <= r && WsRun(s, r + w, n0) && r + w + n0 < |s| && s[r + w + n0] == close
    requires close == ']' || close == '}'
    requires w > 0 ==> s[r] == ','
    ensures e == End(s, r, deep)
    ensures SkipWs(s, p + 1) == p + 1 + n1 && Delimited(s, r)
    ensures w > 0 ==> e == r
    ensures ClosedBy(s, e + w, close) && SkipWs(s, e + w) == r + w + n0
  {
    SkipRun(s, p + 1, n1);
    e := CloseFacts(s, r, w, n0, deep, close);
  }

  /** After the first entry of a list: the loop over the rest starts at e and
      finds the closer past n0 characters of whitespace. */
  lemma CloseFacts(s: string, r: nat, w: nat, n0: nat, deep: bool, close: char) returns (e: nat)
    requires WsRun(s, r + w, n0) && r + w + n0 < |s| && s[r + w + n0] == close
    requires close == ']' || close == '}'
    requires w > 0 ==> r < |s| && s[r] == ','
    ensures e == End(s, r, deep)
    ensures Delimited(s, r)
    ensures w > 0 ==> e == r
    ensures ClosedBy(s, e + w, close) && SkipWs(s, e + w) == r + w + n0
  {
    e := End(s, r, deep);
    RunThenCloser(s, r + w, n0, close);
    AfterFirst(s, r, e, w, close);
  }

  /** Where the pieces of a non-empty list stand in s: `open` at p, the text
      of the first entry (body) at a, the text of the rest (more) where the
      loop over them starts, at e, and the closer at c. deep says that the
      first entry is a container, after which parseValue has already skipped
      whitespace. */
  predicate Laid(s: string, p: nat, open: char, a: nat, e: nat, c: nat, body: string, deep: bool, more: string, close: char) {
    && p < |s| && s[p] == open && SkipWs(s, p + 1) == a
    && At(s, body, a) && Delimited(s, a + |body|)
    && e == End(s, a + |body|, deep)
    && At(s, more, e) && ClosedBy(s, e + |more|, close)
    && SkipWs(s, e + |more|) == c
  }

  /** The text of an entry begins with a token, and the text of the entries
      after it, if any, with a comma. */
  predicate Leads(body: string, more: string) {
    |body| > 0 && !IsWhitespace(body[0]) && (|more| > 0 ==> more[0] == ',')
  }

  /** The pieces of the text of a non-empty list, and what the parser's
      whitespace skips find between them. */
  lemma Frame(s: string, p: nat, open: char, br: string, body: string, more: string, last: string, close: char, deep: bool)
    returns (a: nat, e: nat, c: nat)
    requires Blank(br) && Blank(last) && Leads(body, more) && (close == ']' || close == '}')
    requires At(s, [open] + br + body + more + last + [close], p)
    ensures Laid(s, p, open, a, e, c, body, deep, more, close)
    ensures c + 1 == p + |[open] + br + body + more + last + [close]|
  {
    Framed(s, p, [open], br, body, more, last, [close]);
    a := p + 1 + |br|;
    var r := a + |body|;
    c := r + |more| + |last|;
    AtHead(s, body, a);
    if |more| > 0 {
      AtHead(s, more, r);
    }
    e := ListFacts(s, p, |br|, |last|, r, |more|, deep, close);
  }

  /** The text of a non-empty array. */
  lemma ArrayText(d: Doc, lay: Layout, k: nat)
    requires d.Arr? && d.items != [] && Fits(lay)
    ensures Print(d, lay, k) == "[" + Break(lay, k + 1) + Print(d.items[0], lay, k + 1) + PrintItems(d.items[1..], lay, k + 1) + Break(lay, k) + "]"
    ensures Blank(Break(lay, k + 1)) && Blank(Break(lay, k))
    ensures Leads(Print(d.items[0], lay, k + 1), PrintItems(d.items[1..], lay, k + 1))
  {
    BreakBlank(lay, k + 1);
    BreakBlank(lay, k);
    PrintHead(d.items[0], lay, k + 1);
    if d.items[1..] != [] {
      assert PrintItems(d.items[1..], lay, k + 1)[0] == ',';
    }
  }

  /** The text of a non-empty object. */
  lemma ObjectText(d: Doc, lay: Layout, k: nat)
    requires d.Obj? && d.members != [] && Fits(lay)
    ensures Print(d, lay, k) == "{" + Break(lay, k + 1) + PrintMember(d.members[0], lay, k + 1) + PrintMembers(d.members[1..], lay, k + 1) + Break(lay, k) + "}"
    ensures Blank(Break(lay, k + 1)) && Blank(Break(lay, k))
    ensures Leads(PrintMember(d.members[0], lay, k + 1), PrintMembers(d.members[1..], lay, k + 1))
  {
    BreakBlank(lay, k + 1);
    BreakBlank(lay, k);
    assert PrintMember(d.members[0], lay, k + 1)[0] == '"';
    if d.members[1..] != [] {
      assert PrintMembers(d.members[1..], lay, k + 1)[0] == ',';
    }
  }

  lemma ArrayFacts(d: Doc, lay: Layout, k: nat, s: string, p: nat) returns (a: nat, e: nat, c: nat)
    requires d.Arr? && d.items != [] && Fits(lay) && At(s, Print(d, lay, k), p)
    ensures Laid(s, p, '[', a, e, c, Print(d.items[0], lay, k + 1), d.items[0].Arr? || d.items[0].Obj?, PrintItems(d.items[1..], lay, k + 1), ']')
    ensures c + 1 == p + |Print(d, lay, k)|
  {
    var item, rest := d.items[0], d.items[1..];
    ArrayText(d, lay, k);
    a, e, c := Frame(s, p, '[', Break(lay, k + 1), Print(item, lay, k + 1), PrintItems(rest, lay, k + 1), Break(lay, k), ']', item.Arr? || item.Obj?);
  }

  lemma ObjectFacts(d: Doc, lay: Layout, k: nat, s: string, p: nat) returns (a: nat, e: nat, c: nat)
    requires d.Obj? && d.members != [] && Fits(lay) && At(s, Print(d, lay, k), p)
    ensures Laid(s, p, '{', a, e, c, PrintMember(d.members[0], lay, k + 1), d.members[0].1.Arr? || d.members[0].1.Obj?, PrintMembers(d.members[1..], lay, k + 1), '}')
    ensures c + 1 == p + |Print(d, lay, k)|
  {
    var m, rest := d.members[0], d.members[1..];
    ObjectText(d, lay, k);
    a, e, c := Frame(s, p, '{', Break(lay, k + 1), PrintMember(m, lay, k + 1), PrintMembers(rest, lay, k + 1), Break(lay, k), '}', m.1.Arr? || m.1.Obj?);
  }

  /** Where the pieces of a comma-led entry stand: `,` at p, the text of the
      entry (body) at a, and the text of the rest (more) where the loop over
      them starts, at e. */
  predicate Entry(s: string, p: nat, a: nat, e: nat, body: string, more: string, close: char) {
    && p < |s| && s[p] == ',' && SkipWs(s, p + 1) == a
    && At(s, body, a) && Delimited(s, a + |body|)
    && e == SkipWs(s, a + |body|)
    && At(s, more, e) && ClosedBy(s, e + |more|, close)
  }

  /** The pieces of the text of a comma-led entry. */
  lemma EntryFacts(s: string, p: nat, br: string, body: string, more: string, close: char) returns (a: nat, e: nat)
    requires Blank(br) && Leads(body, more) && (close == ']' || close == '}')
    requires At(s, "," + br + body + more, p) && ClosedBy(s, p + |"," + br + body + more|, close)
    ensures Entry(s, p, a, e, body, more, close)
    ensures SkipWs(s, e + |more|) == SkipWs(s, p + |"," + br + body + more|)
  {
    Led(s, p, br, body, more);
    a := p + 1 + |br|;
    var r := a + |body|;
    e := SkipWs(s, r);
    AtHead(s, body, a);
    RunThenToken(s, p + 1, |br|);
    if |more| == 0 {
      ClosedByNoDigit(s, r, close);
      SkipWsTwice(s, r);
    } else {
      AtHead(s, more, r);
    }
  }

  /** The text of a non-empty run of comma-led items. */
  lemma ItemsText(items: seq<Doc>, lay: Layout, k: nat)
    requires items != [] && Fits(lay)
    ensures PrintItems(items, lay, k) == "," + Break(lay, k) + Print(items[0], lay, k) + PrintItems(items[1..], lay, k)
    ensures Blank(Break(lay, k)) && Leads(Print(items[0], lay, k), PrintItems(items[1..], lay, k))
  {
    BreakBlank(lay, k);
    PrintHead(items[0], lay, k);
    if items[1..] != [] {
      assert PrintItems(items[1..], lay, k)[0] == ',';
    }
  }

  lemma ItemFacts(items: seq<Doc>, lay: Layout, k: nat, s: string, p: nat) returns (a: nat, e: nat)
    requires items != [] && Fits(lay) && At(s, PrintItems(items, lay, k), p)
    requires ClosedBy(s, p + |PrintItems(items, lay, k)|, ']')
    ensures Entry(s, p, a, e, Print(items[0], lay, k), PrintItems(items[1..], lay, k), ']')
    ensures SkipWs(s, e + |PrintItems(items[1..], lay, k)|) == SkipWs(s, p + |PrintItems(items, lay, k)|)
  {
    ItemsText(items, lay, k);
    a, e := EntryFacts(s, p, Break(lay, k), Print(items[0], lay, k), PrintItems(items[1..], lay, k), ']');
  }

  /** The text of a non-empty run of comma-led members. */
  lemma MembersText(ms: seq<(string, Doc)>, lay: Layout, k: nat)
    requires ms != [] && Fits(lay)
    ensures PrintMembers(ms, lay, k) == "," + Break(lay, k) + PrintMember(ms[0], lay, k) + PrintMembers(ms[1..], lay, k)
    ensures Blank(Break(lay, k)) && Leads(PrintMember(ms[0], lay, k), PrintMembers(ms[1..], lay, k))
  {
    BreakBlank(lay, k);
    assert PrintMember(ms[0], lay, k)[0] == '"';
    if ms[1..] != [] {
      assert PrintMembers(ms[1..], lay, k)[0] == ',';
    }
  }

  lemma MemberFacts(ms: seq<(string, Doc)>, lay: Layout, k: nat, s: string, p: nat) returns (a: nat, e: nat)
    requires ms != [] && Fits(lay) && At(s, PrintMembers(ms, lay, k), p)
    requires ClosedBy(s, p + |PrintMembers(ms, lay, k)|, '}')
    ensures Entry(s, p, a, e, PrintMember(ms[0], lay, k), PrintMembers(ms[1..], lay, k), '}')
    ensures SkipWs(s, e + |PrintMembers(ms[1..], lay, k)|) == SkipWs(s, p + |PrintMembers(ms, lay, k)|)
  {
    MembersText(ms, lay, k);
    a, e := EntryFacts(s, p, Break(lay, k), PrintMember(ms[0], lay, k), PrintMembers(ms[1..], lay, k), '}');
  }

  /** parseValue reads a printed document as its meaning. It stops right
      after a scalar, and after the whitespace that follows a container. */
  lemma {:induction false} ValueRead(d: Doc, lay: Layout, k: nat, s: string, p: nat)
    requires Printable(d) && Fits(lay) && At(s, Print(d, lay, k), p) && Delimited(s, p + |Print(d, lay, k)|)
    ensures Value(s, p) == Success(Meaning(d), End(s, p + |Print(d, lay, k)|, d.Arr? || d.Obj?))
    decreases d, 3
  {
    var q := p + |Print(d, lay, k)|;
    if d.Arr? {
      ArrayRead(d, lay, k, s, p);
      ArrayValue(s, p, Meaning(d), SkipWs(s, q));
    } else if d.Obj? {
      ObjectRead(d, lay, k, s, p);
      ObjectValue(s, p, Meaning(d), SkipWs(s, q));
    } else {
      ScalarRead(d, lay, k, s, p);
    }
  }

  /** parseValue reads a printed string, number, boolean or null as itself,
      and stops right after it. */
  lemma ScalarRead(d: Doc, lay: Layout, k: nat, s: string, p: nat)
    requires !d.Arr? && !d.Obj? && Printable(d) && At(s, Print(d, lay, k), p) && Delimited(s, p + |Print(d, lay, k)|)
    ensures Value(s, p) == Success(Meaning(d), p + |Print(d, lay, k)|)
  {
    AtStartsWith(s, Print(d, lay, k), p);
    match d
    case Str(t) => QuotedAt(s, p, t);
    case Num(n) => NumberReadsDecimal(s, p, n);
    case Bool(b) => WordRead(s, p, if b then "true" else "false", JBool(b));
    case Null => WordRead(s, p, "null", JNull);
  }

  /** parseValue reads null, true or false where the word stands. */
  lemma WordRead(s: string, p: nat, word: string, v: J)
    requires (word, v) == ("null", JNull) || (word, v) == ("true", JBool(true)) || (word, v) == ("false", JBool(false))
    requires StartsWith(s, word, p)
    ensures Value(s, p) == Success(v, p + |word|)
  {
    StartsWithHead(s, word, p);
    if StartsWith(s, "null", p) { StartsWithHead(s, "null", p); }
    if StartsWith(s, "true", p) { StartsWithHead(s, "true", p); }
  }

  /** parseValue hands a `[` to parseArray. */
  lemma ArrayValue(s: string, p: nat, x: J, e: nat)
    requires p < |s| && s[p] == '[' && Array(s, p) == Success(x, e)
    ensures Value(s, p) == Success(x, e)
  {
    NoLiteralAt(s, p);
    assert SkipWs(s, p) == p;
    assert Braced(s, p) == Failure;
  }

  /** parseValue hands a `{` to parseObject. */
  lemma ObjectValue(s: string, p: nat, x: J, e: nat)
    requires p < |s| && s[p] == '{' && Object(s, p) == Success(x, e)
    ensures Value(s, p) == Success(x, e)
  {
    NoLiteralAt(s, p);
  }

  /** parseArray reads a printed array as its items' meanings, in order. */
  lemma {:induction false} ArrayRead(d: Doc, lay: Layout, k: nat, s: string, p: nat)
    requires d.Arr? && Printable(d) && Fits(lay) && At(s, Print(d, lay, k), p)
    ensures p < |s| && s[p] == '['
    ensures Array(s, p) == Success(Meaning(d), SkipWs(s, p + |Print(d, lay, k)|))
    decreases d, 1
  {
    if d.items == [] {
      assert s[p + 0] == Print(d, lay, k)[0] && s[p + 1] == Print(d, lay, k)[1];
      EmptyArray(s, p, p, p + 1);
    } else {
      var a, e, c := ArrayFacts(d, lay, k, s, p);
      ArrayParts(d, lay, k + 1, s, p, a, e, c);
    }
  }

  /** The first item, the turns of the loop and the closer of a printed array. */
  lemma {:induction false} ArrayParts(d: Doc, lay: Layout, k: nat, s: string, p: nat, a: nat, e: nat, c: nat)
    requires d.Arr? && d.items != [] && Printable(d) && Fits(lay)
    requires Laid(s, p, '[', a, e, c, Print(d.items[0], lay, k), d.items[0].Arr? || d.items[0].Obj?, PrintItems(d.items[1..], lay, k), ']')
    ensures Array(s, p) == Success(Meaning(d), SkipWs(s, c + 1))
    decreases d, 0
  {
    var item, rest := d.items[0], d.items[1..];
    assert Value(s, a) == Success(Meaning(item), e) by {
      ValueRead(item, lay, k, s, a);
    }
    assert MoreValues(s, e).Success? && MoreValues(s, e).value == Meanings(rest) && SkipWs(s, MoreValues(s, e).end) == c by {
      ItemsRead(rest, lay, k, s, e);
    }
    ArrayStep(s, p, a, e, c);
  }

  /** The turns of the loop in parseValues read the printed items after the
      first, and end where only whitespace is left before the closer. */
  lemma {:induction false} ItemsRead(items: seq<Doc>, lay: Layout, k: nat, s: string, p: nat)
    requires ItemsPrintable(items) && Fits(lay) && At(s, PrintItems(items, lay, k), p)
    requires ClosedBy(s, p + |PrintItems(items, lay, k)|, ']')
    ensures MoreValues(s, p).Success? && MoreValues(s, p).value == Meanings(items)
    ensures SkipWs(s, MoreValues(s, p).end) == SkipWs(s, p + |PrintItems(items, lay, k)|)
    decreases items, 2
  {
    if items == [] {
      ListStops(s, p, ']');
    } else {
      var a, e := ItemFacts(items, lay, k, s, p);
      ItemsParts(items, lay, k, s, p, a, e);
    }
  }

  /** One turn of the loop in parseValues, then the turns after it. */
  lemma {:induction false} ItemsParts(items: seq<Doc>, lay: Layout, k: nat, s: string, p: nat, a: nat, e: nat)
    requires items != [] && ItemsPrintable(items) && Fits(lay) && Entry(s, p, a, e, Print(items[0], lay, k), PrintItems(items[1..], lay, k), ']')
    ensures MoreValues(s, p).Success? && MoreValues(s, p).value == Meanings(items)
    ensures SkipWs(s, MoreValues(s, p).end) == SkipWs(s, e + |PrintItems(items[1..], lay, k)|)
    decreases items, 1
  {
    ItemValue(items, lay, k, s, p, a, e);
    NextValueStep(s, p, a, e);
    ItemsRest(items, lay, k, s, p, a, e);
  }

  lemma {:induction false} ItemsRest(items: seq<Doc>, lay: Layout, k: nat, s: string, p: nat, a: nat, e: nat)
    requires items != [] && ItemsPrintable(items) && Fits(lay) && Entry(s, p, a, e, Print(items[0], lay, k), PrintItems(items[1..], lay, k), ']')
    ensures MoreValues(s, e).Success? && MoreValues(s, e).value == Meanings(items[1..])
    ensures SkipWs(s, MoreValues(s, e).end) == SkipWs(s, e + |PrintItems(items[1..], lay, k)|)
    decreases items, 0
  {
    ItemsRead(items[1..], lay, k, s, e);
  }

  lemma {:induction false} ItemValue(items: seq<Doc>, lay: Layout, k: nat, s: string, p: nat, a: nat, e: nat)
    requires items != [] && ItemsPrintable(items) && Fits(lay) && Entry(s, p, a, e, Print(items[0], lay, k), PrintItems(items[1..], lay, k), ']')
    ensures Value(s, a).Success? && Value(s, a).value == Meaning(items[0]) && SkipWs(s, Value(s, a).end) == e
    decreases items, 0
  {
    ValueRead(items[0], lay, k, s, a);
  }

  /** parseObject reads a printed object as the fold of its members. */
  lemma {:induction false} ObjectRead(d: Doc, lay: Layout, k: nat, s: string, p: nat)
    requires d.Obj? && Printable(d) && Fits(lay) && At(s, Print(d, lay, k), p)
    ensures p < |s| && s[p] == '{'
    ensures Object(s, p) == Success(Meaning(d), SkipWs(s, p + |Print(d, lay, k)|))
    decreases d, 2
  {
    if d.members == [] {
      assert s[p + 0] == Print(d, lay, k)[0] && s[p + 1] == Print(d, lay, k)[1];
      EmptyObject(s, p, p, p + 1);
    } else {
      var a, e, c := ObjectFacts(d, lay, k, s, p);
      ObjectParts(d, lay, k + 1, s, p, a, e, c);
    }
  }

  /** The first member, the turns of the loop and the closer of a printed
      object. */
  lemma {:induction false} ObjectParts(d: Doc, lay: Layout, k: nat, s: string, p: nat, a: nat, e: nat, c: nat)
    requires d.Obj? && d.members != [] && Printable(d) && Fits(lay)
    requires Laid(s, p, '{', a, e, c, PrintMember(d.members[0], lay, k), d.members[0].1.Arr? || d.members[0].1.Obj?, PrintMembers(d.members[1..], lay, k), '}')
    ensures Object(s, p) == Success(Meaning(d), SkipWs(s, c + 1))
    decreases d, 1
  {
    ObjectFirst(d, lay, k, s, p, a, e, c);
    ObjectRest(d, lay, k, s, p, a, e, c);
    ObjectStep(s, p, a, e, c);
  }

  lemma {:induction false} ObjectFirst(d: Doc, lay: Layout, k: nat, s: string, p: nat, a: nat, e: nat, c: nat)
    requires d.Obj? && d.members != [] && Printable(d) && Fits(lay)
    requires Laid(s, p, '{', a, e, c, PrintMember(d.members[0], lay, k), d.members[0].1.Arr? || d.members[0].1.Obj?, PrintMembers(d.members[1..], lay, k), '}')
    ensures Pair(s, a) == Success((d.members[0].0, Meaning(d.members[0].1)), e)
    decreases d, 0
  {
    MemberRead(d.members[0], lay, k, s, a);
  }

  lemma {:induction false} ObjectRest(d: Doc, lay: Layout, k: nat, s: string, p: nat, a: nat, e: nat, c: nat)
    requires d.Obj? && d.members != [] && Printable(d) && Fits(lay)
    requires Laid(s, p, '{', a, e, c, PrintMember(d.members[0], lay, k), d.members[0].1.Arr? || d.members[0].1.Obj?, PrintMembers(d.members[1..], lay, k), '}')
    ensures MorePairs(s, e).Success? && MorePairs(s, e).value == Entries(d.members[1..]) && SkipWs(s, MorePairs(s, e).end) == c
    decreases d, 0
  {
    MembersRead(d.members[1..], lay, k, s, e);
  }

  /** parsePair reads a printed member as its key and the meaning of its
      value. */
  lemma {:induction false} MemberRead(m: (string, Doc), lay: Layout, k: nat, s: string, p: nat)
    requires '"' !in m.0 && Printable(m.1) && Fits(lay)
    requires At(s, PrintMember(m, lay, k), p) && Delimited(s, p + |PrintMember(m, lay, k)|)
    ensures Pair(s, p) == Success((m.0, Meaning(m.1)), End(s, p + |PrintMember(m, lay, k)|, m.1.Arr? || m.1.Obj?))
    decreases m, 1
  {
    MemberText(m, lay, k);
    var b := MemberPieces(s, p, m.0, lay.gap, Print(m.1, lay, k));
    MemberValue(m, lay, k, s, p, b);
    PairStep(s, p, m.0, Meaning(m.1), b, End(s, p + |PrintMember(m, lay, k)|, m.1.Arr? || m.1.Obj?));
  }

  /** The value of a printed member, read past the gap after its colon. */
  lemma {:induction false} MemberValue(m: (string, Doc), lay: Layout, k: nat, s: string, p: nat, b: nat)
    requires Printable(m.1) && Fits(lay)
    requires At(s, Print(m.1, lay, k), b) && b + |Print(m.1, lay, k)| == p + |PrintMember(m, lay, k)|
    requires Delimited(s, p + |PrintMember(m, lay, k)|)
    ensures Value(s, b) == Success(Meaning(m.1), End(s, p + |PrintMember(m, lay, k)|, m.1.Arr? || m.1.Obj?))
    decreases m, 0
  {
    assert m.1 < m;
    ValueRead(m.1, lay, k, s, b);
  }

  /** The text of a member. */
  lemma MemberText(m: (string, Doc), lay: Layout, k: nat)
    ensures PrintMember(m, lay, k) == "\"" + m.0 + "\"" + ":" + lay.gap + Print(m.1, lay, k)
    ensures |Print(m.1, lay, k)| > 0 && !IsWhitespace(Print(m.1, lay, k)[0])
  {
    PrintHead(m.1, lay, k);
  }

  /** The pieces of the text of a member: its key read up to the colon, and
      where the text of its value (body) stands past the gap. */
  lemma MemberPieces(s: string, p: nat, key: string, gap: string, body: string) returns (b: nat)
    requires '"' !in key && Blank(gap) && |body| > 0 && !IsWhitespace(body[0])
    requires At(s, "\"" + key + "\"" + ":" + gap + body, p)
    ensures p + |key| + 2 < |s| && StringLit(s, p) == Success(key, p + |key| + 2) && s[p + |key| + 2] == ':'
    ensures b <= |s| && SkipWs(s, p + |key| + 3) == b && At(s, body, b)
    ensures b + |body| == p + |"\"" + key + "\"" + ":" + gap + body|
  {
    var quoted := "\"" + key + "\"";
    Turn(s, p, quoted, ":", gap, body);
    AtStartsWith(s, quoted, p);
    QuotedAt(s, p, key);
    AtHead(s, ":", p + |quoted|);
    BlankRun(s, gap, p + |quoted| + 1);
    b := p + |quoted| + 1 + |gap|;
    AtHead(s, body, b);
    RunThenToken(s, p + |quoted| + 1, |gap|);
  }

  /** parsePair over a key, `:`, whitespace and a value. */
  lemma PairStep(s: string, p: nat, key: string, v: J, b: nat, e: nat)
    requires p + |key| + 2 < |s| && StringLit(s, p) == Success(key, p + |key| + 2)
    requires s[p + |key| + 2] == ':' && b <= |s| && SkipWs(s, p + |key| + 3) == b
    requires Value(s, b) == Success(v, e)
    ensures Pair(s, p) == Success((key, v), e)
  {
    var colon := p + |key| + 2;
    assert SkipWs(s, colon) == colon;
    assert Char(s, colon, ':') == Success((), colon + 1);
  }

  /** The turns of the loop in parsePairs read the printed members after the
      first. */
  lemma {:induction false} MembersRead(ms: seq<(string, Doc)>, lay: Layout, k: nat, s: string, p: nat)
    requires MembersPrintable(ms) && Fits(lay) && At(s, PrintMembers(ms, lay, k), p)
    requires ClosedBy(s, p + |PrintMembers(ms, lay, k)|, '}')
    ensures MorePairs(s, p).Success? && MorePairs(s, p).value == Entries(ms)
    ensures SkipWs(s, MorePairs(s, p).end) == SkipWs(s, p + |PrintMembers(ms, lay, k)|)
    decreases ms, 2
  {
    if ms == [] {
      ListStops(s, p, '}');
    } else {
      var a, e := MemberFacts(ms, lay, k, s, p);
      MembersParts(ms, lay, k, s, p, a, e);
    }
  }

  /** One turn of the loop in parsePairs, then the turns after it. */
  lemma {:induction false} MembersParts(ms: seq<(string, Doc)>, lay: Layout, k: nat, s: string, p: nat, a: nat, e: nat)
    requires ms != [] && MembersPrintable(ms) && Fits(lay) && Entry(s, p, a, e, PrintMember(ms[0], lay, k), PrintMembers(ms[1..], lay, k), '}')
    ensures MorePairs(s, p).Success? && MorePairs(s, p).value == Entries(ms)
    ensures SkipWs(s, MorePairs(s, p).end) == SkipWs(s, e + |PrintMembers(ms[1..], lay, k)|)
    decreases ms, 1
  {
    var rest := ms[1..];
    var kv := (ms[0].0, Meaning(ms[0].1));
    assert Pair(s, a).Success? && Pair(s, a).value == kv && SkipWs(s, Pair(s, a).end) == e by {
      MemberPair(ms, lay, k, s, p, a, e);
    }
    assert MorePairs(s, p) == Prepend([kv], MorePairs(s, e)) by {
      NextPairStep(s, p, a, e);
    }
    MembersRest(ms, lay, k, s, p, a, e);
    assert Entries(ms) == [kv] + Entries(rest);
  }

  lemma {:induction false} MembersRest(ms: seq<(string, Doc)>, lay: Layout, k: nat, s: string, p: nat, a: nat, e: nat)
    requires ms != [] && MembersPrintable(ms) && Fits(lay) && Entry(s, p, a, e, PrintMember(ms[0], lay, k), PrintMembers(ms[1..], lay, k), '}')
    ensures MorePairs(s, e).Success? && MorePairs(s, e).value == Entries(ms[1..])
    ensures SkipWs(s, MorePairs(s, e).end) == SkipWs(s, e + |PrintMembers(ms[1..], lay, k)|)
    decreases ms, 0
  {
    MembersRead(ms[1..], lay, k, s, e);
  }

  lemma {:induction false} MemberPair(ms: seq<(string, Doc)>, lay: Layout, k: nat, s: string, p: nat, a: nat, e: nat)
    requires ms != [] && MembersPrintable(ms) && Fits(lay) && Entry(s, p, a, e, PrintMember(ms[0], lay, k), PrintMembers(ms[1..], lay, k), '}')
    ensures Pair(s, a).Success? && Pair(s, a).value == (ms[0].0, Meaning(ms[0].1)) && SkipWs(s, Pair(s, a).end) == e
    decreases ms, 0
  {
    MemberRead(ms[0], lay, k, s, a);
  }

  /** parse reads back every printable document, printed in any layout of the
      Layout family (whitespace at the line breaks of non-empty containers and
      after colons), as the document's meaning, and consumes all of it. */
  lemma PrintedParses(d: Doc, lay: Layout)
    requires Printable(d) && Fits(lay)
    ensures Value(Print(d, lay, 0), 0) == Success(Meaning(d), |Print(d, lay, 0)|)
  {
    var s := Print(d, lay, 0);
    assert At(s, s, 0);
    ValueRead(d, lay, 0, s, 0);
  }

  /** Two layouts of the Layout family of one document parse to the same
      tree. */
  lemma WhitespaceInsensitive(d: Doc, lay1: Layout, lay2: Layout)
    requires Printable(d) && Fits(lay1) && Fits(lay2)
    ensures Value(Print(d, lay1, 0), 0).Success? && Value(Print(d, lay2, 0), 0).Success?
    ensures Value(Print(d, lay1, 0), 0).value == Value(Print(d, lay2, 0), 0).value
  {
    PrintedParses(d, lay1);
    PrintedParses(d, lay2);
  }
}
