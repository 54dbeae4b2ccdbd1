/** A reference printer for JSON documents: a document written out with a
    chosen layout of whitespace between its tokens. */
module Printer {
  import opened JavaText
  import opened Json
  import opened ParserSpec
  import opened ParserFacts

  /** A document as it is written: object members in the order of the text,
      repeated keys included. */
  datatype Doc =
    | Str(text: string)
    | Num(n: nat)
    | Bool(truth: bool)
    | Null
    | Arr(items: seq<Doc>)
    | Obj(members: seq<(string, Doc)>)

  /** Where a printer puts whitespace: a line break (`newline`, then `indent`
      once per level of depth) before every item, member or closing bracket of
      a non-empty container, and `gap` after every colon. */
  datatype Layout = Layout(newline: string, indent: string, gap: string)

  predicate Blank(w: string) {
    forall i :: 0 <= i < |w| ==> IsWhitespace(w[i])
  }

  predicate Fits(lay: Layout) {
    Blank(lay.newline) && Blank(lay.indent) && Blank(lay.gap)
  }

  function Repeat(w: string, n: nat): string {
    if n == 0 then "" else w + Repeat(w, n - 1)
  }

  /** The line break before something at depth k. */
  function Break(lay: Layout, k: nat): string {
    lay.newline + Repeat(lay.indent, k)
  }

  lemma BlankConcat(a: string, b: string)
    requires Blank(a) && Blank(b)
    ensures Blank(a + b)
  {
  }

  lemma {:induction false} RepeatBlank(w: string, n: nat)
    requires Blank(w)
    ensures Blank(Repeat(w, n))
  {
    if n > 0 {
      RepeatBlank(w, n - 1);
      BlankConcat(w, Repeat(w, n - 1));
    }
  }

  lemma BreakBlank(lay: Layout, k: nat)
    requires Fits(lay)
    ensures Blank(Break(lay, k))
  {
    RepeatBlank(lay.indent, k);
    BlankConcat(lay.newline, Repeat(lay.indent, k));
  }

  /** The documents the parser can read back: strings and keys hold no quote
      (there are no escapes), and numbers fit in an int. */
  predicate Printable(d: Doc)
    decreases d
  {
    match d
    case Str(t) => '"' !in t
    case Num(n) => n <= MaxInt
    case Bool(_) => true
    case Null => true
    case Arr(items) => ItemsPrintable(items)
    case Obj(ms) => MembersPrintable(ms)
  }

  predicate ItemsPrintable(items: seq<Doc>)
    decreases items
  {
    items == [] || (Printable(items[0]) && ItemsPrintable(items[1..]))
  }

  predicate MembersPrintable(ms: seq<(string, Doc)>)
    decreases ms
  {
    ms == [] || ('"' !in ms[0].0 && (assert ms[0].1 < ms[0]; Printable(ms[0].1)) && MembersPrintable(ms[1..]))
  }

  function Print(d: Doc, lay: Layout, k: nat): string
    decreases d
  {
    match d
    case Str(t) => "\"" + t + "\""
    case Num(n) => Decimal(n)
    case Bool(b) => if b then "true" else "false"
    case Null => "null"
    case Arr(items) =>
      if items == [] then "[]"
      else "[" + Break(lay, k + 1) + Print(items[0], lay, k + 1) + PrintItems(items[1..], lay, k + 1) + Break(lay, k) + "]"
    case Obj(ms) =>
      if ms == [] then "{}"
      else "{" + Break(lay, k + 1) + PrintMember(ms[0], lay, k + 1) + PrintMembers(ms[1..], lay, k + 1) + Break(lay, k) + "}"
  }

  /** The items after the first, each after a comma and a line break. */
  function PrintItems(items: seq<Doc>, lay: Layout, k: nat): string
    decreases items
  {
    if items == [] then ""
    else "," + Break(lay, k) + Print(items[0], lay, k) + PrintItems(items[1..], lay, k)
  }

  function PrintMember(m: (string, Doc), lay: Layout, k: nat): string
    decreases m
  {
    "\"" + m.0 + "\"" + ":" + lay.gap + Print(m.1, lay, k)
  }

  /** The members after the first, each after a comma and a line break. */
  function PrintMembers(ms: seq<(string, Doc)>, lay: Layout, k: nat): string
    decreases ms
  {
    if ms == [] then ""
    else "," + Break(lay, k) + PrintMember(ms[0], lay, k) + PrintMembers(ms[1..], lay, k)
  }

  /** The tree a document stands for; an object keeps, for each key, the
      value of its first member with that key, as parseObject does. */
  function Meaning(d: Doc): J
    decreases d
  {
    match d
    case Str(t) => JStr(t)
    case Num(n) => JNum(n)
    case Bool(b) => JBool(b)
    case Null => JNull
    case Arr(items) => JArr(Meanings(items))
    case Obj(ms) => JObj(Fold(Entries(ms)))
  }

  function Meanings(items: seq<Doc>): seq<J>
    decreases items
  {
    if items == [] then [] else [Meaning(items[0])] + Meanings(items[1..])
  }

  function Entries(ms: seq<(string, Doc)>): seq<(string, J)>
    decreases ms
  {
    if ms == [] then [] else assert ms[0].1 < ms[0]; [(ms[0].0, Meaning(ms[0].1))] + Entries(ms[1..])
  }

  /** The text w stands in s at p. */
  predicate At(s: string, w: string, p: nat) {
    p + |w| <= |s| && forall i :: 0 <= i < |w| ==> s[p + i] == w[i]
  }

  lemma AtStartsWith(s: string, w: string, p: nat)
    ensures At(s, w, p) <==> StartsWith(s, w, p)
  {
    if p + |w| <= |s| {
      if At(s, w, p) {
        forall i | 0 <= i < |w| ensures s[p..p + |w|][i] == w[i] {
          assert s[p..p + |w|][i] == s[p + i];
        }
        assert s[p..p + |w|] == w;
      }
      if StartsWith(s, w, p) {
        forall i | 0 <= i < |w| ensures s[p + i] == w[i] {
          assert s[p + i] == s[p..p + |w|][i];
        }
      }
    }
  }

  lemma AtConcat(s: string, a: string, b: string, p: nat)
    ensures At(s, a + b, p) <==> At(s, a, p) && At(s, b, p + |a|)
  {
    if At(s, a + b, p) {
      forall i | 0 <= i < |a| ensures s[p + i] == a[i] {
        assert (a + b)[i] == a[i];
      }
      forall i | 0 <= i < |b| ensures s[p + |a| + i] == b[i] {
        assert (a + b)[|a| + i] == b[i];
      }
    }
    if At(s, a, p) && At(s, b, p + |a|) {
      forall i | 0 <= i < |a + b| ensures s[p + i] == (a + b)[i] {
        if i < |a| {
          assert (a + b)[i] == a[i];
        } else {
          assert (a + b)[i] == b[i - |a|];
          assert s[p + |a| + (i - |a|)] == b[i - |a|];
        }
      }
    }
  }

  lemma AtHead(s: string, w: string, p: nat)
    requires At(s, w, p) && |w| > 0
    ensures p < |s| && s[p] == w[0]
  {
    assert s[p + 0] == w[0];
  }

  /** Four pieces of text one after the other. */
  lemma Turn(s: string, p: nat, a: string, b: string, c: string, e: string)
    requires At(s, a + b + c + e, p)
    ensures At(s, a, p) && At(s, b, p + |a|) && At(s, c, p + |a| + |b|) && At(s, e, p + |a| + |b| + |c|)
    ensures |a| == 1 ==> p < |s| && s[p] == a[0]
  {
    AtConcat(s, a + b + c, e, p);
    AtConcat(s, a + b, c, p);
    AtConcat(s, a, b, p);
  }

  /** The six pieces of a non-empty container. */
  lemma Pieces(s: string, p: nat, open: string, br: string, body: string, more: string, last: string, close: string)
    requires |open| == 1 && |close| == 1
    requires At(s, open + br + body + more + last + close, p)
    ensures p < |s| && s[p] == open[0]
    ensures At(s, br, p + 1) && At(s, body, p + 1 + |br|) && At(s, more, p + 1 + |br| + |body|)
    ensures At(s, last, p + 1 + |br| + |body| + |more|)
    ensures var c := p + 1 + |br| + |body| + |more| + |last|;
            c < |s| && s[c] == close[0]
  {
    AtConcat(s, open + br + body + more + last, close, p);
    AtConcat(s, open + br + body + more, last, p);
    Turn(s, p, open, br, body, more);
  }
}
