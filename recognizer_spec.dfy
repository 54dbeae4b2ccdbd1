/** The meaning of every rule of JSONRecognizer: the same grammar as
    JSONParser, with no stack and no value. A rule either matches, leaving the
    cursor at the end of what it read, fails, or throws because charAt read past
    the end of the input. Digit runs are only counted, never converted, so no
    rule of the recognizer throws on a large number. */
module RecognizerSpec {
  import opened JavaText
  import opened Json

  /** parseStringLit: a `"` at the cursor and a later `"`. */
  function StringLit(s: string, p: nat): (r: Res<()>)
    requires p <= |s|
    ensures r.Exception? <==> p == |s|
    ensures r.Success? ==> p + 2 <= r.end <= |s| && s[p] == '"'
  {
    if p == |s| then Exception
    else if s[p] != '"' then Failure
    else
      var endQuote := IndexOf(s, '"', p + 1);
      if endQuote == -1 then Failure else Success((), endQuote + 1)
  }

  /** parseNumber: at least one digit; the loop reads the whole run. */
  function Number(s: string, p: nat): (r: Res<()>)
    requires p <= |s|
    ensures !r.Exception?
    ensures r.Failure? <==> p == |s| || !IsDigit(s[p])
    ensures r.Success? ==> p < r.end <= |s|
  {
    var q := DigitRunEnd(s, p);
    if q == p then Failure else Success((), q)
  }

  /** parseNull, parseTrue, parseFalse: `word` verbatim at the cursor. */
  function Keyword(s: string, p: nat, word: string): (r: Res<()>)
    requires p <= |s|
    ensures !r.Exception?
    ensures r.Success? ==> r.end == p + |word|
  {
    if StartsWith(s, word, p) then Success((), p + |word|) else Failure
  }

  /** parseValue: the seven alternatives tried in order. */
  function Value(s: string, p: nat): (r: Res<()>)
    requires p <= |s|
    ensures r.Success? ==> p < r.end <= |s|
    decreases |s| - p, 1
  {
    var str := StringLit(s, p);
    if !str.Failure? then str
    else
    var num := Number(s, p);
    if num.Success? then num
    else
    var nul := Keyword(s, p, "null");
    if nul.Success? then nul
    else
    var yes := Keyword(s, p, "true");
    if yes.Success? then yes
    else
    var no := Keyword(s, p, "false");
    if no.Success? then no
    else
    var obj := Object(s, p);
    if !obj.Failure? then obj
    else Array(s, p)
  }

  /** parseObject: skip, `{`, skip, pairs, skip, `}`, skip. */
  function Object(s: string, p: nat): (r: Res<()>)
    requires p <= |s|
    ensures r.Success? ==> p < r.end <= |s|
    decreases |s| - p, 0
  {
    match Char(s, SkipWs(s, p), '{')
    case Exception => Exception
    case Failure => Failure
    case Success(_, open) =>
      match Pairs(s, SkipWs(s, open))
      case Exception => Exception
      case Failure => Failure
      case Success(_, last) =>
        match Char(s, SkipWs(s, last), '}')
        case Exception => Exception
        case Failure => Failure
        case Success(_, close) => Success((), SkipWs(s, close))
  }

  /** parsePair: a string key, skip, `:`, skip, a value. */
  function Pair(s: string, p: nat): (r: Res<()>)
    requires p <= |s|
    ensures r.Success? ==> p < r.end <= |s|
    decreases |s| - p, 0
  {
    match StringLit(s, p)
    case Exception => Exception
    case Failure => Failure
    case Success(_, k) =>
      match Char(s, SkipWs(s, k), ':')
      case Exception => Exception
      case Failure => Failure
      case Success(_, colon) => Value(s, SkipWs(s, colon))
  }

  /** parsePairs: nothing, or a pair followed by the turns of the loop. */
  function Pairs(s: string, p: nat): (r: Res<()>)
    requires p <= |s|
    ensures !r.Failure?
    ensures r.Success? ==> p <= r.end <= |s|
    decreases |s| - p, 1
  {
    match Pair(s, p)
    case Exception => Exception
    case Failure => Success((), p)
    case Success(_, e) => MorePairs(s, e)
  }

  /** One turn of the loop in parsePairs. */
  function NextPair(s: string, p: nat): (r: Res<()>)
    requires p <= |s|
    ensures r.Success? ==> p < r.end <= |s|
    decreases |s| - p, 0
  {
    match Char(s, SkipWs(s, p), ',')
    case Exception => Exception
    case Failure => Failure
    case Success(_, comma) =>
      match Pair(s, SkipWs(s, comma))
      case Exception => Exception
      case Failure => Failure
      case Success(_, e) => Success((), SkipWs(s, e))
  }

  /** The turns of the loop in parsePairs from cursor p on; the turn that
      fails leaves the cursor where it began. */
  function MorePairs(s: string, p: nat): (r: Res<()>)
    requires p <= |s|
    ensures !r.Failure?
    ensures r.Success? ==> p <= r.end <= |s|
    decreases |s| - p, 1
  {
    match NextPair(s, p)
    case Exception => Exception
    case Failure => Success((), p)
    case Success(_, e) => MorePairs(s, e)
  }

  /** parseArray: skip, `[`, skip, values, skip, `]`, skip. */
  function Array(s: string, p: nat): (r: Res<()>)
    requires p <= |s|
    ensures r.Success? ==> p < r.end <= |s|
    decreases |s| - p, 0
  {
    match Char(s, SkipWs(s, p), '[')
    case Exception => Exception
    case Failure => Failure
    case Success(_, open) =>
      match Values(s, SkipWs(s, open))
      case Exception => Exception
      case Failure => Failure
      case Success(_, last) =>
        match Char(s, SkipWs(s, last), ']')
        case Exception => Exception
        case Failure => Failure
        case Success(_, close) => Success((), SkipWs(s, close))
  }

  /** parseValues: nothing, or a value followed by the turns of the loop. */
  function Values(s: string, p: nat): (r: Res<()>)
    requires p <= |s|
    ensures !r.Failure?
    ensures r.Success? ==> p <= r.end <= |s|
    decreases |s| - p, 2
  {
    match Value(s, p)
    case Exception => Exception
    case Failure => Success((), p)
    case Success(_, e) => MoreValues(s, e)
  }

  /** One turn of the loop in parseValues. */
  function NextValue(s: string, p: nat): (r: Res<()>)
    requires p <= |s|
    ensures r.Success? ==> p < r.end <= |s|
    decreases |s| - p, 0
  {
    match Char(s, SkipWs(s, p), ',')
    case Exception => Exception
    case Failure => Failure
    case Success(_, comma) =>
      match Value(s, SkipWs(s, comma))
      case Exception => Exception
      case Failure => Failure
      case Success(_, e) => Success((), SkipWs(s, e))
  }

  /** The turns of the loop in parseValues from cursor p on. */
  function MoreValues(s: string, p: nat): (r: Res<()>)
    requires p <= |s|
    ensures !r.Failure?
    ensures r.Success? ==> p <= r.end <= |s|
    decreases |s| - p, 1
  {
    match NextValue(s, p)
    case Exception => Exception
    case Failure => Success((), p)
    case Success(_, e) => MoreValues(s, e)
  }
}
