/** The meaning of every rule of JSONParser, as a function of the input and the
    cursor the rule starts at. Each function follows its Java rule branch for branch:
    the same order of alternatives, the same whitespace skips, the same places where
    charAt reads past the end and throws. What a rule pushes on the parser's stack
    is the value of its result; the class in parser.dfy is proved against these. */
module ParserSpec {
  import opened JavaText
  import opened Json

  /** parseStringLit: a `"` at the cursor, then everything up to the next `"`,
      with no escapes. */
  function StringLit(s: string, p: nat): (r: Res<string>)
    requires p <= |s|
    ensures r.Exception? <==> p == |s|
    ensures r.Success? ==> p + 2 <= r.end <= |s| && s[p] == '"'
  {
    if p == |s| then Exception
    else if s[p] != '"' then Failure
    else
      var endQuote := IndexOf(s, '"', p + 1);
      if endQuote == -1 then Failure
      else Success(s[p + 1..endQuote], endQuote + 1)
  }

  /** parseNumber: the maximal run of digits at the cursor, turned into a number
      by Integer.parseInt, which throws above MaxInt. */
  function Number(s: string, p: nat): (r: Res<int>)
    requires p <= |s|
    ensures r.Failure? <==> p == |s| || !IsDigit(s[p])
    ensures r.Success? ==> p < r.end <= |s|
  {
    var q := DigitRunEnd(s, p);
    if q == p then Failure
    else
      DigitRunMaximal(s, p);
      var n := DecimalValue(s[p..q]);
      if n > MaxInt then Exception else Success(n, q)
  }

  /** parseNull, parseTrue, parseFalse: `word` verbatim at the cursor. */
  function Literal(s: string, p: nat, word: string, v: J): (r: Res<J>)
    requires p <= |s|
    ensures !r.Exception?
    ensures r.Success? ==> r.value == v && r.end == p + |word|
  {
    if StartsWith(s, word, p) then Success(v, p + |word|) else Failure
  }

  /** parseValue: the seven alternatives tried in order; the first that does not
      fail decides. */
  function Value(s: string, p: nat): (r: Res<J>)
    requires p <= |s|
    ensures r.Success? ==> p < r.end <= |s|
    decreases |s| - p, 2
  {
    var str := StringLit(s, p);
    if str.Success? then Success(JStr(str.value), str.end)
    else if str.Exception? then Exception
    else
    var num := Number(s, p);
    if num.Success? then Success(JNum(num.value), num.end)
    else if num.Exception? then Exception
    else
    var nul := Literal(s, p, "null", JNull);
    if nul.Success? then nul
    else
    var yes := Literal(s, p, "true", JBool(true));
    if yes.Success? then yes
    else
    var no := Literal(s, p, "false", JBool(false));
    if no.Success? then no
    else
    var obj := Object(s, p);
    if !obj.Failure? then obj
    else Array(s, p)
  }

  /** parseObject: the pairs between `{` and `}`, folded into one map. */
  function Object(s: string, p: nat): (r: Res<J>)
    requires p <= |s|
    ensures r.Success? ==> p < r.end <= |s| && Char(s, SkipWs(s, p), '{').Success? && r.value.JObj?
    decreases |s| - p, 1
  {
    match Braced(s, p)
    case Exception => Exception
    case Failure => Failure
    case Success(pairs, e) => Success(JObj(Fold(pairs)), e)
  }

  /** The chain of steps parseObject runs before it folds: `{`, pairs, `}`,
      with whitespace skipped before and after each. */
  function Braced(s: string, p: nat): (r: Res<seq<(string, J)>>)
    requires p <= |s|
    ensures r.Success? ==> p < r.end <= |s| && Char(s, SkipWs(s, p), '{').Success?
    decreases |s| - p, 0
  {
    match Char(s, SkipWs(s, p), '{')
    case Exception => Exception
    case Failure => Failure
    case Success(_, open) =>
      match Pairs(s, SkipWs(s, open))
      case Exception => Exception
      case Failure => Failure
      case Success(pairs, last) =>
        match Char(s, SkipWs(s, last), '}')
        case Exception => Exception
        case Failure => Failure
        case Success(_, close) => Success(pairs, SkipWs(s, close))
  }

  /** parsePair: a string key, `:` and a value. No whitespace is skipped before
      the key. */
  function Pair(s: string, p: nat): (r: Res<(string, J)>)
    requires p <= |s|
    ensures r.Success? ==> p < r.end <= |s| && s[p] == '"'
    decreases |s| - p, 0
  {
    match StringLit(s, p)
    case Exception => Exception
    case Failure => Failure
    case Success(key, k) =>
      match Char(s, SkipWs(s, k), ':')
      case Exception => Exception
      case Failure => Failure
      case Success(_, colon) =>
        match Value(s, SkipWs(s, colon))
        case Exception => Exception
        case Failure => Failure
        case Success(v, e) => Success((key, v), e)
  }

  /** parsePairs: nothing, or a pair followed by the pairs the loop adds. It
      never fails: a first pair that fails leaves an empty list. */
  function Pairs(s: string, p: nat): (r: Res<seq<(string, J)>>)
    requires p <= |s|
    ensures !r.Failure?
    ensures r.Success? ==> p <= r.end <= |s|
    decreases |s| - p, 1
  {
    match Pair(s, p)
    case Exception => Exception
    case Failure => Success([], p)
    case Success(kv, e) => Prepend([kv], MorePairs(s, e))
  }

  /** One turn of the loop in parsePairs: `,` and a pair, with whitespace
      skipped before and after both. */
  function NextPair(s: string, p: nat): (r: Res<(string, J)>)
    requires p <= |s|
    ensures r.Success? ==> p < r.end <= |s|
    decreases |s| - p, 0
  {
    match Char(s, SkipWs(s, p), ',')
    case Exception => Exception
    case Failure => Failure
    case Success(_, comma) =>
      match Pair(s, SkipWs(s, comma))
      case Exception => Exception
      case Failure => Failure
      case Success(kv, e) => Success(kv, SkipWs(s, e))
  }

  /** The turns of the loop in parsePairs from cursor p on. A turn that fails
      puts the cursor back where it started and ends the loop with success. */
  function MorePairs(s: string, p: nat): (r: Res<seq<(string, J)>>)
    requires p <= |s|
    ensures !r.Failure?
    ensures r.Success? ==> p <= r.end <= |s|
    decreases |s| - p, 1
  {
    match NextPair(s, p)
    case Exception => Exception
    case Failure => Success([], p)
    case Success(kv, e) => Prepend([kv], MorePairs(s, e))
  }

  /** parseArray: the values between `[` and `]`, in the order they appear. */
  function Array(s: string, p: nat): (r: Res<J>)
    requires p <= |s|
    ensures r.Success? ==> p < r.end <= |s| && Char(s, SkipWs(s, p), '[').Success? && r.value.JArr?
    decreases |s| - p, 1
  {
    match Bracketed(s, p)
    case Exception => Exception
    case Failure => Failure
    case Success(items, e) => Success(JArr(items), e)
  }

  /** The chain of steps parseArray runs before it collects the values: `[`,
      values, `]`, with whitespace skipped before and after each. */
  function Bracketed(s: string, p: nat): (r: Res<seq<J>>)
    requires p <= |s|
    ensures r.Success? ==> p < r.end <= |s| && Char(s, SkipWs(s, p), '[').Success?
    decreases |s| - p, 0
  {
    match Char(s, SkipWs(s, p), '[')
    case Exception => Exception
    case Failure => Failure
    case Success(_, open) =>
      match Values(s, SkipWs(s, open))
      case Exception => Exception
      case Failure => Failure
      case Success(items, last) =>
        match Char(s, SkipWs(s, last), ']')
        case Exception => Exception
        case Failure => Failure
        case Success(_, close) => Success(items, SkipWs(s, close))
  }

  /** parseValues: nothing, or a value followed by the values the loop adds. */
  function Values(s: string, p: nat): (r: Res<seq<J>>)
    requires p <= |s|
    ensures !r.Failure?
    ensures r.Success? ==> p <= r.end <= |s|
    decreases |s| - p, 3
  {
    match Value(s, p)
    case Exception => Exception
    case Failure => Success([], p)
    case Success(v, e) => Prepend([v], MoreValues(s, e))
  }

  /** One turn of the loop in parseValues: `,` and a value. */
  function NextValue(s: string, p: nat): (r: Res<J>)
    requires p <= |s|
    ensures r.Success? ==> p < r.end <= |s|
    decreases |s| - p, 0
  {
    match Char(s, SkipWs(s, p), ',')
    case Exception => Exception
    case Failure => Failure
    case Success(_, comma) =>
      match Value(s, SkipWs(s, comma))
      case Exception => Exception
      case Failure => Failure
      case Success(v, e) => Success(v, SkipWs(s, e))
  }

  /** The turns of the loop in parseValues from cursor p on. */
  function MoreValues(s: string, p: nat): (r: Res<seq<J>>)
    requires p <= |s|
    ensures !r.Failure?
    ensures r.Success? ==> p <= r.end <= |s|
    decreases |s| - p, 1
  {
    match NextValue(s, p)
    case Exception => Exception
    case Failure => Success([], p)
    case Success(v, e) => Prepend([v], MoreValues(s, e))
  }

  /** The HashMap parseObject builds: it pops the pairs from the last to the
      first and puts each, so a pair overwrites every later pair with its key. */
  function Fold(pairs: seq<(string, J)>): map<string, J>
  {
    if pairs == [] then map[]
    else Fold(pairs[1..])[pairs[0].0 := pairs[0].1]
  }

  /** The stack entries the pairs are pushed as: key then value, pair by pair. */
  function Flatten(pairs: seq<(string, J)>): (entries: seq<J>)
    ensures |entries| == 2 * |pairs|
  {
    if pairs == [] then []
    else
      var last := pairs[|pairs| - 1];
      Flatten(pairs[..|pairs| - 1]) + [JStr(last.0), last.1]
  }

  lemma FlattenSnoc(pairs: seq<(string, J)>, kv: (string, J))
    ensures Flatten(pairs + [kv]) == Flatten(pairs) + [JStr(kv.0), kv.1]
  {
    assert (pairs + [kv])[..|pairs|] == pairs;
  }

  lemma FlattenTake(pairs: seq<(string, J)>, k: nat)
    requires 0 < k <= |pairs|
    ensures Flatten(pairs[..k]) == Flatten(pairs[..k - 1]) + [JStr(pairs[k - 1].0), pairs[k - 1].1]
  {
    assert pairs[..k][..k - 1] == pairs[..k - 1];
  }

  lemma FoldDrop(pairs: seq<(string, J)>, k: nat)
    requires 0 < k <= |pairs|
    ensures Fold(pairs[k - 1..]) == Fold(pairs[k..])[pairs[k - 1].0 := pairs[k - 1].1]
  {
    assert pairs[k - 1..][1..] == pairs[k..];
  }

  /** The object's keys are the pairs' keys, and for a repeated key the value of
      its first occurrence in the text wins. */
  lemma {:induction false} FoldFirstWins(pairs: seq<(string, J)>)
    ensures Fold(pairs).Keys == set i | 0 <= i < |pairs| :: pairs[i].0
    ensures forall i :: 0 <= i < |pairs| && (forall j :: 0 <= j < i ==> pairs[j].0 != pairs[i].0) ==>
              Fold(pairs)[pairs[i].0] == pairs[i].1
  {
    if pairs != [] {
      var rest := pairs[1..];
      FoldFirstWins(rest);
      assert Fold(pairs).Keys == Fold(rest).Keys + {pairs[0].0};
      forall i | 0 <= i < |pairs| && (forall j :: 0 <= j < i ==> pairs[j].0 != pairs[i].0)
        ensures Fold(pairs)[pairs[i].0] == pairs[i].1
      {
        if i > 0 {
          assert pairs[i] == rest[i - 1];
          forall j | 0 <= j < i - 1 ensures rest[j].0 != rest[i - 1].0 {
            assert rest[j] == pairs[j + 1];
          }
        }
      }
      var keys := set i | 0 <= i < |pairs| :: pairs[i].0;
      forall k | k in keys ensures k in Fold(pairs).Keys {
        var i :| 0 <= i < |pairs| && pairs[i].0 == k;
        if i > 0 { assert rest[i - 1].0 == k; }
      }
      forall k | k in Fold(pairs).Keys ensures k in keys {
        if k != pairs[0].0 {
          var i :| 0 <= i < |rest| && rest[i].0 == k;
          assert pairs[i + 1].0 == k;
        }
      }
    }
  }
}
