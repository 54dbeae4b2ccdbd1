/** JSONParser: an immutable input, a cursor `pos` every rule moves and
    restores, and a stack the rules push their values on. Every rule method is
    proved against its function in ParserSpec: it ends with that function's
    status, a rule that matches leaves the cursor at the function's end and its
    value on top of the stack, and a rule that fails puts the cursor back.

    A failed object, pair or list does not clean the stack up. What it may leave
    is bounded by Residue, which is enough to show that junk never survives into
    a successful object or list and that the fold's `(String)` cast cannot fail. */
module Parser {
  import opened JavaText
  import opened Json
  import opened ParserSpec

  /** What a rule that failed from cursor p may have done to the stack: the old
      stack is still there, and entries were left above it only if the rule got
      past one of the characters `opens`, which is then the next non-whitespace
      character at p. */
  ghost predicate Residue(before: seq<J>, after: seq<J>, s: string, p: nat, opens: set<char>)
    requires p <= |s|
  {
    || after == before
    || (Extends(before, after) && SkipWs(s, p) < |s| && s[SkipWs(s, p)] in opens)
  }

  /** `after` is `before` with entries pushed on top of it. */
  ghost predicate Extends(before: seq<J>, after: seq<J>) {
    |before| <= |after| && after[..|before|] == before
  }

  lemma ExtendsAppend(before: seq<J>, pushed: seq<J>)
    ensures Extends(before, before + pushed)
  {
    assert (before + pushed)[..|before|] == before;
  }

  /** A rule that failed from p after the rules it called had pushed entries
      (mid) and left a residue at q still leaves the old stack underneath,
      provided it got past one of its own `opens` at p. */
  lemma ResidueUnder(before: seq<J>, mid: seq<J>, after: seq<J>, s: string, q: nat, qOpens: set<char>, p: nat, opens: set<char>)
    requires q <= |s| && p <= |s|
    requires Extends(before, mid) && Residue(mid, after, s, q, qOpens)
    requires SkipWs(s, p) < |s| && s[SkipWs(s, p)] in opens
    ensures Residue(before, after, s, p, opens)
  {
    if after != mid {
      assert after[..|before|] == after[..|mid|][..|before|];
    }
  }

  class JsonParser {
    var pos: nat
    const input: string
    var stack: seq<J>

    constructor (input: string)
      ensures this.input == input && pos == 0 && stack == []
    {
      this.input := input;
      pos := 0;
      stack := [];
    }

    /** parse: run parseValue on a fresh parser and pop its value; the Java null
        when it fails. */
    static method Parse(input: string) returns (r: Call<J>)
      ensures Value(input, 0).Success? ==> r == Returns(Value(input, 0).value)
      ensures Value(input, 0).Failure? ==> r == Returns(JNull)
      ensures Value(input, 0).Exception? ==> r == Throws
    {
      var parser := new JsonParser(input);
      var status := parser.ParseValue();
      if status == Fault {
        return Throws;
      } else if status == Ok {
        var top := parser.stack[|parser.stack| - 1];
        parser.stack := parser.stack[..|parser.stack| - 1];
        assert parser.stack == [];
        return Returns(top);
      } else {
        return Returns(JNull);
      }
    }

    method SkipWhitespace()
      requires pos <= |input|
      modifies this`pos
      ensures pos == SkipWs(input, old(pos))
    {
      while pos < |input| && IsWhitespace(input[pos])
        invariant old(pos) <= pos <= |input|
        invariant SkipWs(input, pos) == SkipWs(input, old(pos))
      {
        pos := pos + 1;
      }
    }

    method ParseStringLit() returns (r: Status)
      requires pos <= |input|
      modifies this
      ensures pos <= |input|
      ensures r == StringLit(input, old(pos)).ToStatus()
      ensures r == Ok ==>
                && pos == StringLit(input, old(pos)).end
                && stack == old(stack) + [JStr(StringLit(input, old(pos)).value)]
      ensures r == Fail ==> pos == old(pos) && stack == old(stack)
    {
      if pos == |input| {
        return Fault;
      }
      if input[pos] != '"' {
        return Fail;
      }
      var endQuote := IndexOf(input, '"', pos + 1);
      if endQuote == -1 {
        return Fail;
      }
      stack := stack + [JStr(input[pos + 1..endQuote])];
      pos := endQuote + 1;
      return Ok;
    }

    method ParseNumber() returns (r: Status)
      requires pos <= |input|
      modifies this
      ensures pos <= |input|
      ensures r == Number(input, old(pos)).ToStatus()
      ensures r == Ok ==>
                && pos == Number(input, old(pos)).end
                && stack == old(stack) + [JNum(Number(input, old(pos)).value)]
      ensures r == Fail ==> pos == old(pos) && stack == old(stack)
    {
      var pos0 := pos;
      while pos < |input| && IsDigit(input[pos])
        invariant pos0 <= pos <= |input|
        invariant stack == old(stack)
        invariant DigitRunEnd(input, pos) == DigitRunEnd(input, pos0)
      {
        pos := pos + 1;
      }
      if pos0 == pos {
        return Fail;
      }
      DigitRunMaximal(input, pos0);
      var n := DecimalValue(input[pos0..pos]);
      if n > MaxInt {
        return Fault;
      }
      stack := stack + [JNum(n)];
      return Ok;
    }

    method ParseNull() returns (r: Status)
      requires pos <= |input|
      modifies this
      ensures pos <= |input|
      ensures r == Literal(input, old(pos), "null", JNull).ToStatus()
      ensures r == Ok ==> pos == old(pos) + 4 && stack == old(stack) + [JNull]
      ensures r == Fail ==> pos == old(pos) && stack == old(stack)
    {
      var aNull := "null";
      if StartsWith(input, aNull, pos) {
        pos := pos + |aNull|;
        stack := stack + [JNull];
        return Ok;
      }
      return Fail;
    }

    method ParseTrue() returns (r: Status)
      requires pos <= |input|
      modifies this
      ensures pos <= |input|
      ensures r == Literal(input, old(pos), "true", JBool(true)).ToStatus()
      ensures r == Ok ==> pos == old(pos) + 4 && stack == old(stack) + [JBool(true)]
      ensures r == Fail ==> pos == old(pos) && stack == old(stack)
    {
      var aTrue := "true";
      if StartsWith(input, aTrue, pos) {
        pos := pos + |aTrue|;
        stack := stack + [JBool(true)];
        return Ok;
      }
      return Fail;
    }

    method ParseFalse() returns (r: Status)
      requires pos <= |input|
      modifies this
      ensures pos <= |input|
      ensures r == Literal(input, old(pos), "false", JBool(false)).ToStatus()
      ensures r == Ok ==> pos == old(pos) + 5 && stack == old(stack) + [JBool(false)]
      ensures r == Fail ==> pos == old(pos) && stack == old(stack)
    {
      var aFalse := "false";
      if StartsWith(input, aFalse, pos) {
        pos := pos + |aFalse|;
        stack := stack + [JBool(false)];
        return Ok;
      }
      return Fail;
    }

    method ParseValue() returns (r: Status)
      requires pos <= |input|
      modifies this
      decreases |input| - pos, 2
      ensures pos <= |input|
      ensures r == Value(input, old(pos)).ToStatus()
      ensures r == Ok ==>
                && pos == Value(input, old(pos)).end
                && stack == old(stack) + [Value(input, old(pos)).value]
      ensures r == Fail ==> pos == old(pos) && Residue(old(stack), stack, input, old(pos), {'{', '['})
    {
      r := ParseStringLit();
      if r == Fail { r := ParseNumber(); }
      if r == Fail { r := ParseNull(); }
      if r == Fail { r := ParseTrue(); }
      if r == Fail { r := ParseFalse(); }
      if r == Fail {
        ghost var before := stack;
        r := ParseObject();
        if r == Fail {
          ghost var middle := stack;
          r := ParseArray();
          if r == Ok {
            assert middle == before;
          }
        }
      }
    }

    method ParseChar(ch: char) returns (r: Status)
      requires pos <= |input|
      modifies this`pos
      ensures pos <= |input|
      ensures r == Char(input, old(pos), ch).ToStatus()
      ensures r == Ok ==> pos == old(pos) + 1
      ensures r == Fail ==> pos == old(pos)
    {
      if pos == |input| {
        return Fault;
      }
      if input[pos] == ch {
        pos := pos + 1;
        return Ok;
      }
      return Fail;
    }

    method ParseObject() returns (r: Status)
      requires pos <= |input|
      modifies this
      decreases |input| - pos, 1
      ensures pos <= |input|
      ensures r == Object(input, old(pos)).ToStatus()
      ensures r == Ok ==>
                && pos == Object(input, old(pos)).end
                && stack == old(stack) + [Object(input, old(pos)).value]
      ensures r == Fail ==> pos == old(pos) && Residue(old(stack), stack, input, old(pos), {'{'})
    {
      var pos0 := pos;
      var stackSize0 := |stack|;
      r := MatchBraced();
      if r != Ok {
        if r == Fail {
          pos := pos0;
        }
        return;
      }
      var fields := PopFields(stackSize0, old(stack), Braced(input, pos0).value);
      stack := stack + [JObj(fields)];
    }

    /** The `success` chain of parseObject: skip, `{`, skip, pairs, skip, `}`,
        skip. The cursor is left where the chain stopped; parseObject puts it
        back when the chain fails. */
    method MatchBraced() returns (r: Status)
      requires pos <= |input|
      modifies this
      decreases |input| - pos, 0
      ensures pos <= |input|
      ensures r == Braced(input, old(pos)).ToStatus()
      ensures r == Ok ==>
                && pos == Braced(input, old(pos)).end
                && stack == old(stack) + Flatten(Braced(input, old(pos)).value)
      ensures r == Fail ==> Residue(old(stack), stack, input, old(pos), {'{'})
    {
      ghost var p := pos;
      SkipWhitespace();
      r := ParseChar('{');
      if r != Ok {
        return;
      }
      assert input[SkipWs(input, p)] == '{';
      SkipWhitespace();
      ghost var first := pos;
      assert first == SkipWs(input, Char(input, SkipWs(input, p), '{').end);
      r := ParsePairs();
      if r != Ok {
        assert Braced(input, p) == Exception;
        return;
      }
      ghost var last := pos;
      ghost var pairs := Pairs(input, first).value;
      assert last == Pairs(input, first).end;
      SkipWhitespace();
      r := ParseChar('}');
      if r != Ok {
        assert Braced(input, p) == if r == Fail then Failure else Exception;
        ExtendsAppend(old(stack), Flatten(pairs));
        return;
      }
      assert input[SkipWs(input, last)] == '}';
      assert stack == old(stack) + Flatten(pairs);
      SkipWhitespace();
      assert Braced(input, p) == Success(pairs, pos);
    }

    /** The loop of parseObject that pops the pairs, value then key, into a
        HashMap, from the last pair to the first. */
    method PopFields(stackSize0: nat, ghost base: seq<J>, ghost pairs: seq<(string, J)>)
      returns (fields: map<string, J>)
      requires stack == base + Flatten(pairs) && stackSize0 == |base|
      modifies this`stack
      ensures stack == base && fields == Fold(pairs)
    {
      fields := map[];
      ghost var k := |pairs|;
      assert pairs[..k] == pairs;
      while |stack| > stackSize0
        invariant 0 <= k <= |pairs|
        invariant stack == base + Flatten(pairs[..k])
        invariant fields == Fold(pairs[k..])
        decreases |stack|
      {
        FlattenTake(pairs, k);
        FoldDrop(pairs, k);
        var value := stack[|stack| - 1];
        stack := stack[..|stack| - 1];
        var key := stack[|stack| - 1].str;
        stack := stack[..|stack| - 1];
        fields := fields[key := value];
        k := k - 1;
      }
      assert pairs[0..] == pairs;
    }

    method ParsePair() returns (r: Status)
      requires pos <= |input|
      modifies this
      decreases |input| - pos, 0
      ensures pos <= |input|
      ensures r == Pair(input, old(pos)).ToStatus()
      ensures r == Ok ==>
                && pos == Pair(input, old(pos)).end
                && stack == old(stack) + [JStr(Pair(input, old(pos)).value.0), Pair(input, old(pos)).value.1]
      ensures r == Fail ==> pos == old(pos) && Residue(old(stack), stack, input, old(pos), {'"'})
    {
      var pos0 := pos;
      r := ParseStringLit();
      if r == Ok {
        ghost var key := StringLit(input, pos0).value;
        SkipWhitespace();
        r := ParseChar(':');
        if r == Ok {
          SkipWhitespace();
          ghost var colon := pos;
          r := ParseValue();
          if r == Ok {
            PushTwice(old(stack), JStr(key), Value(input, colon).value);
            assert Pair(input, pos0) == Success((key, Value(input, colon).value), pos);
          } else if r == Fail {
            ResidueUnder(old(stack), old(stack) + [JStr(key)], stack, input, colon, {'{', '['}, pos0, {'"'});
          }
        } else if r == Fail {
          ExtendsAppend(old(stack), [JStr(key)]);
        }
      }
      if r == Fail {
        pos := pos0;
      }
    }

    method ParsePairs() returns (r: Status)
      requires pos <= |input|
      modifies this
      decreases |input| - pos, 1
      ensures pos <= |input|
      ensures r == Pairs(input, old(pos)).ToStatus()
      ensures r == Ok ==>
                && pos == Pairs(input, old(pos)).end
                && Residue(old(stack) + Flatten(Pairs(input, old(pos)).value), stack, input, pos, {'"', ','})
    {
      ghost var p0 := pos;
      r := ParsePair();
      if r != Ok {
        if r == Fail {
          r := Ok;
        }
        return;
      }
      ghost var pairs := [Pair(input, p0).value];
      FlattenSnoc([], pairs[0]);
      while true
        invariant p0 < pos <= |input|
        invariant Pairs(input, p0) == Prepend(pairs, MorePairs(input, pos))
        invariant stack == old(stack) + Flatten(pairs)
        decreases |input| - pos
      {
        ghost var turn := pos;
        r := ParseNextPair();
        if r == Fault {
          return;
        }
        if r == Fail {
          assert MorePairs(input, turn) == Success([], turn);
          assert Pairs(input, p0).value == pairs + [] == pairs;
          return Ok;
        }
        ghost var kv := NextPair(input, turn).value;
        assert MorePairs(input, turn) == Prepend([kv], MorePairs(input, pos));
        PrependTwice(pairs, [kv], MorePairs(input, pos));
        FlattenSnoc(pairs, kv);
        AppendAssoc(old(stack), Flatten(pairs), [JStr(kv.0), kv.1]);
        pairs := pairs + [kv];
      }
    }

    /** The body of the loop in parsePairs: `,` and a pair, whitespace skipped
        around both; the cursor goes back to where the turn began if any step
        fails. */
    method ParseNextPair() returns (r: Status)
      requires pos <= |input|
      modifies this
      decreases |input| - pos, 0
      ensures pos <= |input|
      ensures r == NextPair(input, old(pos)).ToStatus()
      ensures r == Ok ==>
                && pos == NextPair(input, old(pos)).end
                && stack == old(stack) + [JStr(NextPair(input, old(pos)).value.0), NextPair(input, old(pos)).value.1]
      ensures r == Fail ==> pos == old(pos) && Residue(old(stack), stack, input, old(pos), {','})
    {
      var pos0 := pos;
      SkipWhitespace();
      r := ParseChar(',');
      if r == Ok {
        SkipWhitespace();
        r := ParsePair();
        if r == Ok {
          SkipWhitespace();
        }
      }
      if r == Fail {
        pos := pos0;
      }
    }

    method ParseValues() returns (r: Status)
      requires pos <= |input|
      modifies this
      decreases |input| - pos, 3
      ensures pos <= |input|
      ensures r == Values(input, old(pos)).ToStatus()
      ensures r == Ok ==>
                && pos == Values(input, old(pos)).end
                && Residue(old(stack) + Values(input, old(pos)).value, stack, input, pos, {'{', '[', ','})
    {
      ghost var p0 := pos;
      r := ParseValue();
      if r != Ok {
        if r == Fail {
          r := Ok;
        }
        return;
      }
      ghost var items := [Value(input, p0).value];
      while true
        invariant p0 < pos <= |input|
        invariant Values(input, p0) == Prepend(items, MoreValues(input, pos))
        invariant stack == old(stack) + items
        decreases |input| - pos
      {
        ghost var turn := pos;
        r := ParseNextValue();
        if r == Fault {
          return;
        }
        if r == Fail {
          assert MoreValues(input, turn) == Success([], turn);
          assert Values(input, p0).value == items + [] == items;
          return Ok;
        }
        ghost var v := NextValue(input, turn).value;
        assert MoreValues(input, turn) == Prepend([v], MoreValues(input, pos));
        PrependTwice(items, [v], MoreValues(input, pos));
        AppendAssoc(old(stack), items, [v]);
        items := items + [v];
      }
    }

    /** The body of the loop in parseValues. */
    method ParseNextValue() returns (r: Status)
      requires pos <= |input|
      modifies this
      decreases |input| - pos, 0
      ensures pos <= |input|
      ensures r == NextValue(input, old(pos)).ToStatus()
      ensures r == Ok ==>
                && pos == NextValue(input, old(pos)).end
                && stack == old(stack) + [NextValue(input, old(pos)).value]
      ensures r == Fail ==> pos == old(pos) && Residue(old(stack), stack, input, old(pos), {','})
    {
      var pos0 := pos;
      SkipWhitespace();
      r := ParseChar(',');
      if r == Ok {
        SkipWhitespace();
        r := ParseValue();
        if r == Ok {
          SkipWhitespace();
        }
      }
      if r == Fail {
        pos := pos0;
      }
    }

    method ParseArray() returns (r: Status)
      requires pos <= |input|
      modifies this
      decreases |input| - pos, 1
      ensures pos <= |input|
      ensures r == Array(input, old(pos)).ToStatus()
      ensures r == Ok ==>
                && pos == Array(input, old(pos)).end
                && stack == old(stack) + [Array(input, old(pos)).value]
      ensures r == Fail ==> pos == old(pos) && Residue(old(stack), stack, input, old(pos), {'['})
    {
      var pos0 := pos;
      var stackSize0 := |stack|;
      r := MatchBracketed();
      if r != Ok {
        if r == Fail {
          pos := pos0;
        }
        return;
      }
      var list := PopItems(stackSize0, old(stack), Bracketed(input, pos0).value);
      stack := stack + [JArr(list)];
    }

    /** The `success` chain of parseArray: skip, `[`, skip, values, skip, `]`,
        skip. */
    method MatchBracketed() returns (r: Status)
      requires pos <= |input|
      modifies this
      decreases |input| - pos, 0
      ensures pos <= |input|
      ensures r == Bracketed(input, old(pos)).ToStatus()
      ensures r == Ok ==>
                && pos == Bracketed(input, old(pos)).end
                && stack == old(stack) + Bracketed(input, old(pos)).value
      ensures r == Fail ==> Residue(old(stack), stack, input, old(pos), {'['})
    {
      ghost var p := pos;
      SkipWhitespace();
      r := ParseChar('[');
      if r != Ok {
        return;
      }
      assert input[SkipWs(input, p)] == '[';
      SkipWhitespace();
      ghost var first := pos;
      assert first == SkipWs(input, Char(input, SkipWs(input, p), '[').end);
      r := ParseValues();
      if r != Ok {
        return;
      }
      ghost var last := pos;
      ghost var items := Values(input, first).value;
      assert last == Values(input, first).end;
      SkipWhitespace();
      r := ParseChar(']');
      if r != Ok {
        ExtendsAppend(old(stack), items);
        return;
      }
      assert input[SkipWs(input, last)] == ']';
      assert stack == old(stack) + items;
      SkipWhitespace();
      assert Bracketed(input, p) == Success(items, pos);
    }

    /** The loop of parseArray that pops the values into an ArrayList, and the
        Collections.reverse after it. */
    method PopItems(stackSize0: nat, ghost base: seq<J>, ghost items: seq<J>) returns (list: seq<J>)
      requires stack == base + items && stackSize0 == |base|
      modifies this`stack
      ensures stack == base && list == items
    {
      list := [];
      ghost var k := |items|;
      assert items[..k] == items;
      while |stack| > stackSize0
        invariant 0 <= k <= |items|
        invariant stack == base + items[..k]
        invariant list == Reversed(items[k..])
        decreases |stack|
      {
        assert items[k - 1..][1..] == items[k..];
        assert items[..k][..k - 1] == items[..k - 1];
        list := list + [stack[|stack| - 1]];
        stack := stack[..|stack| - 1];
        k := k - 1;
      }
      assert items[0..] == items;
      ReversedTwice(items);
      list := Reversed(list);
    }
  }
}
