/** JSONRecognizer: an immutable input and a cursor. Every rule method is
    proved against its function in RecognizerSpec: it ends with that function's
    status, a rule that matches leaves the cursor at the function's end, and a
    rule that fails leaves the cursor where it found it. */
module Recognizer {
  import opened JavaText
  import opened Json
  import opened RecognizerSpec

  class JsonRecognizer {
    var pos: nat
    const input: string

    constructor (input: string)
      ensures this.input == input && pos == 0
    {
      this.input := input;
      pos := 0;
    }

    /** recognize: whether parseValue succeeds from the start of the input. */
    static method Recognize(input: string) returns (r: Call<bool>)
      ensures Value(input, 0).Exception? <==> r == Throws
      ensures !Value(input, 0).Exception? ==> r == Returns(Value(input, 0).Success?)
    {
      var recognizer := new JsonRecognizer(input);
      var status := recognizer.ParseValue();
      if status == Fault {
        return Throws;
      }
      return Returns(status == Ok);
    }

    method SkipWhitespace()
      requires pos <= |input|
      modifies this
      ensures pos == SkipWs(input, old(pos))
    {
      while pos < |input| && IsWhitespace(input[pos])
        invariant old(pos) <= pos <= |input|
        invariant SkipWs(input, pos) == SkipWs(input, old(pos))
      {
        pos := pos + 1;
      }
    }

    method ParseStringLit() returns (r: Status)
      requires pos <= |input|
      modifies this
      ensures pos <= |input|
      ensures r == StringLit(input, old(pos)).ToStatus()
      ensures r == Ok ==> pos == StringLit(input, old(pos)).end
      ensures r == Fail ==> pos == old(pos)
    {
      if pos == |input| {
        return Fault;
      }
      if input[pos] != '"' {
        return Fail;
      }
      var endQuote := IndexOf(input, '"', pos + 1);
      if endQuote == -1 {
        return Fail;
      }
      pos := endQuote + 1;
      return Ok;
    }

    method ParseNumber() returns (r: Status)
      requires pos <= |input|
      modifies this
      ensures pos <= |input|
      ensures r == Number(input, old(pos)).ToStatus()
      ensures r == Ok ==> pos == Number(input, old(pos)).end
      ensures r == Fail ==> pos == old(pos)
    {
      var currPos := pos;
      while pos < |input| && IsDigit(input[pos])
        invariant currPos <= pos <= |input|
        invariant DigitRunEnd(input, pos) == DigitRunEnd(input, currPos)
      {
        pos := pos + 1;
      }
      r := if currPos != pos then Ok else Fail;
    }

    method ParseNull() returns (r: Status)
      requires pos <= |input|
      modifies this
      ensures pos <= |input|
      ensures r == Keyword(input, old(pos), "null").ToStatus()
      ensures r == Ok ==> pos == old(pos) + 4
      ensures r == Fail ==> pos == old(pos)
    {
      var aNull := "null";
      if StartsWith(input, aNull, pos) {
        pos := pos + |aNull|;
        return Ok;
      }
      return Fail;
    }

    method ParseTrue() returns (r: Status)
      requires pos <= |input|
      modifies this
      ensures pos <= |input|
      ensures r == Keyword(input, old(pos), "true").ToStatus()
      ensures r == Ok ==> pos == old(pos) + 4
      ensures r == Fail ==> pos == old(pos)
    {
      var aTrue := "true";
      if StartsWith(input, aTrue, pos) {
        pos := pos + |aTrue|;
        return Ok;
      }
      return Fail;
    }

    method ParseFalse() returns (r: Status)
      requires pos <= |input|
      modifies this
      ensures pos <= |input|
      ensures r == Keyword(input, old(pos), "false").ToStatus()
      ensures r == Ok ==> pos == old(pos) + 5
      ensures r == Fail ==> pos == old(pos)
    {
      var aFalse := "false";
      if StartsWith(input, aFalse, pos) {
        pos := pos + |aFalse|;
        return Ok;
      }
      return Fail;
    }

    method ParseValue() returns (r: Status)
      requires pos <= |input|
      modifies this
      decreases |input| - pos, 1
      ensures pos <= |input|
      ensures r == Value(input, old(pos)).ToStatus()
      ensures r == Ok ==> pos == Value(input, old(pos)).end
      ensures r == Fail ==> pos == old(pos)
    {
      r := ParseStringLit();
      if r == Fail { r := ParseNumber(); }
      if r == Fail { r := ParseNull(); }
      if r == Fail { r := ParseTrue(); }
      if r == Fail { r := ParseFalse(); }
      if r == Fail { r := ParseObject(); }
      if r == Fail { r := ParseArray(); }
    }

    method ParseChar(ch: char) returns (r: Status)
      requires pos <= |input|
      modifies this
      ensures pos <= |input|
      ensures r == Char(input, old(pos), ch).ToStatus()
      ensures r == Ok ==> pos == old(pos) + 1
      ensures r == Fail ==> pos == old(pos)
    {
      if pos == |input| {
        return Fault;
      }
      if input[pos] == ch {
        pos := pos + 1;
        return Ok;
      }
      return Fail;
    }

    method ParseObject() returns (r: Status)
      requires pos <= |input|
      modifies this
      decreases |input| - pos, 0
      ensures pos <= |input|
      ensures r == Object(input, old(pos)).ToStatus()
      ensures r == Ok ==> pos == Object(input, old(pos)).end
      ensures r == Fail ==> pos == old(pos)
    {
      var currPos := pos;
      SkipWhitespace();
      r := ParseChar('{');
      if r == Ok {
        SkipWhitespace();
        ghost var first := pos;
        r := ParsePairs();
        if r == Ok {
          ghost var last := pos;
          assert last == Pairs(input, first).end;
          SkipWhitespace();
          r := ParseChar('}');
          if r == Ok {
            SkipWhitespace();
            assert Object(input, currPos) == Success((), pos);
          }
        }
      }
      if r == Fail {
        pos := currPos;
      }
    }

    method ParsePair() returns (r: Status)
      requires pos <= |input|
      modifies this
      decreases |input| - pos, 0
      ensures pos <= |input|
      ensures r == Pair(input, old(pos)).ToStatus()
      ensures r == Ok ==> pos == Pair(input, old(pos)).end
      ensures r == Fail ==> pos == old(pos)
    {
      var currPos := pos;
      r := ParseStringLit();
      if r == Ok {
        SkipWhitespace();
        r := ParseChar(':');
        if r == Ok {
          SkipWhitespace();
          r := ParseValue();
        }
      }
      if r == Fail {
        pos := currPos;
      }
    }

    method ParsePairs() returns (r: Status)
      requires pos <= |input|
      modifies this
      decreases |input| - pos, 1
      ensures pos <= |input|
      ensures r == Pairs(input, old(pos)).ToStatus()
      ensures r == Ok ==> pos == Pairs(input, old(pos)).end
    {
      ghost var p0 := pos;
      r := ParsePair();
      if r != Ok {
        if r == Fail {
          r := Ok;
        }
        return;
      }
      while true
        invariant p0 < pos <= |input|
        invariant Pairs(input, p0) == MorePairs(input, pos)
        decreases |input| - pos
      {
        ghost var turn := pos;
        r := ParseNextPair();
        if r == Fault {
          return;
        }
        if r == Fail {
          assert MorePairs(input, turn) == Success((), turn);
          return Ok;
        }
      }
    }

    /** The body of the loop in parsePairs. */
    method ParseNextPair() returns (r: Status)
      requires pos <= |input|
      modifies this
      decreases |input| - pos, 0
      ensures pos <= |input|
      ensures r == NextPair(input, old(pos)).ToStatus()
      ensures r == Ok ==> pos == NextPair(input, old(pos)).end
      ensures r == Fail ==> pos == old(pos)
    {
      var currPos := pos;
      SkipWhitespace();
      r := ParseChar(',');
      if r == Ok {
        SkipWhitespace();
        r := ParsePair();
        if r == Ok {
          SkipWhitespace();
        }
      }
      if r == Fail {
        pos := currPos;
      }
    }

    method ParseValues() returns (r: Status)
      requires pos <= |input|
      modifies this
      decreases |input| - pos, 2
      ensures pos <= |input|
      ensures r == Values(input, old(pos)).ToStatus()
      ensures r == Ok ==> pos == Values(input, old(pos)).end
    {
      ghost var p0 := pos;
      r := ParseValue();
      if r != Ok {
        if r == Fail {
          r := Ok;
        }
        return;
      }
      while true
        invariant p0 < pos <= |input|
        invariant Values(input, p0) == MoreValues(input, pos)
        decreases |input| - pos
      {
        ghost var turn := pos;
        r := ParseNextValue();
        if r == Fault {
          return;
        }
        if r == Fail {
          assert MoreValues(input, turn) == Success((), turn);
          return Ok;
        }
      }
    }

    /** The body of the loop in parseValues. */
    method ParseNextValue() returns (r: Status)
      requires pos <= |input|
      modifies this
      decreases |input| - pos, 0
      ensures pos <= |input|
      ensures r == NextValue(input, old(pos)).ToStatus()
      ensures r == Ok ==> pos == NextValue(input, old(pos)).end
      ensures r == Fail ==> pos == old(pos)
    {
      var currPos := pos;
      SkipWhitespace();
      r := ParseChar(',');
      if r == Ok {
        SkipWhitespace();
        r := ParseValue();
        if r == Ok {
          SkipWhitespace();
        }
      }
      if r == Fail {
        pos := currPos;
      }
    }

    method ParseArray() returns (r: Status)
      requires pos <= |input|
      modifies this
      decreases |input| - pos, 0
      ensures pos <= |input|
      ensures r == Array(input, old(pos)).ToStatus()
      ensures r == Ok ==> pos == Array(input, old(pos)).end
      ensures r == Fail ==> pos == old(pos)
    {
      var currPos := pos;
      SkipWhitespace();
      r := ParseChar('[');
      if r == Ok {
        SkipWhitespace();
        ghost var first := pos;
        r := ParseValues();
        if r == Ok {
          ghost var last := pos;
          assert last == Values(input, first).end;
          SkipWhitespace();
          r := ParseChar(']');
          if r == Ok {
            SkipWhitespace();
            assert Array(input, currPos) == Success((), pos);
          }
        }
      }
      if r == Fail {
        pos := currPos;
      }
    }
  }
}
