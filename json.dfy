/** The vocabulary both classes share: the value tree the parser builds, the
    outcome of one rule, and the specification-side result of a rule. */
module Json {

  /** The objects the parser leaves on its stack: String, Integer, Boolean, the
      Java null, ArrayList and HashMap. JNull stands for the Java null reference,
      which is both how the input `null` is represented and what `parse` returns
      on failure. */
  datatype J =
    | JStr(str: string)
    | JNum(num: int)
    | JBool(truth: bool)
    | JNull
    | JArr(items: seq<J>)
    | JObj(fields: map<string, J>)

  /** How a rule method ends: `true`, `false`, or an exception nothing catches
      (charAt past the end of the input, Integer.parseInt overflow). */
  datatype Status = Ok | Fail | Fault

  /** What a rule does when started at a cursor: it matches, yielding a value
      and the cursor after it; it fails; or it throws. */
  datatype Res<T> = Success(value: T, end: nat) | Failure | Exception {
    function ToStatus(): Status {
      match this
      case Success(_, _) => Ok
      case Failure => Fail
      case Exception => Fault
    }
  }

  /** parseChar, the same in both classes: the character at the cursor must
      be c, and charAt(pos) throws at the end of the input. */
  function Char(s: string, p: nat, c: char): (r: Res<()>)
    requires p <= |s|
    ensures r.Exception? <==> p == |s|
    ensures r.Success? <==> p < |s| && s[p] == c
    ensures r.Success? ==> r.end == p + 1
  {
    if p == |s| then Exception
    else if s[p] == c then Success((), p + 1)
    else Failure
  }

  /** The same result with the value forgotten: what a rule that only moves the
      cursor can be compared with. */
  function Erase<T>(r: Res<T>): (e: Res<()>)
    ensures e.ToStatus() == r.ToStatus()
    ensures e.Success? ==> e.end == r.end
  {
    match r
    case Success(_, end) => Success((), end)
    case Failure => Failure
    case Exception => Exception
  }

  /** A list result with `xs` put in front of what it matched. */
  function Prepend<T>(xs: seq<T>, r: Res<seq<T>>): (q: Res<seq<T>>)
    ensures q.ToStatus() == r.ToStatus()
    ensures q.Success? ==> q.end == r.end && q.value == xs + r.value
  {
    match r
    case Success(ys, end) => Success(xs + ys, end)
    case Failure => Failure
    case Exception => Exception
  }

  lemma PrependTwice<T>(xs: seq<T>, ys: seq<T>, r: Res<seq<T>>)
    ensures Prepend(xs, Prepend(ys, r)) == Prepend(xs + ys, r)
  {
    if r.Success? {
      assert xs + (ys + r.value) == (xs + ys) + r.value;
    }
  }

  lemma AppendAssoc<T>(a: seq<T>, b: seq<T>, c: seq<T>)
    ensures (a + b) + c == a + (b + c)
  {
  }

  lemma PushTwice<T>(a: seq<T>, x: T, y: T)
    ensures a + [x] + [y] == a + [x, y]
  {
  }

  /** How a public static entry point ends: with a return value or by throwing. */
  datatype Call<T> = Returns(result: T) | Throws
}
