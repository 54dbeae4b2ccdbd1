# JSON-Parser in Dafny

A model of the two classes of the repository, `JSONParser` and
`JSONRecognizer`. They are hand-written backtracking recursive-descent
readers for a small JSON dialect:

- numbers are bare runs of digits;
- strings have no escapes;
- whitespace is whatever `Character.isWhitespace` accepts.

`JSONParser` walks an immutable `input` with a cursor `pos`. It builds the
value on an explicit stack: every scalar rule pushes one entry, and
`parseObject` and `parseArray` pop what their members pushed and push one
`HashMap` or `ArrayList`. `JSONRecognizer` runs the same rules with the stack
taken out and answers with a boolean.

The model keeps the classes' form:

- `Parser.JsonParser` and `Recognizer.JsonRecognizer` are classes with the
  fields `pos`, `input` and, for the parser, `stack`. They have one method per
  Java rule, with the same `while` loops and the same restoring of `pos` on
  failure.
- Every method is proved against a function of the input and the starting
  cursor. The functions are in `ParserSpec` and `RecognizerSpec`, one per
  rule, branch for branch.
- A rule ends in one of three ways: it matches, it fails, or it throws. It
  throws when `charAt` reads past the end of the input, or when
  `Integer.parseInt` overflows. No exception is ever caught. (A stack
  overflow on deeply nested input is not modelled; see "## Left out".)

Properties are proved about those functions:

- what each scalar rule reads (`ParserFacts`);
- the fold of an object, where the first of two equal keys wins;
- the rule-for-rule simulation between the two classes (`Equivalence`).

A reference printer (`Printer`) writes a document in a `Layout`: chosen
whitespace at the line breaks of non-empty containers (after the opener,
after each comma, before the closer) and after every colon. `Readback` proves
that the parser reads every document printed in any such layout back as its
meaning. `Examples`
applies all this to the inputs of the repository's tests and to the edge
cases of the grammar.

Modules, in dependency order:

| file | module | what it holds |
|---|---|---|
| java_text.dfy | JavaText | `Character.isWhitespace`/`isDigit`, `indexOf`, `startsWith`, `Integer.parseInt`'s value, `Collections.reverse` |
| json.dfy | Json | the value tree `J`, the outcome of a rule, `parseChar` |
| parser_spec.dfy | ParserSpec | one function per `JSONParser` rule; the object fold |
| parser.dfy | Parser | class `JsonParser` |
| recognizer_spec.dfy | RecognizerSpec | one function per `JSONRecognizer` rule |
| recognizer.dfy | Recognizer | class `JsonRecognizer` |
| equivalence.dfy | Equivalence | the simulation between the two |
| parser_facts.dfy | ParserFacts | what the rules accept, stated on the text |
| printer.dfy | Printer | documents, layouts, printing and meaning |
| readback.dfy | Readback | printed documents parse back |
| examples.dfy | Examples | the test inputs and the edge cases |

What the code does at the edges of the grammar:

- For a key given twice, the first member wins: the fold pops the pairs from
  last to first and `put`s each one (`ParserSpec.FoldFirstWins`,
  `Examples.FirstKeyWins`).
- The scalar rules do not skip whitespace. So ` 1` is rejected while ` []`
  is accepted.
- The parser and the recognizer do not accept the same inputs. On a digit run
  above `Integer.MAX_VALUE` the parser throws and the recognizer accepts
  (`Equivalence.OverflowDiverges`, `Examples.Overflow`). That is the only
  difference. On every text, the recognizer throws only where the parser
  throws. Wherever the parser does not throw, recognize returns true exactly
  where parse returns a matched value (`Equivalence.RecognizeAgainstParse`,
  built on the `*AgreesUnthrown` lemmas). A digit run elsewhere in the text,
  such as inside a string, changes nothing (`Examples.BigInString` reads
  `["2147483648"]` in both classes). On a text with no such run at all, the
  two also throw in the same places (`Equivalence.RecognizeMatchesParse`).
- A comma before `]` or `}` is rejected (`Examples.TrailingCommaRejected`).
- Input after the value is ignored.

## Model

Source paths are relative to the repository root.

| member | source | states |
|---|---|---|
| JavaText.SkipWs | src/main/java/com/example/compiler/JSONParser.java:28-34 | the whitespace loop leaves the cursor at or after where it started and within the input |
| JavaText.SkipWsStops | src/main/java/com/example/compiler/JSONParser.java:28-34 | every character skipped is whitespace and the one the loop stops at is not (or the input has ended) |
| JavaText.DigitRunEnd | src/main/java/com/example/compiler/JSONParser.java:47-50 | the digit loop leaves the cursor at or after its start, within the input |
| JavaText.DigitRunMaximal | src/main/java/com/example/compiler/JSONParser.java:47-50 | the digit loop consumes only digits and stops at the first non-digit: the run is maximal |
| JavaText.DigitRunEndAt | src/main/java/com/example/compiler/JSONParser.java:47-50 | any run of digits followed by a non-digit or the end is exactly what the loop consumes |
| JavaText.IndexOf | src/main/java/com/example/compiler/JSONParser.java:38 | `indexOf` returns -1 or an index at or after `from` inside the input |
| JavaText.IndexOfFirst | src/main/java/com/example/compiler/JSONParser.java:38 | the index returned holds the character and no earlier index from `from` does; -1 means no occurrence at all |
| JavaText.StartsWith | src/main/java/com/example/compiler/JSONParser.java:58-86 | `startsWith(word, pos)` holds exactly when the word fits in the input from the cursor and stands there character by character |
| JavaText.DecimalValue | src/main/java/com/example/compiler/JSONParser.java:54 | `Integer.parseInt`'s value of a run of k digits is below 10^k |
| JavaText.Decimal | src/main/java/com/example/compiler/JSONParser.java:54 | the decimal spelling of a number is a non-empty run of digits |
| JavaText.DecimalRoundTrip | src/main/java/com/example/compiler/JSONParser.java:54 | `Integer.parseInt`'s value of the spelling of n is n |
| JavaText.Reversed | src/main/java/com/example/compiler/JSONParser.java:201 | `Collections.reverse` keeps the list's length (element by element in ReversedAt) |
| JavaText.ReversedAt | src/main/java/com/example/compiler/JSONParser.java:197-201 | element i of the reversed list is element n-1-i of the list |
| JavaText.ReversedTwice | src/main/java/com/example/compiler/JSONParser.java:197-201 | reversing twice gives the list back, which is why pop-then-reverse keeps the source order |
| Json.Char | src/main/java/com/example/compiler/JSONParser.java:94-100 | `parseChar` throws exactly at the end of the input, matches exactly when the character is `ch`, and then advances by one |
| ParserSpec.StringLit | src/main/java/com/example/compiler/JSONParser.java:36-43 | throws exactly at the end of the input; a match starts at a quote and spans at least two characters |
| ParserSpec.Number | src/main/java/com/example/compiler/JSONParser.java:45-56 | fails exactly when the cursor is at the end or not on a digit; a match consumes at least one character |
| ParserSpec.Literal | src/main/java/com/example/compiler/JSONParser.java:58-86 | never throws; a match yields the literal's value and advances by the word's length |
| ParserSpec.Value | src/main/java/com/example/compiler/JSONParser.java:88-92 | a match consumes at least one character and stays within the input |
| ParserSpec.Object | src/main/java/com/example/compiler/JSONParser.java:102-126 | a match has `{` at the first non-whitespace character and yields an object |
| ParserSpec.Braced | src/main/java/com/example/compiler/JSONParser.java:105-111 | the `success` chain of parseObject; a match has `{` at the first non-whitespace character |
| ParserSpec.Pair | src/main/java/com/example/compiler/JSONParser.java:128-140 | a match starts at a quote and consumes at least one character |
| ParserSpec.Pairs | src/main/java/com/example/compiler/JSONParser.java:142-159 | parsePairs never fails: with no first pair it matches nothing |
| ParserSpec.NextPair | src/main/java/com/example/compiler/JSONParser.java:147-158 | one turn of the loop consumes at least the comma |
| ParserSpec.MorePairs | src/main/java/com/example/compiler/JSONParser.java:147-158 | the loop never fails: a failed turn ends it with success |
| ParserSpec.Array | src/main/java/com/example/compiler/JSONParser.java:181-205 | a match has `[` at the first non-whitespace character and yields a list |
| ParserSpec.Bracketed | src/main/java/com/example/compiler/JSONParser.java:185-191 | the `success` chain of parseArray; a match has `[` at the first non-whitespace character |
| ParserSpec.Values | src/main/java/com/example/compiler/JSONParser.java:161-178 | parseValues never fails: with no first value it matches nothing |
| ParserSpec.NextValue | src/main/java/com/example/compiler/JSONParser.java:166-177 | one turn of the loop consumes at least the comma |
| ParserSpec.MoreValues | src/main/java/com/example/compiler/JSONParser.java:166-177 | the loop never fails: a failed turn ends it with success |
| ParserSpec.Flatten | src/main/java/com/example/compiler/JSONParser.java:128-134 | the pairs of an object take two stack entries each, key and value |
| ParserSpec.FoldFirstWins | src/main/java/com/example/compiler/JSONParser.java:117-122 | the object's keys are exactly the pairs' keys, and each key maps to the value of its first occurrence in the text |
| Parser.JsonParser.constructor | src/main/java/com/example/compiler/JSONParser.java:17-20 | a fresh parser is at position 0 with an empty stack |
| Parser.JsonParser.Parse | src/main/java/com/example/compiler/JSONParser.java:22-26 | returns the value parseValue matched, returns the Java null when it fails, and throws when it throws |
| Parser.JsonParser.SkipWhitespace | src/main/java/com/example/compiler/JSONParser.java:28-34 | the loop leaves `pos` at SkipWs of where it started and touches nothing else |
| Parser.JsonParser.ParseStringLit | src/main/java/com/example/compiler/JSONParser.java:36-43 | ends with StringLit's outcome; on a match pushes the text between the quotes and moves past the closing quote; on failure changes nothing |
| Parser.JsonParser.ParseNumber | src/main/java/com/example/compiler/JSONParser.java:45-56 | ends with Number's outcome; on a match pushes the run's value and moves past it; on failure changes nothing |
| Parser.JsonParser.ParseNull | src/main/java/com/example/compiler/JSONParser.java:58-66 | matches `null` verbatim, advances by 4 and pushes the null; on failure changes nothing |
| Parser.JsonParser.ParseTrue | src/main/java/com/example/compiler/JSONParser.java:68-76 | matches `true` verbatim, advances by 4 and pushes true; on failure changes nothing |
| Parser.JsonParser.ParseFalse | src/main/java/com/example/compiler/JSONParser.java:78-86 | matches `false` verbatim, advances by 5 and pushes false; on failure changes nothing |
| Parser.JsonParser.ParseValue | src/main/java/com/example/compiler/JSONParser.java:88-92 | ends with Value's outcome; on a match grows the stack by exactly the value; on failure restores `pos`, keeps the old stack underneath, and leaves entries above it only in front of `{` or `[` |
| Parser.JsonParser.ParseChar | src/main/java/com/example/compiler/JSONParser.java:94-100 | ends with Char's outcome, advancing by one on a match and not at all on failure |
| Parser.JsonParser.ParseObject | src/main/java/com/example/compiler/JSONParser.java:102-126 | ends with Object's outcome; on a match replaces what the members pushed with the folded map; on failure restores `pos` |
| Parser.JsonParser.MatchBraced | src/main/java/com/example/compiler/JSONParser.java:105-115 | on a match the stack holds the members' keys and values, in order, above the old stack |
| Parser.JsonParser.PopFields | src/main/java/com/example/compiler/JSONParser.java:117-122 | the pop-and-put loop restores the old stack and builds Fold of the pairs (so the first of two equal keys wins); every `(String)` cast it makes is of a string key |
| Parser.JsonParser.ParsePair | src/main/java/com/example/compiler/JSONParser.java:128-140 | ends with Pair's outcome; on a match pushes the key and then the value; on failure restores `pos` |
| Parser.JsonParser.ParsePairs | src/main/java/com/example/compiler/JSONParser.java:142-159 | ends with Pairs' outcome and never fails; the pairs' keys and values are pushed in order, and any entry a failed turn left above them is followed in the text by `"` or `,`, so the closing `}` check rejects it |
| Parser.JsonParser.ParseNextPair | src/main/java/com/example/compiler/JSONParser.java:147-158 | one turn of the loop: NextPair's outcome, pushes the pair, or restores `pos` on failure |
| Parser.JsonParser.ParseValues | src/main/java/com/example/compiler/JSONParser.java:161-178 | ends with Values' outcome and never fails; the values are pushed in order above the old stack, and any entry a failed turn left above them is followed in the text by `,`, `{` or `[`, so the closing `]` check rejects it |
| Parser.JsonParser.ParseNextValue | src/main/java/com/example/compiler/JSONParser.java:166-177 | one turn of the loop: NextValue's outcome, pushes the value, or restores `pos` on failure |
| Parser.JsonParser.ParseArray | src/main/java/com/example/compiler/JSONParser.java:181-205 | ends with Array's outcome; on a match replaces the items with one list of them in source order; on failure restores `pos` |
| Parser.JsonParser.MatchBracketed | src/main/java/com/example/compiler/JSONParser.java:185-195 | on a match the stack holds the items, in order, above the old stack |
| Parser.JsonParser.PopItems | src/main/java/com/example/compiler/JSONParser.java:197-201 | the pop loop followed by `Collections.reverse` gives the items in source order and restores the old stack |
| RecognizerSpec.StringLit | src/main/java/com/example/compiler/JSONRecognizer.java:32-38 | throws exactly at the end of the input; a match starts at a quote and spans at least two characters |
| RecognizerSpec.Number | src/main/java/com/example/compiler/JSONRecognizer.java:40-47 | never throws; fails exactly when no digit is at the cursor |
| RecognizerSpec.Keyword | src/main/java/com/example/compiler/JSONRecognizer.java:49-74 | never throws; a match advances by the word's length |
| RecognizerSpec.Value | src/main/java/com/example/compiler/JSONRecognizer.java:76-80 | a match consumes at least one character within the input |
| RecognizerSpec.Object | src/main/java/com/example/compiler/JSONRecognizer.java:90-104 | a match consumes at least one character within the input |
| RecognizerSpec.Pair | src/main/java/com/example/compiler/JSONRecognizer.java:106-118 | a match consumes at least one character within the input |
| RecognizerSpec.Pairs | src/main/java/com/example/compiler/JSONRecognizer.java:120-137 | never fails: with no first pair it matches nothing |
| RecognizerSpec.NextPair | src/main/java/com/example/compiler/JSONRecognizer.java:125-136 | one turn of the loop consumes at least the comma |
| RecognizerSpec.MorePairs | src/main/java/com/example/compiler/JSONRecognizer.java:125-136 | the loop never fails |
| RecognizerSpec.Array | src/main/java/com/example/compiler/JSONRecognizer.java:159-175 | a match consumes at least one character within the input |
| RecognizerSpec.Values | src/main/java/com/example/compiler/JSONRecognizer.java:139-156 | never fails: with no first value it matches nothing |
| RecognizerSpec.NextValue | src/main/java/com/example/compiler/JSONRecognizer.java:144-155 | one turn of the loop consumes at least the comma |
| RecognizerSpec.MoreValues | src/main/java/com/example/compiler/JSONRecognizer.java:144-155 | the loop never fails |
| Recognizer.JsonRecognizer.constructor | src/main/java/com/example/compiler/JSONRecognizer.java:14-17 | a fresh recognizer is at position 0 |
| Recognizer.JsonRecognizer.Recognize | src/main/java/com/example/compiler/JSONRecognizer.java:19-22 | throws exactly when Value throws, and otherwise answers whether Value matches |
| Recognizer.JsonRecognizer.SkipWhitespace | src/main/java/com/example/compiler/JSONRecognizer.java:24-30 | leaves `pos` at SkipWs of where it started |
| Recognizer.JsonRecognizer.ParseStringLit | src/main/java/com/example/compiler/JSONRecognizer.java:32-38 | StringLit's outcome; at its end on a match, unmoved on failure |
| Recognizer.JsonRecognizer.ParseNumber | src/main/java/com/example/compiler/JSONRecognizer.java:40-47 | Number's outcome; at its end on a match, unmoved on failure |
| Recognizer.JsonRecognizer.ParseNull | src/main/java/com/example/compiler/JSONRecognizer.java:49-56 | `null` verbatim: advances by 4, unmoved on failure |
| Recognizer.JsonRecognizer.ParseTrue | src/main/java/com/example/compiler/JSONRecognizer.java:58-65 | `true` verbatim: advances by 4, unmoved on failure |
| Recognizer.JsonRecognizer.ParseFalse | src/main/java/com/example/compiler/JSONRecognizer.java:67-74 | `false` verbatim: advances by 5, unmoved on failure |
| Recognizer.JsonRecognizer.ParseValue | src/main/java/com/example/compiler/JSONRecognizer.java:76-80 | Value's outcome; at its end on a match, unmoved on failure |
| Recognizer.JsonRecognizer.ParseChar | src/main/java/com/example/compiler/JSONRecognizer.java:82-88 | Char's outcome; advances by one on a match, unmoved on failure |
| Recognizer.JsonRecognizer.ParseObject | src/main/java/com/example/compiler/JSONRecognizer.java:90-104 | Object's outcome; at its end on a match, restored on failure |
| Recognizer.JsonRecognizer.ParsePair | src/main/java/com/example/compiler/JSONRecognizer.java:106-118 | Pair's outcome; at its end on a match, restored on failure |
| Recognizer.JsonRecognizer.ParsePairs | src/main/java/com/example/compiler/JSONRecognizer.java:120-137 | Pairs' outcome, at its end on a match |
| Recognizer.JsonRecognizer.ParseNextPair | src/main/java/com/example/compiler/JSONRecognizer.java:125-136 | one turn of the loop: NextPair's outcome, restored on failure |
| Recognizer.JsonRecognizer.ParseValues | src/main/java/com/example/compiler/JSONRecognizer.java:139-156 | Values' outcome, at its end on a match |
| Recognizer.JsonRecognizer.ParseNextValue | src/main/java/com/example/compiler/JSONRecognizer.java:144-155 | one turn of the loop: NextValue's outcome, restored on failure |
| Recognizer.JsonRecognizer.ParseArray | src/main/java/com/example/compiler/JSONRecognizer.java:159-175 | Array's outcome; at its end on a match, restored on failure |
| Equivalence.StringLitAgrees | src/main/java/com/example/compiler/JSONRecognizer.java:32-38 | the recognizer's parseStringLit has the parser's outcome and end |
| Equivalence.ValueAgrees | src/main/java/com/example/compiler/JSONRecognizer.java:76-80 | on a text with no digit run above `Integer.MAX_VALUE`, the recognizer's parseValue has the parser's outcome (match, failure or throw) and end |
| Equivalence.BracedAgrees | src/main/java/com/example/compiler/JSONRecognizer.java:90-104 | parseObject agrees in the same sense |
| Equivalence.PairAgrees | src/main/java/com/example/compiler/JSONRecognizer.java:106-118 | parsePair agrees |
| Equivalence.PairsAgrees | src/main/java/com/example/compiler/JSONRecognizer.java:120-137 | parsePairs agrees |
| Equivalence.NextPairAgrees | src/main/java/com/example/compiler/JSONRecognizer.java:125-136 | one turn of the parsePairs loop agrees |
| Equivalence.MorePairsAgrees | src/main/java/com/example/compiler/JSONRecognizer.java:125-136 | the parsePairs loop agrees |
| Equivalence.BracketedAgrees | src/main/java/com/example/compiler/JSONRecognizer.java:159-175 | parseArray agrees |
| Equivalence.ValuesAgrees | src/main/java/com/example/compiler/JSONRecognizer.java:139-156 | parseValues agrees |
| Equivalence.NextValueAgrees | src/main/java/com/example/compiler/JSONRecognizer.java:144-155 | one turn of the parseValues loop agrees |
| Equivalence.MoreValuesAgrees | src/main/java/com/example/compiler/JSONRecognizer.java:144-155 | the parseValues loop agrees |
| Equivalence.RecognizeMatchesParse | src/main/java/com/example/compiler/JSONRecognizer.java:19-22 | on a text with no digit run above `Integer.MAX_VALUE`, recognize throws exactly where parse throws and returns true exactly where parse returns a matched value |
| Equivalence.ValueAgreesUnthrown | src/main/java/com/example/compiler/JSONRecognizer.java:76-80 | wherever the parser's parseValue does not throw, the recognizer's has the same outcome (match or failure) and end, whatever digit runs the rest of the text holds |
| Equivalence.BracedAgreesUnthrown | src/main/java/com/example/compiler/JSONRecognizer.java:90-104 | parseObject agrees in the same sense |
| Equivalence.PairAgreesUnthrown | src/main/java/com/example/compiler/JSONRecognizer.java:106-118 | parsePair agrees |
| Equivalence.PairsAgreesUnthrown | src/main/java/com/example/compiler/JSONRecognizer.java:120-137 | parsePairs agrees |
| Equivalence.NextPairAgreesUnthrown | src/main/java/com/example/compiler/JSONRecognizer.java:125-136 | one turn of the parsePairs loop agrees |
| Equivalence.MorePairsAgreesUnthrown | src/main/java/com/example/compiler/JSONRecognizer.java:125-136 | the parsePairs loop agrees |
| Equivalence.BracketedAgreesUnthrown | src/main/java/com/example/compiler/JSONRecognizer.java:159-175 | parseArray agrees |
| Equivalence.ValuesAgreesUnthrown | src/main/java/com/example/compiler/JSONRecognizer.java:139-156 | parseValues agrees |
| Equivalence.NextValueAgreesUnthrown | src/main/java/com/example/compiler/JSONRecognizer.java:144-155 | one turn of the parseValues loop agrees |
| Equivalence.MoreValuesAgreesUnthrown | src/main/java/com/example/compiler/JSONRecognizer.java:144-155 | the parseValues loop agrees |
| Equivalence.RecognizeAgainstParse | src/main/java/com/example/compiler/JSONRecognizer.java:19-22 | on every text: recognize throws only where parse throws; where parse returns a matched value recognize returns true, and where parse fails recognize returns false |
| Equivalence.OverflowDiverges | src/main/java/com/example/compiler/JSONParser.java:54 | on a digit run above `Integer.MAX_VALUE` the parser's parseValue throws and the recognizer's matches the whole run |
| ParserFacts.StringLitContent | src/main/java/com/example/compiler/JSONParser.java:36-43 | a string literal is exactly the text between the quote at the cursor and the next quote, with no quote inside; it fails exactly when one of the two quotes is missing |
| ParserFacts.QuotedAt | src/main/java/com/example/compiler/JSONParser.java:36-43 | a quoted run without quotes is read as that run, ending past the closing quote |
| ParserFacts.NumberContent | src/main/java/com/example/compiler/JSONParser.java:45-56 | a number is the decimal value of the maximal digit run at the cursor; it throws exactly when that value exceeds `Integer.MAX_VALUE` |
| ParserFacts.NumberReadsDecimal | src/main/java/com/example/compiler/JSONParser.java:45-56 | the spelling of n, not followed by a digit, reads back as n, or throws above `Integer.MAX_VALUE` |
| ParserFacts.NoLiteralAt | src/main/java/com/example/compiler/JSONParser.java:58-86 | none of `null`, `true`, `false` matches where the character is not its initial |
| ParserFacts.NothingStartsAtCloser | src/main/java/com/example/compiler/JSONParser.java:88-92 | no value and no pair starts at `]`, `}` or `,` |
| ParserFacts.EmptyObject | src/main/java/com/example/compiler/JSONParser.java:142-145 | `{`, whitespace and `}` make the empty object, because parsePairs succeeds with nothing |
| ParserFacts.EmptyArray | src/main/java/com/example/compiler/JSONParser.java:161-164 | `[`, whitespace and `]` make the empty list, because parseValues succeeds with nothing |
| ParserFacts.LeadingWhitespace | src/main/java/com/example/compiler/JSONParser.java:36-37 | from a whitespace character only an object or an array can match: the scalar rules do not skip whitespace |
| ParserFacts.TrailingCommaEndsList | src/main/java/com/example/compiler/JSONParser.java:147-158 | a comma before a closer ends the loops before the comma, so the closing check sees the comma |
| ParserFacts.MissingColon | src/main/java/com/example/compiler/JSONParser.java:128-140 | an input that opens with `{`, a key and then a character that is neither `:` nor whitespace is rejected, as the input of parseInCorrect is |
| Readback.End | src/main/java/com/example/compiler/JSONParser.java:105-111 | where parseValue stops after a value: skipping whitespace from there is the same as from the value's end |
| Readback.ValueRead | src/main/java/com/example/compiler/JSONParser.java:88-92 | parseValue reads a document printed in any `Layout` as its meaning and stops right after a scalar or past the whitespace after a container |
| Readback.ScalarRead | src/main/java/com/example/compiler/JSONParser.java:36-86 | a printed string, number, boolean or null is read as itself |
| Readback.ArrayRead | src/main/java/com/example/compiler/JSONParser.java:181-205 | parseArray reads a printed array as the list of its items' meanings, in order |
| Readback.ItemsRead | src/main/java/com/example/compiler/JSONParser.java:166-177 | the loop of parseValues reads the items after the first and stops before the closer |
| Readback.ObjectRead | src/main/java/com/example/compiler/JSONParser.java:102-126 | parseObject reads a printed object as the fold of its members |
| Readback.MemberRead | src/main/java/com/example/compiler/JSONParser.java:128-140 | parsePair reads a printed member as its key and its value's meaning |
| Readback.MembersRead | src/main/java/com/example/compiler/JSONParser.java:147-158 | the loop of parsePairs reads the members after the first and stops before the closer |
| Readback.PrintedParses | src/main/java/com/example/compiler/JSONParser.java:22-26 | every printable document, printed in any `Layout`, parses as its meaning and is consumed whole |
| Readback.WhitespaceInsensitive | src/test/java/com/example/compiler/JSONParserTest.java:13-72 | two `Layout`s of one document parse to the same tree |
| Examples.TestTree | src/test/java/com/example/compiler/JSONParserTest.java:17-31 | the meaning of the test document is the tree the tests expect |
| Examples.TestDocPrintable | src/test/java/com/example/compiler/JSONParserTest.java:13-54 | the test document and the two layouts of the tests are in the domain of the read-back theorem |
| Examples.TestInputs | src/test/java/com/example/compiler/JSONParserTest.java:13-72 | the compact and the indented printing of the test document both parse to the expected tree |
| Examples.FirstKeyWins | src/main/java/com/example/compiler/JSONParser.java:117-122 | `{"k":1,"k":2}` parses to the object where `k` is 1 |
| Examples.EmptyObjectText | src/main/java/com/example/compiler/JSONParser.java:142-145 | `{}` is the empty object |
| Examples.EmptyArrayText | src/main/java/com/example/compiler/JSONParser.java:161-164 | `[ ]` is the empty list |
| Examples.TrailingInput | src/main/java/com/example/compiler/JSONParser.java:22-26 | `[]x` parses as the empty list, ending before `x` |
| Examples.LeadingBeforeArray | src/main/java/com/example/compiler/JSONParser.java:185-186 | ` []` is accepted |
| Examples.LeadingBeforeNumber | src/main/java/com/example/compiler/JSONParser.java:45-53 | ` 1` is rejected |
| Examples.NullOrNothing | src/main/java/com/example/compiler/JSONParser.java:22-26 | `null` is read as the Java null, the same value parse returns on failure |
| Examples.FaultEmpty | src/main/java/com/example/compiler/JSONParser.java:37 | both classes throw on the empty input |
| Examples.FaultUnclosed | src/main/java/com/example/compiler/JSONParser.java:95 | `[` throws in both classes, `{` in the parser |
| Examples.FaultAfterItem | src/main/java/com/example/compiler/JSONParser.java:95 | `[1` throws in both classes |
| Examples.FaultAfterComma | src/main/java/com/example/compiler/JSONParser.java:37 | `[1,` throws in the parser |
| Examples.RecognizerFaultAfterComma | src/main/java/com/example/compiler/JSONRecognizer.java:33 | `[1,` throws in the recognizer |
| Examples.TrailingCommaRejected | src/main/java/com/example/compiler/JSONParser.java:166-191 | `[1,]` fails in both classes: the turn after the comma fails, the loop stops before the comma, and `]` is not there |
| Examples.TrailingCommaInObjectRejected | src/main/java/com/example/compiler/JSONParser.java:105-158 | `{"a":1,}` fails in both classes, for the same reason |
| Examples.BigThrows | src/main/java/com/example/compiler/JSONParser.java:54 | `2147483648` makes `Integer.parseInt` throw |
| Examples.BigStrOverflows | src/main/java/com/example/compiler/JSONParser.java:54 | `["2147483648"]` holds a digit run that `Integer.parseInt` refuses |
| Examples.BigInString | src/main/java/com/example/compiler/JSONParser.java:36-43 | yet both classes read `["2147483648"]`, as the list of one string, to the same end: a run inside a string is never parsed as a number |
| Examples.Overflow | src/main/java/com/example/compiler/JSONParser.java:54 | on `2147483648` the parser throws and the recognizer accepts |

## Left out

- JavaText.IsDigit: only the ASCII digits. `Character.isDigit` and `Integer.parseInt` also accept the other Unicode decimal digits. With those, the digit loop would read more runs.
- JavaText.IsWhitespace follows the Unicode tables of current Java. Java `char`s are UTF-16 code units; Dafny `char`s are Unicode scalar values. Surrogate pairs are not modelled. No supplementary character is whitespace or a digit, so the rules do not change.
- The state of a parser or recognizer after a rule has thrown is left open beyond `pos` staying within the input. The exception ends the whole call, and the object is dropped.
- Exception types and messages (`StringIndexOutOfBoundsException`, `NumberFormatException`) collapse into one outcome, `Throws`.
- Parser.JsonParser.ParseValue, ParseObject, ParsePair, ParseNextPair, ParseNextValue, ParseArray, MatchBraced and MatchBracketed say, after a failure, only that the stack is unchanged, or that the old stack is still underneath and the next non-whitespace character is one of a few openers. They do not describe exactly which entries the failed attempt left on top. The Java pushes them and never pops them.
- Parser.JsonParser.ParsePairs and ParseValues say the same after a match, about what failed turns of their loops left.
- The Java classes and the objects on the stack: `HashMap`, `ArrayList`, `Stack`, `Integer`, `Boolean` and `String` are values here (`J`, `map`, `seq`). Object identity, and equality of Java objects, is not modelled.
- The recognizer's tests are not modelled as written. They compare a boolean with a map or with null, which cannot succeed. The model uses their inputs only for what the recognizer does on them (`Examples.Fault*`, `Examples.Overflow`, and the simulation lemmas in `Equivalence`).
- Examples.TestInputs: states the parse of the two test documents as printed by `Print` in the compact and the indented layout. It does not prove, character by character, that these texts equal the string literals of `JSONParserTest`. The layouts are chosen to produce them.
- The `parseInCorrect` input is covered by `ParserFacts.MissingColon`, which holds for any input that opens with a key and then something other than `:` or whitespace. The literal itself is not evaluated character by character.
- Readback.PrintedParses (and ValueRead, WhitespaceInsensitive): the read-back is proved for the `Layout` family only. Whitespace before a `,` or a `:`, inside an empty `{}` or `[]`, and before or after the top-level value is not produced by `Print`, so those placements are not covered. `Examples.LeadingBeforeArray` and `Examples.TrailingInput` cover two of them on concrete inputs.
- Equivalence.ValueAgrees: assumes that no digit run anywhere in the text is above `Integer.MAX_VALUE`. `Equivalence.ValueAgreesUnthrown` drops that assumption but only covers the inputs where the parser does not throw.
- Equivalence.BracedAgrees: assumes that no digit run anywhere in the text is above `Integer.MAX_VALUE`. `Equivalence.BracedAgreesUnthrown` drops that assumption but only covers the inputs where the parser does not throw.
- Equivalence.PairAgrees: assumes that no digit run anywhere in the text is above `Integer.MAX_VALUE`. `Equivalence.PairAgreesUnthrown` drops that assumption but only covers the inputs where the parser does not throw.
- Equivalence.PairsAgrees: assumes that no digit run anywhere in the text is above `Integer.MAX_VALUE`. `Equivalence.PairsAgreesUnthrown` drops that assumption but only covers the inputs where the parser does not throw.
- Equivalence.NextPairAgrees: assumes that no digit run anywhere in the text is above `Integer.MAX_VALUE`. `Equivalence.NextPairAgreesUnthrown` drops that assumption but only covers the inputs where the parser does not throw.
- Equivalence.MorePairsAgrees: assumes that no digit run anywhere in the text is above `Integer.MAX_VALUE`. `Equivalence.MorePairsAgreesUnthrown` drops that assumption but only covers the inputs where the parser does not throw.
- Equivalence.BracketedAgrees: assumes that no digit run anywhere in the text is above `Integer.MAX_VALUE`. `Equivalence.BracketedAgreesUnthrown` drops that assumption but only covers the inputs where the parser does not throw.
- Equivalence.ValuesAgrees: assumes that no digit run anywhere in the text is above `Integer.MAX_VALUE`. `Equivalence.ValuesAgreesUnthrown` drops that assumption but only covers the inputs where the parser does not throw.
- Equivalence.NextValueAgrees: assumes that no digit run anywhere in the text is above `Integer.MAX_VALUE`. `Equivalence.NextValueAgreesUnthrown` drops that assumption but only covers the inputs where the parser does not throw.
- Equivalence.MoreValuesAgrees: assumes that no digit run anywhere in the text is above `Integer.MAX_VALUE`. `Equivalence.MoreValuesAgreesUnthrown` drops that assumption but only covers the inputs where the parser does not throw.
- Equivalence.RecognizeMatchesParse: the same assumption. `Equivalence.RecognizeAgainstParse` holds on every text but only says that the recognizer's throws are among the parser's.
- Recursion depth: the Java rules recurse once per level of nesting with no limit (JSONParser.java:88-205, JSONRecognizer.java:76-175). On deep enough input the JVM ends the call with an uncaught `StackOverflowError`. The model's recursion is unbounded, so its `Value` matches such input.
- `int` overflow of `pos` and of the stack size, for inputs longer than 2^31 - 1 characters, is not modelled.
