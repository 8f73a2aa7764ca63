/**
 * Inputs on which src/json.go departs from JSON, worked through the model: elements need no
 * commas, repeated keys keep the last value, a missing colon keeps the members read so far,
 * a lone `{` panics, and the top level keeps the last of several values.
 */
module Scenarios {
  import opened Ascii
  import opened Values
  import opened Numbers
  import opened Grammar
  import opened Properties

  const One: byte := 0x31
  const Two: byte := 0x32
  const LowerX: byte := 0x78

  /** A single digit not followed by a digit, `-` or `.` is that int. */
  lemma ElementAtDigit(s: seq<byte>, i: int)
    requires 0 <= i < |s| && IsDigit(s[i])
    requires i + 1 < |s| ==> !IsFloatByte(s[i + 1])
    ensures ElementAt(s, i) == Ok(Int(DigitValue(s[i]) as int), i + 1)
  {
    assert RunEnd(s, i, IsFloatByte) == i + 1;
    assert RunEnd(s, i, CanTryParseAsInt) == i + 1;
    assert RunAt(s, i, IsFloatByte) == [s[i]];
    assert RunAt(s, i, CanTryParseAsInt) == [s[i]];
    assert ScanUint64([s[i]], 0) == Conversion(DigitValue(s[i]), Exact);
    assert ParseInt64([s[i]]) == Conversion(DigitValue(s[i]), Exact);
    assert ElementAt(s, i) == ScalarAt(s, i);
  }

  /** `[1 2]` is the array of 1 and 2: whitespace separates elements as a comma does. */
  lemma ArrayWithoutCommas()
    ensures Parse([OpenBracket, One, Space, Two, CloseBracket]) == Parsed(Arr([Int(1), Int(2)]))
  {
    var s := [OpenBracket, One, Space, Two, CloseBracket];
    ElementAtDigit(s, 1);
    ElementAtDigit(s, 3);
    assert DigitValue(One) == 1 && DigitValue(Two) == 2;
    assert [] + [Int(1)] == [Int(1)];
    assert [Int(1)] + [Int(2)] == [Int(1), Int(2)];
    assert ArrayItems(s, 1, []) == ArrayItems(s, 2, [Int(1)]);
    assert ArrayItems(s, 2, [Int(1)]) == ArrayItems(s, 3, [Int(1)]);
    assert ArrayItems(s, 3, [Int(1)]) == ArrayItems(s, 4, [Int(1), Int(2)]);
    assert ElementAt(s, 0) == Ok(Arr([Int(1), Int(2)]), 5);
    ParseSingleElement(s);
  }

  /** `[1` is the array of 1: the missing `]` is not an error. */
  lemma ArrayUnterminated()
    ensures Parse([OpenBracket, One]) == Parsed(Arr([Int(1)]))
  {
    var s := [OpenBracket, One];
    ElementAtDigit(s, 1);
    assert DigitValue(One) == 1;
    assert [] + [Int(1)] == [Int(1)];
    assert ArrayItems(s, 1, []) == ArrayItems(s, 2, [Int(1)]);
    assert ElementAt(s, 0) == Ok(Arr([Int(1)]), 3);
    ParseSingleElement(s);
  }

  /** `{"a" 1}` fails for want of a colon and returns the empty object read so far. */
  lemma ObjectWithoutColon()
    ensures Parse([OpenBrace, Quote, LowerA, Quote, Space, One, CloseBrace])
      == Failed(Obj(map[]), ExpectedColon)
  {
    var s := [OpenBrace, Quote, LowerA, Quote, Space, One, CloseBrace];
    assert RunEnd(s, 2, NotQuote) == 3;
    assert StringAt(s, 1).next == 4;
    assert RunEnd(s, 5, IsWhiteSpace) == 5;
    assert ColonAt(s, 1) == 5;
    assert MemberAt(s, 1, map[]) == Stop(Err(Obj(map[]), ExpectedColon));
    assert ObjectMembers(s, 1, map[]) == Err(Obj(map[]), ExpectedColon);
    assert ObjectAt(s, 0) == ObjectMembers(s, 1, map[]);
    assert ElementAt(s, 0) == Err(Obj(map[]), ExpectedColon);
    ParseSingleElement(s);
  }

  /**
   * `{`, `{"a"` and `{"a":` panic: the byte after the brace, after the key and after the
   * colon is read without a bounds check.
   */
  lemma UnfinishedObjectsPanic()
    ensures Parse([OpenBrace]) == Panicked
    ensures Parse([OpenBrace, Quote, LowerA, Quote]) == Panicked
    ensures Parse([OpenBrace, Quote, LowerA, Quote, Colon]) == Panicked
  {
    ParseSingleElement([OpenBrace]);
    var s := [OpenBrace, Quote, LowerA, Quote];
    assert RunEnd(s, 2, NotQuote) == 3;
    assert ColonAt(s, 1) == 4;
    assert MemberAt(s, 1, map[]) == Stop(Crash);
    assert ObjectMembers(s, 1, map[]) == Crash;
    assert ObjectAt(s, 0) == ObjectMembers(s, 1, map[]);
    assert ElementAt(s, 0) == Crash;
    ParseSingleElement(s);
    var u := [OpenBrace, Quote, LowerA, Quote, Colon];
    assert RunEnd(u, 2, NotQuote) == 3;
    assert ColonAt(u, 1) == 4;
    assert RunEnd(u, 5, IsWhiteSpace) == 5;
    assert MemberAt(u, 1, map[]) == Stop(Crash);
    assert ObjectMembers(u, 1, map[]) == Crash;
    assert ObjectAt(u, 0) == ObjectMembers(u, 1, map[]);
    assert ElementAt(u, 0) == Crash;
    ParseSingleElement(u);
  }

  /** `truex` fails on the `x`: `parseTrue` looks at four bytes and no further. */
  lemma TrueThenJunk()
    ensures Parse(TrueText + [LowerX]) == Failed(Null, InvalidCharacter)
  {
    var s := TrueText + [LowerX];
    assert s[0..4] == TrueText;
    assert ElementAt(s, 0) == Ok(Bool(true), 4);
    ElementAtErrorPartial(s, 4);
    assert Drive(s, 0, Null, 0) == Drive(s, 4, Bool(true), 4);
  }

  /** `1 2` is 2: the top level reads value after value and keeps the last. */
  lemma LastTopLevelValue()
    ensures Parse([One, Space, Two]) == Parsed(Int(2))
  {
    var s := [One, Space, Two];
    ElementAtDigit(s, 0);
    ElementAtDigit(s, 2);
    assert DigitValue(Two) == 2;
    assert Drive(s, 0, Null, 0) == Drive(s, 1, Int(1), 1);
    assert Drive(s, 1, Int(1), 1) == Drive(s, 2, Int(1), 1);
    assert Drive(s, 2, Int(1), 1) == Drive(s, 5, Int(2), 3);
  }

  /**
   * `1x` fails on the `x`, but ` 1x` is 1: after a value the top level resumes at the cursor
   * plus the absolute end of the value, so each leading whitespace byte skips one byte after it.
   */
  lemma LeadingWhitespaceSkipsAhead()
    ensures Parse([One, LowerX]) == Failed(Null, InvalidCharacter)
    ensures Parse([Space, One, LowerX]) == Parsed(Int(1))
  {
    var s := [One, LowerX];
    ElementAtDigit(s, 0);
    assert DigitValue(One) == 1;
    ElementAtErrorPartial(s, 1);
    assert Drive(s, 0, Null, 0) == Drive(s, 1, Int(1), 1);
    var u := [Space, One, LowerX];
    ElementAtDigit(u, 1);
    assert Drive(u, 0, Null, 0) == Drive(u, 1, Null, 0);
    assert Drive(u, 1, Null, 0) == Drive(u, 3, Int(1), 2);
  }

  /** The input `{"a":1,"a":2}`. */
  const RepeatedKeyText: seq<byte> := [OpenBrace, Quote, LowerA, Quote, Colon, One, Comma,
                                        Quote, LowerA, Quote, Colon, Two, CloseBrace]

  /** The first member of `{"a":1,"a":2}` stores 1 under "a". */
  lemma RepeatedKeyFirst()
    ensures MemberAt(RepeatedKeyText, 1, map[]) == Next(6, map["a" := Int(1)])
  {
    var s := RepeatedKeyText;
    assert Text([LowerA]) == "a";
    assert RunEnd(s, 2, NotQuote) == 3;
    assert s[2..3] == [LowerA];
    assert KeyAt(s, 1) == "a";
    assert ColonAt(s, 1) == 4;
    ElementAtDigit(s, 5);
    assert DigitValue(One) == 1;
  }

  /** The second member of `{"a":1,"a":2}` stores 2 under "a", over the 1. */
  lemma RepeatedKeySecond()
    ensures MemberAt(RepeatedKeyText, 7, map["a" := Int(1)]) == Next(12, map["a" := Int(2)])
  {
    var s := RepeatedKeyText;
    assert Text([LowerA]) == "a";
    assert RunEnd(s, 8, NotQuote) == 9;
    assert s[8..9] == [LowerA];
    assert KeyAt(s, 7) == "a";
    assert ColonAt(s, 7) == 10;
    ElementAtDigit(s, 11);
    assert DigitValue(Two) == 2;
    assert map["a" := Int(1)]["a" := Int(2)] == map["a" := Int(2)];
  }

  /** `{"a":1,"a":2}` is `{"a": 2}`: a repeated key keeps its last value. */
  lemma RepeatedKey()
    ensures Parse(RepeatedKeyText) == Parsed(Obj(map["a" := Int(2)]))
  {
    var s := RepeatedKeyText;
    RepeatedKeyFirst();
    RepeatedKeySecond();
    ObjectMembersStep(s, 1, map[]);
    ObjectMembersStep(s, 6, map["a" := Int(1)]);
    ObjectMembersStep(s, 7, map["a" := Int(1)]);
    assert ObjectMembers(s, 12, map["a" := Int(2)]) == Ok(Obj(map["a" := Int(2)]), 13);
    assert ObjectAt(s, 0) == ObjectMembers(s, 1, map[]);
    assert ElementAt(s, 0) == ObjectAt(s, 0);
    ParseSingleElement(s);
  }

  /** `{}` and `{` newline `}` are the empty object. */
  lemma EmptyObjects()
    ensures Parse([OpenBrace, CloseBrace]) == Parsed(Obj(map[]))
    ensures Parse([OpenBrace, LineFeed, CloseBrace]) == Parsed(Obj(map[]))
  {
    var s := [OpenBrace, CloseBrace];
    assert ObjectAt(s, 0) == ObjectMembers(s, 1, map[]);
    ParseSingleElement(s);
    var u := [OpenBrace, LineFeed, CloseBrace];
    assert RunEnd(u, 1, IsWhiteSpace) == 2;
    assert ObjectAt(u, 0) == ObjectMembers(u, 2, map[]);
    ParseSingleElement(u);
  }
}
