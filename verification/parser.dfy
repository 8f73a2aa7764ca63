/**
 * The routines of src/json.go as they run: cursor loops over the input that build their
 * results step by step. Each is proved to return what module Grammar says it computes.
 * A Go index-out-of-range panic is returned as Crash and passed up by every caller, as the
 * panic unwinds the whole call.
 */
module Parser {
  import opened Ascii
  import opened Values
  import opened Numbers
  import opened Grammar

  /** `ParseJson`: the parse without the resume index. */
  method ParseJson(s: seq<byte>) returns (r: JsonResult)
    ensures r == Parse(s)
  {
    var o := ParseJsonWithOffset(s);
    match o
    case Ok(v, _) => r := Parsed(v);
    case Err(p, e) => r := Failed(p, e);
    case Crash => r := Panicked;
  }

  /** `parseJson`: skip whitespace, parse an element, add its end to the cursor, repeat. */
  method ParseJsonWithOffset(s: seq<byte>) returns (r: Outcome)
    ensures r == TopLevel(s)
  {
    var json := Null;
    var offset := 0;
    var i := 0;
    while i < |s|
      invariant 0 <= i
      invariant Drive(s, i, json, offset) == Drive(s, 0, Null, 0)
      decreases |s| - i
    {
      if IsWhiteSpace(s[i]) {
        i := i + 1;
        continue;
      }
      var e := ParseJsonElement(s, i);
      if e.Crash? {
        return Crash;
      }
      if e.Err? {
        return Err(e.partial, e.kind);
      }
      json, offset := e.value, e.next;
      i := i + offset;
    }
    if |s| == 0 {
      json := Str("");
    }
    return Ok(json, offset);
  }

  /** `skipWhiteSpaces`. */
  method SkipWhiteSpaces(s: seq<byte>, start: int) returns (i: int)
    requires 0 <= start
    ensures i == RunEnd(s, start, IsWhiteSpace)
  {
    i := start;
    while i < |s| && IsWhiteSpace(s[i])
      invariant start <= i
      invariant RunEnd(s, i, IsWhiteSpace) == RunEnd(s, start, IsWhiteSpace)
      decreases |s| - i
    {
      i := i + 1;
    }
  }

  /** `parseJsonElement`. */
  method ParseJsonElement(s: seq<byte>, i: int) returns (r: Outcome)
    requires 0 <= i
    decreases Remaining(s, i), 1
    ensures r == ElementAt(s, i)
  {
    if i >= |s| {
      // reading the byte at `i` is out of range: a panic
      return Crash;
    }
    var c := s[i];
    if CanTryParseAsObject(c) {
      r := ParseObject(s, i);
    } else if CanTryParseAsArray(c) {
      r := ParseArray(s, i);
    } else if CanTryParseAsString(c) {
      r := ParseString(s, i);
    } else if CanTryParseAsInt(c) {
      r := ParseFloat(s, i);
      if r.Err? {
        r := ParseInt(s, i);
      }
    } else if CanTryParseAsNull(c) {
      r := ParseNull(s, i);
    } else if CanTryParseAsFalse(c) {
      r := ParseFalse(s, i);
    } else if CanTryParseAsTrue(c) {
      r := ParseTrue(s, i);
    } else {
      r := Err(Null, InvalidCharacter);
    }
  }

  /** `parseString`. */
  method ParseString(s: seq<byte>, start: int) returns (r: Outcome)
    requires 0 <= start
    ensures r == StringAt(s, start)
  {
    var i := start + 1;  // the byte at `start` is passed over unread
    var result: string := "";
    while i < |s| && s[i] != Quote
      invariant start + 1 <= i
      invariant RunEnd(s, i, NotQuote) == RunEnd(s, start + 1, NotQuote)
      invariant result == Text(Span(s, start + 1, i))
      decreases |s| - i
    {
      result := result + [Char(s[i])];
      SpanSnoc(s, start + 1, i);
      TextSnoc(Span(s, start + 1, i), s[i]);
      i := i + 1;
    }
    if i < |s| && s[i] != Quote {
      return Err(Str(""), UnterminatedString);
    }
    i := i + 1;  // resume one past the closing quote, or past the end
    return Ok(Str(result), i);
  }

  /** `parseInt`. */
  method ParseInt(s: seq<byte>, start: int) returns (r: Outcome)
    requires 0 <= start
    ensures r == IntAt(s, start)
  {
    var num: seq<byte> := [];
    var i := start;
    while i < |s| && CanTryParseAsInt(s[i])
      invariant start <= i
      invariant RunEnd(s, i, CanTryParseAsInt) == RunEnd(s, start, CanTryParseAsInt)
      invariant num == Span(s, start, i)
      decreases |s| - i
    {
      num := num + [s[i]];
      i := i + 1;
    }
    r := IntResult(ParseInt64(num), i);
  }

  /** `parseFloat`: the part before the first dot and the part from it are kept apart. */
  method ParseFloat(s: seq<byte>, start: int) returns (r: Outcome)
    requires 0 <= start
    ensures r == FloatAt(s, start)
  {
    var decimalPart: seq<byte> := [];
    var fractionPart: seq<byte> := [];
    var i := start;
    while i < |s| && (CanTryParseAsInt(s[i]) || s[i] == Dot)
      invariant start <= i
      invariant RunEnd(s, i, IsFloatByte) == RunEnd(s, start, IsFloatByte)
      invariant decimalPart + fractionPart == Span(s, start, i)
      invariant Dot !in decimalPart
      invariant fractionPart == [] || fractionPart[0] == Dot
      decreases |s| - i
    {
      SpanSnoc(s, start, i);
      if s[i] == Dot || |fractionPart| > 0 {
        assert decimalPart + (fractionPart + [s[i]]) == (decimalPart + fractionPart) + [s[i]];
      }
      if s[i] == Dot {
        fractionPart := fractionPart + [s[i]];
      } else if |fractionPart| > 0 {
        fractionPart := fractionPart + [s[i]];
      } else {
        decimalPart := decimalPart + [s[i]];
      }
      i := i + 1;
    }
    FloatRunSplit(s, start, decimalPart, fractionPart, i);
    if |fractionPart| == 0 {
      return Err(Null, NoFractionPart);
    }
    r := FloatResult(decimalPart + fractionPart, i);
  }

  /** One more step of a cursor loop adds the byte under the cursor to the span it has passed. */
  lemma SpanSnoc(s: seq<byte>, start: int, i: int)
    requires 0 <= start <= i < |s|
    ensures Span(s, start, i + 1) == Span(s, start, i) + [s[i]]
  {
  }

  /** Appending a byte to a run appends its character to the text built from the run. */
  lemma TextSnoc(bs: seq<byte>, b: byte)
    ensures Text(bs + [b]) == Text(bs) + [Char(b)]
  {
    assert forall k :: 0 <= k < |bs| ==> (bs + [b])[k] == bs[k];
  }

  /**
   * Where the loop of `parseFloat` stops, the two parts it kept apart decide the outcome: no
   * dot was met exactly when the fraction part is empty.
   */
  lemma FloatRunSplit(s: seq<byte>, start: int, d: seq<byte>, f: seq<byte>, i: int)
    requires 0 <= start <= i == RunEnd(s, start, IsFloatByte)
    requires d + f == Span(s, start, i)
    requires Dot !in d
    requires f == [] || f[0] == Dot
    ensures f == [] ==> FloatAt(s, start) == Err(Null, NoFractionPart)
    ensures f != [] ==> (forall k :: 0 <= k < |d + f| ==> IsFloatByte((d + f)[k]))
                        && FloatAt(s, start) == FloatResult(d + f, i)
  {
    RunEndSkips(s, start, IsFloatByte);
    assert RunAt(s, start, IsFloatByte) == d + f;
    if f != [] {
      assert (d + f)[|d|] == Dot;
    }
  }

  /** `parseArray`. */
  method ParseArray(s: seq<byte>, start: int) returns (r: Outcome)
    requires 0 <= start < |s|
    decreases Remaining(s, start), 0
    ensures r == ArrayAt(s, start)
  {
    var i := SkipWhiteSpaces(s, start + 1);  // past the opening byte and any blanks after it
    var arr: seq<Value> := [];
    while i < |s| && s[i] != CloseBracket
      invariant start < i
      invariant ArrayItems(s, i, arr) == ArrayAt(s, start)
      decreases |s| - i
    {
      ArrayItemsStep(s, i, arr);
      if s[i] == Comma || IsWhiteSpace(s[i]) {
        i := i + 1;
        continue;
      }
      var element := ParseJsonElement(s, i);
      if element.Crash? {
        return Crash;
      }
      if element.Err? {
        return Err(Arr(arr), element.kind);
      }
      arr := arr + [element.value];
      i := element.next;
    }
    if i < |s| && s[i] != CloseBracket {
      return Err(Null, UnterminatedArray);
    }
    i := i + 1;  // resume one past the closing bracket
    return Ok(Arr(arr), i);
  }

  /** `parseObject`. */
  method ParseObject(s: seq<byte>, start: int) returns (r: Outcome)
    requires 0 <= start < |s|
    decreases Remaining(s, start), 0
    ensures r == ObjectAt(s, start)
  {
    var i := SkipWhiteSpaces(s, start);
    i := i + 1;  // past the opening brace
    var result: map<string, Value> := map[];
    i := SkipWhiteSpaces(s, i);
    if i >= |s| {
      // the byte at `i` is out of range: a panic
      return Crash;
    }
    if s[i] != Quote && s[i] != CloseBrace {
      return Err(Obj(result), ExpectedStartQuote);
    }
    while i < |s| && s[i] != CloseBrace
      invariant start < i
      invariant ObjectMembers(s, i, result) == ObjectAt(s, start)
      decreases |s| - i
    {
      ObjectMembersStep(s, i, result);
      if s[i] == Comma || IsWhiteSpace(s[i]) {
        i := i + 1;
        continue;
      }
      var turn := ParseMember(s, i, result);
      if turn.Stop? {
        return turn.outcome;
      }
      i, result := turn.at, turn.members;
    }
    if i < |s| && s[i] != CloseBrace {
      return Err(Null, UnterminatedObject);
    }
    i := i + 1;  // resume one past the closing brace
    return Ok(Obj(result), i);
  }

  /** The body of the loop of `parseObject` on a member: key, colon and value. */
  method ParseMember(s: seq<byte>, start: int, result: map<string, Value>) returns (t: Turn)
    requires 0 <= start < |s|
    decreases Remaining(s, start), 1
    ensures t == MemberAt(s, start, result)
  {
    var key := ParseString(s, start);
    if !key.Ok? {
      return Stop(Err(Obj(result), UnterminatedString));
    }
    var i := SkipWhiteSpaces(s, key.next);
    if i >= |s| {
      // the byte at `i` is out of range: a panic
      return Stop(Crash);
    }
    if s[i] != Colon {
      return Stop(Err(Obj(result), ExpectedColon));
    }
    i := SkipWhiteSpaces(s, i + 1);  // the value starts after the colon and its blanks
    var value := ParseJsonElement(s, i);
    if value.Crash? {
      return Stop(Crash);
    }
    if value.Err? {
      return Stop(Err(Obj(result), value.kind));
    }
    return Next(value.next, result[key.value.text := value.value]);
  }
}
