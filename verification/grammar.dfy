/**
 * What each routine of src/json.go computes, as functions of the input bytes and the absolute
 * start index. The imperative routines of module Parser are proved to return exactly these.
 */
module Grammar {
  import opened Ascii
  import opened Values
  import opened Numbers

  /**
   * The least index at or after `k` that is past the input or holds a byte failing `p`:
   * where a cursor loop `for i < len(s) && p(s[i]) { i += 1 }` stops.
   */
  function RunEnd(s: seq<byte>, k: int, p: byte -> bool): (r: int)
    requires 0 <= k
    decreases |s| - k
    ensures k <= r && (r == k || r <= |s|)
    ensures r < |s| ==> !p(s[r])
  {
    if k < |s| && p(s[k]) then RunEnd(s, k + 1, p) else k
  }

  /** Every byte a cursor loop passes over satisfies its condition. */
  lemma {:induction false} RunEndSkips(s: seq<byte>, k: int, p: byte -> bool)
    requires 0 <= k
    decreases |s| - k
    ensures forall m :: k <= m < RunEnd(s, k, p) ==> m < |s| && p(s[m])
  {
    if k < |s| && p(s[k]) {
      RunEndSkips(s, k + 1, p);
      forall m | k <= m < RunEnd(s, k, p)
        ensures m < |s| && p(s[m])
      {
        if m > k {
          assert k + 1 <= m < RunEnd(s, k + 1, p);
        }
      }
    } else {
      assert RunEnd(s, k, p) == k;
    }
  }

  /** Termination measure of the recursive descent: bytes left from `i`. */
  function Remaining(s: seq<byte>, i: int): nat {
    if i < |s| then |s| - i else 0
  }

  const TrueText: seq<byte> := [LowerT, LowerR, LowerU, LowerE]
  const FalseText: seq<byte> := [LowerF, LowerA, LowerL, LowerS, LowerE]
  const NullText: seq<byte> := [LowerN, LowerU, LowerL, LowerL]

  /** The literal `lit` fits in the input at `i` and is spelled there byte for byte. */
  predicate MatchesAt(s: seq<byte>, i: int, lit: seq<byte>) {
    0 <= i && i + |lit| <= |s| && s[i..i + |lit|] == lit
  }

  /** `parseTrue`. */
  function ParseTrue(s: seq<byte>, i: int): (r: Outcome)
    requires 0 <= i
    ensures r.Ok? <==> MatchesAt(s, i, TrueText)
    ensures r.Ok? ==> r == Ok(Bool(true), i + |TrueText|)
    ensures !r.Ok? ==> r == Err(Bool(false), InvalidTrue)
  {
    if i + 4 <= |s| && s[i] == LowerT && s[i + 1] == LowerR && s[i + 2] == LowerU && s[i + 3] == LowerE then
      Ok(Bool(true), i + 4)
    else
      Err(Bool(false), InvalidTrue)
  }

  /** `parseFalse`. */
  function ParseFalse(s: seq<byte>, i: int): (r: Outcome)
    requires 0 <= i
    ensures r.Ok? <==> MatchesAt(s, i, FalseText)
    ensures r.Ok? ==> r == Ok(Bool(false), i + |FalseText|)
    ensures !r.Ok? ==> r == Err(Bool(false), InvalidFalse)
  {
    if i + 5 <= |s| && s[i] == LowerF && s[i + 1] == LowerA && s[i + 2] == LowerL && s[i + 3] == LowerS
       && s[i + 4] == LowerE then
      Ok(Bool(false), i + 5)
    else
      Err(Bool(false), InvalidFalse)
  }

  /** `parseNull`. */
  function ParseNull(s: seq<byte>, i: int): (r: Outcome)
    requires 0 <= i
    ensures r.Ok? <==> MatchesAt(s, i, NullText)
    ensures r.Ok? ==> r == Ok(Null, i + |NullText|)
    ensures !r.Ok? ==> r == Err(Null, InvalidNull)
  {
    if i + 4 <= |s| && s[i] == LowerN && s[i + 1] == LowerU && s[i + 2] == LowerL && s[i + 3] == LowerL then
      Ok(Null, i + 4)
    else
      Err(Null, InvalidNull)
  }

  /**
   * `parseString`: the byte at `i` is skipped unseen, the text runs to the first quote or to
   * the end of the input, and parsing resumes one past that point.
   */
  function StringAt(s: seq<byte>, i: int): (r: Outcome)
    requires 0 <= i
    ensures r.Ok? && r.value.Str? && r.next >= i + 2
  {
    var j := RunEnd(s, i + 1, NotQuote);
    Ok(Str(Text(Span(s, i + 1, j))), j + 1)
  }

  /** The bytes a number routine collects from `i`: the run of bytes satisfying `p`. */
  function RunAt(s: seq<byte>, i: int, p: byte -> bool): (t: seq<byte>)
    requires 0 <= i
    ensures forall k :: 0 <= k < |t| ==> p(t[k])
  {
    RunEndSkips(s, i, p);
    Span(s, i, RunEnd(s, i, p))
  }

  /** The outcome `parseInt` builds from the conversion of the digits and the index after them. */
  function IntResult(c: Conversion, next: int): Outcome
  {
    match c.status
    case Exact => Ok(Int(c.value), next)
    case BadSyntax => Err(Int(c.value), IntSyntax)
    case OutOfRange => Err(Int(c.value), IntRange)
  }

  /** `parseInt`: the run of `-` and digits, converted by strconv.ParseInt. */
  function IntAt(s: seq<byte>, i: int): (r: Outcome)
    requires 0 <= i
    ensures !r.Crash?
    ensures r.Ok? <==> (IsSignedDecimal(RunAt(s, i, CanTryParseAsInt))
                        && MinInt64 <= SignedValue(RunAt(s, i, CanTryParseAsInt)) <= MaxInt64)
    ensures r.Ok? ==> (r.value == Int(SignedValue(RunAt(s, i, CanTryParseAsInt)))
                       && r.next == i + |RunAt(s, i, CanTryParseAsInt)| > i)
    ensures !r.Ok? ==> r == Err(Int(ParseInt64(RunAt(s, i, CanTryParseAsInt)).value),
                                if ParseInt64(RunAt(s, i, CanTryParseAsInt)).status == BadSyntax
                                then IntSyntax else IntRange)
  {
    IntResult(ParseInt64(RunAt(s, i, CanTryParseAsInt)), RunEnd(s, i, CanTryParseAsInt))
  }

  /** The outcome `parseFloat` builds once the run holds a dot: strconv.ParseFloat decides. */
  function FloatResult(t: seq<byte>, next: int): Outcome
    requires forall k :: 0 <= k < |t| ==> IsFloatByte(t[k])
  {
    match FloatStatus(t)
    case Exact => Ok(Float(Text(t)), next)
    case BadSyntax => Err(Null, FloatSyntax)
    case OutOfRange => Err(Null, FloatRange)
  }

  /** `parseFloat`: the run of `-`, digits and `.`; without a dot it is not a float. */
  function FloatAt(s: seq<byte>, i: int): (r: Outcome)
    requires 0 <= i
    ensures !r.Crash?
    ensures r.Ok? <==> (Dot in RunAt(s, i, IsFloatByte)
                        && IsDecimalMantissa(Unsigned(RunAt(s, i, IsFloatByte)))
                        && IntegerPart(Unsigned(RunAt(s, i, IsFloatByte))) < FloatOverflow)
    ensures r.Ok? ==> (r.value == Float(Text(RunAt(s, i, IsFloatByte)))
                       && r.next == i + |RunAt(s, i, IsFloatByte)| > i)
    ensures !r.Ok? ==> r.Err? && r.partial == Null
    ensures !r.Ok? ==> r.kind == if Dot !in RunAt(s, i, IsFloatByte) then NoFractionPart
                                 else if !IsDecimalMantissa(Unsigned(RunAt(s, i, IsFloatByte)))
                                 then FloatSyntax else FloatRange
  {
    var t := RunAt(s, i, IsFloatByte);
    if Dot !in t then Err(Null, NoFractionPart) else FloatResult(t, RunEnd(s, i, IsFloatByte))
  }

  /** `parseJsonElement`: dispatch on the single byte at `i`. */
  function ElementAt(s: seq<byte>, i: int): (r: Outcome)
    requires 0 <= i
    decreases Remaining(s, i), 1
    ensures r.Ok? ==> r.next > i
  {
    if i >= |s| then Crash
    else if CanTryParseAsObject(s[i]) then ObjectAt(s, i)
    else if CanTryParseAsArray(s[i]) then ArrayAt(s, i)
    else ScalarAt(s, i)
  }

  /** The branches of `parseJsonElement` after `{` and `[`: routines that do not recurse. */
  function ScalarAt(s: seq<byte>, i: int): (r: Outcome)
    requires 0 <= i < |s|
    ensures r.Ok? ==> r.next > i
  {
    if CanTryParseAsString(s[i]) then StringAt(s, i)
    else if CanTryParseAsInt(s[i]) then
      var f := FloatAt(s, i);
      if f.Err? then IntAt(s, i) else f
    else if CanTryParseAsNull(s[i]) then ParseNull(s, i)
    else if CanTryParseAsFalse(s[i]) then ParseFalse(s, i)
    else if CanTryParseAsTrue(s[i]) then ParseTrue(s, i)
    else Err(Null, InvalidCharacter)
  }

  /** On a `-` or a digit, `parseJsonElement` tries `parseFloat` first and `parseInt` after it. */
  lemma ElementAtNumber(s: seq<byte>, i: int)
    requires 0 <= i < |s| && CanTryParseAsInt(s[i])
    ensures ElementAt(s, i) == (if FloatAt(s, i).Err? then IntAt(s, i) else FloatAt(s, i))
  {
    assert ElementAt(s, i) == ScalarAt(s, i);
  }

  /** `parseArray`: skip the byte at `i` and whitespace, then collect elements. */
  function ArrayAt(s: seq<byte>, i: int): (r: Outcome)
    requires 0 <= i < |s|
    decreases Remaining(s, i), 0
    ensures r.Ok? ==> r.next > i
  {
    ArrayItems(s, RunEnd(s, i + 1, IsWhiteSpace), [])
  }

  /** The loop of `parseArray` from index `j` with the elements `acc` collected so far. */
  function ArrayItems(s: seq<byte>, j: int, acc: seq<Value>): (r: Outcome)
    requires 0 <= j
    decreases Remaining(s, j), 2
    ensures r.Ok? ==> r.next > j
  {
    if j < |s| && s[j] != CloseBracket then
      if IsSeparator(s[j]) then ArrayItems(s, j + 1, acc)
      else
        match ElementAt(s, j)
        case Ok(v, n) => ArrayItems(s, n, acc + [v])
        case Err(_, e) => Err(Arr(acc), e)
        case Crash => Crash
    else
      Ok(Arr(acc), j + 1)
  }

  /** One turn of the loop of `parseArray` at `j`: skip a separator, or stop, or store an element. */
  lemma ArrayItemsStep(s: seq<byte>, j: int, acc: seq<Value>)
    requires 0 <= j < |s| && s[j] != CloseBracket
    ensures IsSeparator(s[j]) ==> ArrayItems(s, j, acc) == ArrayItems(s, j + 1, acc)
    ensures !IsSeparator(s[j]) && ElementAt(s, j).Ok?
            ==> ArrayItems(s, j, acc) == ArrayItems(s, ElementAt(s, j).next, acc + [ElementAt(s, j).value])
    ensures !IsSeparator(s[j]) && ElementAt(s, j).Err?
            ==> ArrayItems(s, j, acc) == Err(Arr(acc), ElementAt(s, j).kind)
    ensures !IsSeparator(s[j]) && ElementAt(s, j).Crash? ==> ArrayItems(s, j, acc) == Crash
  {
  }

  /** `parseObject`: skip the byte at `i`, then a quote or `}` must follow the whitespace. */
  function ObjectAt(s: seq<byte>, i: int): (r: Outcome)
    requires 0 <= i < |s|
    decreases Remaining(s, i), 0
    ensures r.Ok? ==> r.next > i
  {
    var k := RunEnd(s, RunEnd(s, i, IsWhiteSpace) + 1, IsWhiteSpace);
    if k >= |s| then Crash
    else if s[k] != Quote && s[k] != CloseBrace then Err(Obj(map[]), ExpectedStartQuote)
    else ObjectMembers(s, k, map[])
  }

  /** The text of the key that `parseString` reads at `j`. */
  function KeyAt(s: seq<byte>, j: int): string
    requires 0 <= j
  {
    StringAt(s, j).value.text
  }

  /** Where the colon of the member whose key starts at `j` must stand: after the key and whitespace. */
  function ColonAt(s: seq<byte>, j: int): (c: int)
    requires 0 <= j
    ensures c >= j + 2
  {
    RunEnd(s, StringAt(s, j).next, IsWhiteSpace)
  }

  /** The loop of `parseObject` from index `j` with the members `acc` collected so far. */
  function ObjectMembers(s: seq<byte>, j: int, acc: map<string, Value>): (r: Outcome)
    requires 0 <= j
    decreases Remaining(s, j), 2
    ensures r.Ok? ==> r.next > j
  {
    if j < |s| && s[j] != CloseBrace then
      if IsSeparator(s[j]) then ObjectMembers(s, j + 1, acc)
      else
        match MemberAt(s, j, acc)
        case Next(n, m) => ObjectMembers(s, n, m)
        case Stop(o) => o
    else
      Ok(Obj(acc), j + 1)
  }

  /** One turn of the loop of `parseObject` at `j`: skip a separator, or take a member. */
  lemma ObjectMembersStep(s: seq<byte>, j: int, acc: map<string, Value>)
    requires 0 <= j < |s| && s[j] != CloseBrace
    ensures IsSeparator(s[j]) ==> ObjectMembers(s, j, acc) == ObjectMembers(s, j + 1, acc)
    ensures !IsSeparator(s[j]) && MemberAt(s, j, acc).Next?
            ==> ObjectMembers(s, j, acc) == ObjectMembers(s, MemberAt(s, j, acc).at, MemberAt(s, j, acc).members)
    ensures !IsSeparator(s[j]) && MemberAt(s, j, acc).Stop?
            ==> ObjectMembers(s, j, acc) == MemberAt(s, j, acc).outcome
  {
  }

  /** How one turn of the loop of `parseObject` ends: go on at `at`, or return `outcome`. */
  datatype Turn = Next(at: int, members: map<string, Value>) | Stop(outcome: Outcome)

  /**
   * One turn of the loop of `parseObject` on a member whose key starts at `j`: the key, the
   * colon after whitespace, the value after whitespace, and the member stored under its key.
   */
  function MemberAt(s: seq<byte>, j: int, acc: map<string, Value>): (t: Turn)
    requires 0 <= j < |s|
    decreases Remaining(s, j), 1
    ensures t.Next? ==> t.at > j
  {
    var c := ColonAt(s, j);
    if c >= |s| then Stop(Crash)
    else if s[c] != Colon then Stop(Err(Obj(acc), ExpectedColon))
    else
      match ElementAt(s, RunEnd(s, c + 1, IsWhiteSpace))
      case Ok(v, n) => Next(n, acc[KeyAt(s, j) := v])
      case Err(_, e) => Stop(Err(Obj(acc), e))
      case Crash => Stop(Crash)
  }

  /**
   * The loop of `parseJson` from index `i`, holding the last value and offset returned.
   * After a value it resumes at `i + next`, the absolute end added to the cursor.
   */
  function Drive(s: seq<byte>, i: int, json: Value, offset: int): (r: Outcome)
    requires 0 <= i
    decreases |s| - i
  {
    if i < |s| then
      if IsWhiteSpace(s[i]) then Drive(s, i + 1, json, offset)
      else
        match ElementAt(s, i)
        case Ok(v, n) => Drive(s, i + n, v, n)
        case Err(p, e) => Err(p, e)
        case Crash => Crash
    else
      Ok(json, offset)
  }

  /** One turn of the loop of `parseJson`: skip a blank, or stop on an error, or go on past a value. */
  lemma DriveStep(s: seq<byte>, i: int, json: Value, offset: int)
    requires 0 <= i < |s|
    ensures IsWhiteSpace(s[i]) ==> Drive(s, i, json, offset) == Drive(s, i + 1, json, offset)
    ensures !IsWhiteSpace(s[i]) && ElementAt(s, i).Ok?
            ==> Drive(s, i, json, offset) == Drive(s, i + ElementAt(s, i).next, ElementAt(s, i).value, ElementAt(s, i).next)
    ensures !IsWhiteSpace(s[i]) && !ElementAt(s, i).Ok? ==> Drive(s, i, json, offset) == ElementAt(s, i)
  {
  }

  /** `parseJson`: the loop from index 0, with the empty input answered by the empty string. */
  function TopLevel(s: seq<byte>): Outcome {
    if |s| == 0 then Ok(Str([]), 0) else Drive(s, 0, Null, 0)
  }

  /** `ParseJson`: the value and the error, the resume index dropped. */
  function Parse(s: seq<byte>): JsonResult {
    match TopLevel(s)
    case Ok(v, _) => Parsed(v)
    case Err(p, e) => Failed(p, e)
    case Crash => Panicked
  }
}
