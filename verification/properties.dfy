/**
 * What the parser of src/json.go promises, stated over the functions of module Grammar and
 * proved for every input: the whitespace and string scanners, the integer round trip that the
 * test suite exercises, the literals, the loops of `parseArray`, `parseObject` and `parseJson`.
 */
module Properties {
  import opened Ascii
  import opened Values
  import opened Numbers
  import opened Grammar

  /** A cursor loop whose condition holds up to the end of the input stops at the end. */
  lemma {:induction false} RunEndCovers(s: seq<byte>, k: int, p: byte -> bool)
    requires 0 <= k <= |s|
    requires forall m :: k <= m < |s| ==> p(s[m])
    ensures RunEnd(s, k, p) == |s|
    decreases |s| - k
  {
    if k < |s| {
      RunEndCovers(s, k + 1, p);
    }
  }

  /** `skipWhiteSpaces` stops exactly at the first byte from `k` on that is not whitespace. */
  lemma SkipWhiteSpacesStops(s: seq<byte>, k: int)
    requires 0 <= k
    ensures var r := RunEnd(s, k, IsWhiteSpace);
      && (forall m :: k <= m < r ==> m < |s| && IsWhiteSpace(s[m]))
      && (r < |s| ==> !IsWhiteSpace(s[r]))
      && (r >= |s| ==> r == k || r == |s|)
  {
    RunEndSkips(s, k, IsWhiteSpace);
  }

  /**
   * `parseString` never fails: it reads the bytes after position `i` up to the first quote,
   * none of which is a quote, and resumes after that quote; with no quote left it reads to the
   * end and resumes one past the end.
   */
  lemma StringAtSpec(s: seq<byte>, i: int)
    requires 0 <= i
    ensures var r := StringAt(s, i);
      && r.Ok? && r.value.Str? && r.next >= i + 2
      && (forall c :: c in r.value.text ==> c != '"')
      && (r.next <= |s| ==> s[r.next - 1] == Quote && r.value.text == Text(s[i + 1..r.next - 1]))
      && (r.next > |s| <==> forall k :: i < k < |s| ==> s[k] != Quote)
      && (r.next > |s| && i < |s| ==> r == Ok(Str(Text(s[i + 1..])), |s| + 1))
  {
    var j := RunEnd(s, i + 1, NotQuote);
    RunEndSkips(s, i + 1, NotQuote);
    var t := Span(s, i + 1, j);
    forall c | c in Text(t)
      ensures c != '"'
    {
      var k :| 0 <= k < |Text(t)| && Text(t)[k] == c;
      assert 0 <= i + 1 <= j <= |s| && t == s[i + 1..j];
      assert t[k] == s[i + 1 + k];
    }
    if j < |s| {
      assert s[j] == Quote;
    } else if i < |s| {
      assert j == |s|;
    }
  }

  /** An input that is one value from its first byte to its end parses to that value. */
  lemma ParseSingleElement(s: seq<byte>)
    requires |s| > 0 && !IsWhiteSpace(s[0])
    ensures var e := ElementAt(s, 0);
      && (e.Ok? && e.next >= |s| ==> Parse(s) == Parsed(e.value))
      && (e.Err? ==> Parse(s) == Failed(e.partial, e.kind))
      && (e.Crash? ==> Parse(s) == Panicked)
  {
    var e := ElementAt(s, 0);
    if e.Ok? && e.next >= |s| {
      assert Drive(s, 0, Null, 0) == Drive(s, e.next, e.value, e.next);
    }
  }

  /** The literals are parsed at the top level, wherever they stand in the test suite. */
  lemma ParseLiterals()
    ensures Parse(TrueText) == Parsed(Bool(true))
    ensures Parse(FalseText) == Parsed(Bool(false))
    ensures Parse(NullText) == Parsed(Null)
    ensures Parse([]) == Parsed(Str(""))
  {
    ParseSingleElement(TrueText);
    ParseSingleElement(FalseText);
    ParseSingleElement(NullText);
  }

  /**
   * An input made only of `-` and digits is handed whole to strconv.ParseInt: the value when
   * it converts, otherwise the value strconv returns beside its syntax or range error.
   */
  lemma ParseIntegerText(t: seq<byte>)
    requires |t| > 0 && forall k :: 0 <= k < |t| ==> CanTryParseAsInt(t[k])
    ensures var c := ParseInt64(t);
      Parse(t) == match c.status
        case Exact => Parsed(Int(c.value))
        case BadSyntax => Failed(Int(c.value), IntSyntax)
        case OutOfRange => Failed(Int(c.value), IntRange)
  {
    IntElementWhole(t);
    ParseSingleElement(t);
  }

  /** On such an input `parseFloat` finds no dot, and `parseInt` converts all of it. */
  lemma IntElementWhole(t: seq<byte>)
    requires |t| > 0 && forall k :: 0 <= k < |t| ==> CanTryParseAsInt(t[k])
    ensures ElementAt(t, 0) == IntResult(ParseInt64(t), |t|)
  {
    RunEndCovers(t, 0, IsFloatByte);
    RunEndCovers(t, 0, CanTryParseAsInt);
    assert RunAt(t, 0, IsFloatByte) == t;
    assert RunAt(t, 0, CanTryParseAsInt) == t;
    assert forall k :: 0 <= k < |t| ==> t[k] != Dot;
    assert FloatAt(t, 0) == Err(Null, NoFractionPart);
    ElementAtNumber(t, 0);
  }

  /** `ParseJson` of `fmt.Sprintf("%d", n)` is `n`, for every int64 `n`, negative ones too. */
  lemma ParseDecimalRoundTrip(n: nat)
    ensures n <= MaxInt64 ==> Parse(DecimalText(n)) == Parsed(Int(n))
    ensures n <= -MinInt64 ==> Parse([Minus] + DecimalText(n)) == Parsed(Int(-(n as int)))
  {
    DecimalTextRoundTrip(n);
    var t := DecimalText(n);
    if n <= MaxInt64 {
      assert forall k :: 0 <= k < |t| ==> CanTryParseAsInt(t[k]);
      ParseIntegerText(t);
    }
    if n <= -MinInt64 {
      SignedDigits(t);
      ParseIntegerText([Minus] + t);
    }
  }

  /** A minus sign before digits gives bytes that `parseInt` collects, all of them. */
  lemma SignedDigits(t: seq<byte>)
    requires AllDigits(t)
    ensures forall k :: 0 <= k < |[Minus] + t| ==> CanTryParseAsInt(([Minus] + t)[k])
  {
    var u := [Minus] + t;
    forall k | 0 <= k < |u|
      ensures CanTryParseAsInt(u[k])
    {
      if k > 0 {
        assert u[k] == t[k - 1];
      }
    }
  }

  /** `ParseJson` of a quoted text without quotes is that text, byte for byte. */
  lemma ParseQuotedText(body: seq<byte>)
    requires forall k :: 0 <= k < |body| ==> body[k] != Quote
    ensures Parse([Quote] + body + [Quote]) == Parsed(Str(Text(body)))
  {
    var s := [Quote] + body + [Quote];
    assert forall m :: 1 <= m < |s| - 1 ==> NotQuote(s[m]) by {
      forall m | 1 <= m < |s| - 1
        ensures NotQuote(s[m])
      {
        assert s[m] == body[m - 1];
      }
    }
    RunEndCovers(s[..|s| - 1], 1, NotQuote);
    RunEndPrefix(s, 1, NotQuote);
    assert RunEnd(s, 1, NotQuote) == |s| - 1;
    assert s[1..|s| - 1] == body;
    ParseSingleElement(s);
  }

  /** A run that stops inside a prefix of the input stops at the same place in the whole input. */
  lemma {:induction false} RunEndPrefix(s: seq<byte>, k: int, p: byte -> bool)
    requires 0 <= k <= |s| - 1
    requires RunEnd(s[..|s| - 1], k, p) == |s| - 1
    requires !p(s[|s| - 1])
    ensures RunEnd(s, k, p) == |s| - 1
    decreases |s| - k
  {
    if k < |s| - 1 {
      assert s[..|s| - 1][k] == s[k];
      RunEndPrefix(s, k + 1, p);
    }
  }

  /**
   * An input made only of `-`, digits and dots, holding a dot and not starting with one, is
   * handed whole to strconv.ParseFloat, and is a float keeping its text when that accepts it.
   */
  lemma ParseFloatText(t: seq<byte>)
    requires |t| > 0 && CanTryParseAsInt(t[0]) && Dot in t
    requires forall k :: 0 <= k < |t| ==> IsFloatByte(t[k])
    requires FloatStatus(t) == Exact
    ensures Parse(t) == Parsed(Float(Text(t)))
  {
    FloatElementWhole(t);
    ParseSingleElement(t);
  }

  /** `parseJsonElement` at the start of such an input reads all of it as a float. */
  lemma FloatElementWhole(t: seq<byte>)
    requires |t| > 0 && CanTryParseAsInt(t[0]) && Dot in t
    requires forall k :: 0 <= k < |t| ==> IsFloatByte(t[k])
    requires FloatStatus(t) == Exact
    ensures ElementAt(t, 0) == Ok(Float(Text(t)), |t|)
  {
    FloatAtWhole(t);
    assert FloatResult(t, |t|) == Ok(Float(Text(t)), |t|);
    ElementAtNumber(t, 0);
  }

  /** `parseFloat` at the start of such an input reads all of it. */
  lemma FloatAtWhole(t: seq<byte>)
    requires Dot in t
    requires forall k :: 0 <= k < |t| ==> IsFloatByte(t[k])
    ensures FloatAt(t, 0) == FloatResult(t, |t|)
  {
    RunEndCovers(t, 0, IsFloatByte);
    assert RunAt(t, 0, IsFloatByte) == t;
  }

  /** The text `%f` writes: an optional minus sign, the integer part, a dot, the fraction digits. */
  function FixedPointText(neg: bool, n: nat, fraction: seq<byte>): seq<byte> {
    (if neg then [Minus] else []) + DecimalText(n) + [Dot] + fraction
  }

  /** strconv.ParseFloat accepts `%f` text whose integer part is below float64 overflow. */
  lemma FixedPointAccepted(neg: bool, n: nat, fraction: seq<byte>)
    requires AllDigits(fraction)
    requires n < FloatOverflow
    ensures var t := FixedPointText(neg, n, fraction);
      && CanTryParseAsInt(t[0]) && Dot in t
      && (forall k :: 0 <= k < |t| ==> IsFloatByte(t[k]))
      && FloatStatus(t) == Exact
  {
    FixedPointBytes(neg, n, fraction);
    FixedPointMantissa(n, fraction);
    var t := FixedPointText(neg, n, fraction);
    var body := DecimalText(n) + [Dot] + fraction;
    if neg {
      assert t == [Minus] + body;
      assert t[1..] == body;
    } else {
      assert t == body;
      assert t[0] == DecimalText(n)[0];
    }
    assert Unsigned(t) == body;
  }

  /** `%f` text starts with a sign or a digit, holds a dot, and is made of float bytes only. */
  lemma FixedPointBytes(neg: bool, n: nat, fraction: seq<byte>)
    requires AllDigits(fraction)
    ensures var t := FixedPointText(neg, n, fraction);
      && CanTryParseAsInt(t[0]) && Dot in t
      && (forall k :: 0 <= k < |t| ==> IsFloatByte(t[k]))
  {
    var sign: seq<byte> := if neg then [Minus] else [];
    var d := DecimalText(n);
    var t := FixedPointText(neg, n, fraction);
    assert t == sign + d + [Dot] + fraction;
    forall k | 0 <= k < |t|
      ensures IsFloatByte(t[k])
    {
      if k < |sign| {
      } else if k < |sign| + |d| {
        assert t[k] == d[k - |sign|];
      } else if k > |sign| + |d| {
        assert t[k] == fraction[k - |sign| - |d| - 1];
      }
    }
    assert t[|sign| + |d|] == Dot;
  }

  /** Without its sign, `%f` text is a mantissa whose integer part is the number written. */
  lemma FixedPointMantissa(n: nat, fraction: seq<byte>)
    requires AllDigits(fraction)
    ensures var body := DecimalText(n) + [Dot] + fraction;
      IsDecimalMantissa(body) && IntegerPart(body) == n
  {
    var d := DecimalText(n);
    var body := d + [Dot] + fraction;
    var di := DotIndex(body);
    assert body[|d|] == Dot;
    assert di == |d|;
    assert body[..di] == d;
    assert body[di + 1..] == fraction;
    DecimalTextValue(n);
  }

  /**
   * A float written `%f`-style, as the test suite writes them, parses to a float that keeps
   * its text whenever its integer part is below float64 overflow.
   */
  lemma ParseFixedPoint(neg: bool, n: nat, fraction: seq<byte>)
    requires AllDigits(fraction)
    requires n < FloatOverflow
    ensures var t := FixedPointText(neg, n, fraction);
      Parse(t) == Parsed(Float(Text(t)))
  {
    FixedPointAccepted(neg, n, fraction);
    ParseFloatText(FixedPointText(neg, n, fraction));
  }

  /** The separators `parseArray` skips between `j` and `k` leave its outcome unchanged. */
  lemma {:induction false} ArrayItemsSkipsSeparators(s: seq<byte>, j: int, k: int, acc: seq<Value>)
    requires 0 <= j <= k <= |s|
    requires forall m :: j <= m < k ==> IsSeparator(s[m])
    ensures ArrayItems(s, j, acc) == ArrayItems(s, k, acc)
    decreases k - j
  {
    if j < k {
      ArrayItemsSkipsSeparators(s, j + 1, k, acc);
    }
  }

  /**
   * An array whose input ends after its elements and separators, without `]`, is returned
   * whole and parsing resumes one past the end of the input.
   */
  lemma ArrayItemsUnterminated(s: seq<byte>, j: int, acc: seq<Value>)
    requires 0 <= j <= |s|
    requires forall m :: j <= m < |s| ==> IsSeparator(s[m])
    ensures ArrayItems(s, j, acc) == Ok(Arr(acc), |s| + 1)
  {
    ArrayItemsSkipsSeparators(s, j, |s|, acc);
  }

  /**
   * The elements collected so far are never lost: they begin the array returned, whether the
   * loop ends or an element fails and the partial array is returned beside the error.
   */
  lemma {:induction false} ArrayItemsKeepsPrefix(s: seq<byte>, j: int, acc: seq<Value>)
    requires 0 <= j
    decreases Remaining(s, j)
    ensures var r := ArrayItems(s, j, acc);
      && (r.Ok? ==> r.value.Arr? && acc <= r.value.items)
      && (r.Err? ==> r.partial.Arr? && acc <= r.partial.items)
  {
    if j < |s| && s[j] != CloseBracket {
      if IsSeparator(s[j]) {
        ArrayItemsKeepsPrefix(s, j + 1, acc);
      } else {
        var e := ElementAt(s, j);
        if e.Ok? {
          ArrayItemsKeepsPrefix(s, e.next, acc + [e.value]);
        }
      }
    }
  }

  /** The separators `parseObject` skips between `j` and `k` leave its outcome unchanged. */
  lemma {:induction false} ObjectMembersSkipsSeparators(s: seq<byte>, j: int, k: int, acc: map<string, Value>)
    requires 0 <= j <= k <= |s|
    requires forall m :: j <= m < k ==> IsSeparator(s[m])
    ensures ObjectMembers(s, j, acc) == ObjectMembers(s, k, acc)
    decreases k - j
  {
    if j < k {
      ObjectMembersSkipsSeparators(s, j + 1, k, acc);
    }
  }

  /**
   * An object whose input ends after its members and separators, without `}`, is returned
   * whole and parsing resumes one past the end of the input.
   */
  lemma ObjectMembersUnterminated(s: seq<byte>, j: int, acc: map<string, Value>)
    requires 0 <= j <= |s|
    requires forall m :: j <= m < |s| ==> IsSeparator(s[m])
    ensures ObjectMembers(s, j, acc) == Ok(Obj(acc), |s| + 1)
  {
    ObjectMembersSkipsSeparators(s, j, |s|, acc);
  }

  /**
   * A member only ever adds or overwrites its key: the keys collected so far are all in the
   * object returned, and in the partial object returned beside an error.
   */
  lemma {:induction false} ObjectMembersKeepsKeys(s: seq<byte>, j: int, acc: map<string, Value>)
    requires 0 <= j
    decreases Remaining(s, j)
    ensures var r := ObjectMembers(s, j, acc);
      && (r.Ok? ==> r.value.Obj? && acc.Keys <= r.value.members.Keys)
      && (r.Err? ==> r.partial.Obj? && acc.Keys <= r.partial.members.Keys)
  {
    if j < |s| && s[j] != CloseBrace {
      if IsSeparator(s[j]) {
        ObjectMembersKeepsKeys(s, j + 1, acc);
      } else {
        var t := MemberAt(s, j, acc);
        if t.Next? {
          assert acc.Keys <= t.members.Keys;
          ObjectMembersKeepsKeys(s, t.at, t.members);
        }
      }
    }
  }

  /** A member stores the value after its colon under its key, replacing an earlier one. */
  lemma MemberAtStores(s: seq<byte>, j: int, acc: map<string, Value>)
    requires 0 <= j < |s|
    ensures var t := MemberAt(s, j, acc);
      t.Next? ==>
        && KeyAt(s, j) in t.members
        && t.members[KeyAt(s, j)] == ElementAt(s, RunEnd(s, ColonAt(s, j) + 1, IsWhiteSpace)).value
        && (forall key :: key in acc && key != KeyAt(s, j) ==> key in t.members && t.members[key] == acc[key])
        && t.members.Keys == acc.Keys + {KeyAt(s, j)}
  {
  }

  /** A cursor loop stops at `m` when its condition holds from `k` up to `m` and fails at `m`. */
  lemma {:induction false} RunEndStopsAt(s: seq<byte>, k: int, m: int, p: byte -> bool)
    requires 0 <= k <= m <= |s|
    requires forall x :: k <= x < m ==> p(s[x])
    requires m < |s| ==> !p(s[m])
    ensures RunEnd(s, k, p) == m
    decreases m - k
  {
    if k < m {
      RunEndStopsAt(s, k + 1, m, p);
    }
  }

  /**
   * `parseObject` at a `{`: past the brace and the blanks after it, the input running out is a
   * panic, a byte other than a quote or `}` is the start-quote error beside the empty object,
   * and otherwise the member loop starts there.
   */
  lemma ObjectAtStart(s: seq<byte>, i: int)
    requires 0 <= i < |s| && CanTryParseAsObject(s[i])
    ensures var k := RunEnd(s, i + 1, IsWhiteSpace);
      && (forall m :: i < m < k ==> m < |s| && IsWhiteSpace(s[m]))
      && (k < |s| ==> !IsWhiteSpace(s[k]))
      && (k >= |s| ==> ElementAt(s, i) == Crash)
      && (k < |s| && s[k] != Quote && s[k] != CloseBrace ==> ElementAt(s, i) == Err(Obj(map[]), ExpectedStartQuote))
      && (k < |s| && (s[k] == Quote || s[k] == CloseBrace) ==> ElementAt(s, i) == ObjectMembers(s, k, map[]))
  {
    assert RunEnd(s, i, IsWhiteSpace) == i;
    RunEndSkips(s, i + 1, IsWhiteSpace);
  }

  /**
   * A member of `parseObject`: the colon is looked for at the first byte after the key and the
   * blanks that follow it. Past the end that is a panic, any byte but a colon is the colon error
   * beside the members read so far, and an error or a panic of the value is passed up with them.
   */
  lemma MemberAtOutcomes(s: seq<byte>, j: int, acc: map<string, Value>)
    requires 0 <= j < |s|
    ensures var c := ColonAt(s, j);
      && (forall m :: StringAt(s, j).next <= m < c ==> m < |s| && IsWhiteSpace(s[m]))
      && (c < |s| ==> !IsWhiteSpace(s[c]))
      && (c >= |s| ==> MemberAt(s, j, acc) == Stop(Crash))
      && (c < |s| && s[c] != Colon ==> MemberAt(s, j, acc) == Stop(Err(Obj(acc), ExpectedColon)))
      && (c < |s| && s[c] == Colon ==>
            var e := ElementAt(s, RunEnd(s, c + 1, IsWhiteSpace));
            && (e.Err? ==> MemberAt(s, j, acc) == Stop(Err(Obj(acc), e.kind)))
            && (e.Crash? ==> MemberAt(s, j, acc) == Stop(Crash)))
  {
    RunEndSkips(s, StringAt(s, j).next, IsWhiteSpace);
  }

  /** `{`, blanks, then a byte that is neither a quote nor `}`: the start-quote error. */
  lemma ParseObjectStartQuote(w: seq<byte>, c: byte, rest: seq<byte>)
    requires forall k :: 0 <= k < |w| ==> IsWhiteSpace(w[k])
    requires !IsWhiteSpace(c) && c != Quote && c != CloseBrace
    ensures Parse([OpenBrace] + w + [c] + rest) == Failed(Obj(map[]), ExpectedStartQuote)
  {
    var s := [OpenBrace] + w + [c] + rest;
    forall m | 1 <= m < 1 + |w|
      ensures IsWhiteSpace(s[m])
    {
      assert s[m] == w[m - 1];
    }
    assert s[1 + |w|] == c;
    RunEndStopsAt(s, 1, 1 + |w|, IsWhiteSpace);
    ObjectAtStart(s, 0);
    ParseSingleElement(s);
  }

  /** `{` followed by blanks only: looking for the start quote reads past the end and panics. */
  lemma ParseObjectOpenOnly(w: seq<byte>)
    requires forall k :: 0 <= k < |w| ==> IsWhiteSpace(w[k])
    ensures Parse([OpenBrace] + w) == Panicked
  {
    var s := [OpenBrace] + w;
    forall m | 1 <= m < |s|
      ensures IsWhiteSpace(s[m])
    {
      assert s[m] == w[m - 1];
    }
    RunEndStopsAt(s, 1, |s|, IsWhiteSpace);
    ObjectAtStart(s, 0);
    ParseSingleElement(s);
  }

  /**
   * An input opening with `{` and a quote that closes at `q`, followed by blanks up to `c`: the
   * member loop starts at the key, the key is the text between the quotes, and the colon is
   * looked for at `c`.
   */
  lemma QuotedKeyAt(s: seq<byte>, q: int, c: int)
    requires 2 <= q < c <= |s| && s[0] == OpenBrace && s[1] == Quote && s[q] == Quote
    requires forall x :: 2 <= x < q ==> s[x] != Quote
    requires forall x :: q < x < c ==> IsWhiteSpace(s[x])
    requires c < |s| ==> !IsWhiteSpace(s[c])
    ensures ElementAt(s, 0) == ObjectMembers(s, 1, map[])
    ensures KeyAt(s, 1) == Text(s[2..q])
    ensures ColonAt(s, 1) == c
  {
    RunEndStopsAt(s, 1, 1, IsWhiteSpace);
    ObjectAtStart(s, 0);
    RunEndStopsAt(s, 2, q, NotQuote);
    RunEndStopsAt(s, q + 1, c, IsWhiteSpace);
  }

  /** The bytes of `{"key"` followed by blanks, as `QuotedKeyAt` needs them. */
  lemma QuotedKeyBytes(s: seq<byte>, key: seq<byte>, w: seq<byte>)
    requires |s| >= 3 + |key| + |w|
    requires s[..3 + |key| + |w|] == [OpenBrace, Quote] + key + [Quote] + w
    ensures s[0] == OpenBrace && s[1] == Quote && s[2 + |key|] == Quote
    ensures s[2..2 + |key|] == key
    ensures forall x :: 3 + |key| <= x < 3 + |key| + |w| ==> s[x] == w[x - 3 - |key|]
  {
    var p := [OpenBrace, Quote] + key + [Quote] + w;
    assert forall x :: 0 <= x < |p| ==> s[x] == p[x] by {
      forall x | 0 <= x < |p|
        ensures s[x] == p[x]
      {
        assert s[..|p|][x] == s[x];
      }
    }
    assert p[2..2 + |key|] == key;
  }

  /** `{`, a quoted key, blanks, then a byte other than a colon: the colon error, with no members. */
  lemma ParseMissingColon(key: seq<byte>, w: seq<byte>, c: byte, rest: seq<byte>)
    requires forall k :: 0 <= k < |key| ==> key[k] != Quote
    requires forall k :: 0 <= k < |w| ==> IsWhiteSpace(w[k])
    requires !IsWhiteSpace(c) && c != Colon
    ensures Parse([OpenBrace, Quote] + key + [Quote] + w + [c] + rest) == Failed(Obj(map[]), ExpectedColon)
  {
    var s := [OpenBrace, Quote] + key + [Quote] + w + [c] + rest;
    var n := 3 + |key| + |w|;
    assert s[..n] == [OpenBrace, Quote] + key + [Quote] + w;
    assert s[n] == c;
    QuotedKeyBytes(s, key, w);
    QuotedKeyAt(s, 2 + |key|, n);
    ObjectMembersStep(s, 1, map[]);
    MemberAtOutcomes(s, 1, map[]);
    ParseSingleElement(s);
  }

  /** `{`, a quoted key and blanks to the end: looking for the colon reads past the end and panics. */
  lemma ParseKeyOnly(key: seq<byte>, w: seq<byte>)
    requires forall k :: 0 <= k < |key| ==> key[k] != Quote
    requires forall k :: 0 <= k < |w| ==> IsWhiteSpace(w[k])
    ensures Parse([OpenBrace, Quote] + key + [Quote] + w) == Panicked
  {
    var s := [OpenBrace, Quote] + key + [Quote] + w;
    assert s[..|s|] == s;
    QuotedKeyBytes(s, key, w);
    QuotedKeyAt(s, 2 + |key|, |s|);
    ObjectMembersStep(s, 1, map[]);
    MemberAtOutcomes(s, 1, map[]);
    ParseSingleElement(s);
  }

  /**
   * An object whose first key is quoted (closing quote at `q`) and followed by blanks, a colon at
   * `c` and blanks up to `v`: when `parseJsonElement` fails on the value at `v`, `parseJson` fails
   * with the same error beside the object without members, and when it panics, so does the parse.
   */
  lemma ObjectFirstValueFails(s: seq<byte>, q: int, c: int, v: int)
    requires 2 <= q < c < v <= |s| && s[0] == OpenBrace && s[1] == Quote && s[q] == Quote
    requires forall x :: 2 <= x < q ==> s[x] != Quote
    requires forall x :: q < x < c ==> IsWhiteSpace(s[x])
    requires s[c] == Colon
    requires forall x :: c < x < v ==> IsWhiteSpace(s[x])
    requires v < |s| ==> !IsWhiteSpace(s[v])
    ensures ElementAt(s, v).Err? ==> Parse(s) == Failed(Obj(map[]), ElementAt(s, v).kind)
    ensures ElementAt(s, v).Crash? ==> Parse(s) == Panicked
  {
    QuotedKeyAt(s, q, c);
    RunEndStopsAt(s, c + 1, v, IsWhiteSpace);
    FirstMemberValueFails(s, c, v);
    ParseSingleElement(s);
    var e := ElementAt(s, v);
    if e.Err? {
      assert ElementAt(s, 0) == Err(Obj(map[]), e.kind);
    } else if e.Crash? {
      assert ElementAt(s, 0) == Crash;
    }
  }

  /**
   * The first member of an object whose colon at `c` is followed by blanks up to `v`: an error
   * or a panic of the value there is what `parseJsonElement` returns for the whole object.
   */
  lemma FirstMemberValueFails(s: seq<byte>, c: int, v: int)
    requires 1 < c < |s| && s[1] == Quote && s[c] == Colon
    requires ElementAt(s, 0) == ObjectMembers(s, 1, map[]) && ColonAt(s, 1) == c
    requires RunEnd(s, c + 1, IsWhiteSpace) == v
    ensures ElementAt(s, v).Err? ==> ElementAt(s, 0) == Err(Obj(map[]), ElementAt(s, v).kind)
    ensures ElementAt(s, v).Crash? ==> ElementAt(s, 0) == Crash
  {
    assert !IsSeparator(s[1]);
    ObjectMembersStep(s, 1, map[]);
    MemberAtOutcomes(s, 1, map[]);
  }

  /** After its last value, `parseJson` skips trailing whitespace and returns that value. */
  lemma {:induction false} DriveOverWhitespace(s: seq<byte>, i: int, json: Value, offset: int)
    requires 0 <= i
    requires forall m :: i <= m < |s| ==> IsWhiteSpace(s[m])
    ensures Drive(s, i, json, offset) == Ok(json, offset)
    decreases |s| - i
  {
    if i < |s| {
      DriveOverWhitespace(s, i + 1, json, offset);
    }
  }

  /** Every byte from `i` to the end of the input is whitespace. */
  predicate BlankFrom(s: seq<byte>, i: int) {
    forall m :: 0 <= m < |s| && i <= m ==> IsWhiteSpace(s[m])
  }

  /**
   * The last top-level value: a value `v` read at the non-blank byte `k`, after which the loop
   * of `parseJson` moves its cursor to `k + n` and finds only whitespace from there.
   */
  predicate LastValueAt(s: seq<byte>, k: int, v: Value, n: int) {
    0 <= k < |s| && !IsWhiteSpace(s[k]) && ElementAt(s, k) == Ok(v, n) && BlankFrom(s, k + n)
  }

  /** What `DriveFailure` promises about the loop of `parseJson` from `i`, with witness `k`. */
  predicate FailsAtValue(s: seq<byte>, i: int, json: Value, offset: int, k: int)
    requires 0 <= i
  {
    !Drive(s, i, json, offset).Ok? ==>
      i <= k < |s| && !IsWhiteSpace(s[k]) && ElementAt(s, k) == Drive(s, i, json, offset)
  }

  /**
   * An error or a panic of the loop of `parseJson` is, for every input, that of a value it
   * reads at a non-blank byte `k`.
   */
  lemma {:induction false} DriveFailure(s: seq<byte>, i: int, json: Value, offset: int) returns (k: int)
    requires 0 <= i
    decreases |s| - i
    ensures FailsAtValue(s, i, json, offset, k)
  {
    k := i;
    if i < |s| {
      if IsWhiteSpace(s[i]) {
        k := DriveFailure(s, i + 1, json, offset);
        BlankStepKeepsFailure(s, i, json, offset, k);
      } else if ElementAt(s, i).Ok? {
        var e := ElementAt(s, i);
        k := DriveFailure(s, i + e.next, e.value, e.next);
        ValueStepKeepsFailure(s, i, json, offset, k);
      } else {
        ElementStepFails(s, i, json, offset);
      }
    }
  }

  /** A blank at `i` is skipped: a failure from `i + 1` is the failure from `i`. */
  lemma BlankStepKeepsFailure(s: seq<byte>, i: int, json: Value, offset: int, k: int)
    requires 0 <= i < |s| && IsWhiteSpace(s[i])
    requires FailsAtValue(s, i + 1, json, offset, k)
    ensures FailsAtValue(s, i, json, offset, k)
  {
    DriveStep(s, i, json, offset);
  }

  /** An error or a panic of the value read at `i` is the failure of the loop from `i`. */
  lemma ElementStepFails(s: seq<byte>, i: int, json: Value, offset: int)
    requires 0 <= i < |s| && !IsWhiteSpace(s[i]) && !ElementAt(s, i).Ok?
    ensures FailsAtValue(s, i, json, offset, i)
  {
    DriveStep(s, i, json, offset);
  }

  /** After a value read at `i`, a failure from where the cursor lands is the failure from `i`. */
  lemma ValueStepKeepsFailure(s: seq<byte>, i: int, json: Value, offset: int, k: int)
    requires 0 <= i < |s| && !IsWhiteSpace(s[i]) && ElementAt(s, i).Ok?
    requires FailsAtValue(s, i + ElementAt(s, i).next, ElementAt(s, i).value, ElementAt(s, i).next, k)
    ensures FailsAtValue(s, i, json, offset, k)
  {
    DriveStep(s, i, json, offset);
  }

  /** What `DriveLastValue` promises about the loop of `parseJson` from `i`, with witness `k`. */
  predicate EndsWithLastValue(s: seq<byte>, i: int, json: Value, offset: int, k: int)
    requires 0 <= i
  {
    var r := Drive(s, i, json, offset);
    r.Ok? ==> || (r == Ok(json, offset) && BlankFrom(s, i))
              || (i <= k && LastValueAt(s, k, r.value, r.next))
  }

  /**
   * A value returned by the loop of `parseJson` is, for every input, the value and offset it
   * started with when only whitespace is left, or the last value it reads, at the non-blank
   * byte `k`, after which it finds only whitespace from `k` plus the value's absolute end.
   */
  lemma {:induction false} DriveLastValue(s: seq<byte>, i: int, json: Value, offset: int) returns (k: int)
    requires 0 <= i
    decreases |s| - i
    ensures EndsWithLastValue(s, i, json, offset, k)
  {
    k := i;
    if i < |s| {
      if IsWhiteSpace(s[i]) {
        k := DriveLastValue(s, i + 1, json, offset);
        BlankStepKeepsLastValue(s, i, json, offset, k);
      } else if ElementAt(s, i).Ok? {
        var e := ElementAt(s, i);
        var m := DriveLastValue(s, i + e.next, e.value, e.next);
        k := ValueStepKeepsLastValue(s, i, json, offset, m);
      } else {
        DriveStep(s, i, json, offset);
      }
    }
  }

  /** A blank at `i` is skipped: the last value from `i + 1` is the last value from `i`. */
  lemma BlankStepKeepsLastValue(s: seq<byte>, i: int, json: Value, offset: int, k: int)
    requires 0 <= i < |s| && IsWhiteSpace(s[i])
    requires EndsWithLastValue(s, i + 1, json, offset, k)
    ensures EndsWithLastValue(s, i, json, offset, k)
  {
    DriveStep(s, i, json, offset);
  }

  /**
   * A value read at `i` is the last one when only whitespace follows where the cursor lands;
   * otherwise the last value is the one found from there.
   */
  lemma ValueStepKeepsLastValue(s: seq<byte>, i: int, json: Value, offset: int, m: int) returns (k: int)
    requires 0 <= i < |s| && !IsWhiteSpace(s[i]) && ElementAt(s, i).Ok?
    requires EndsWithLastValue(s, i + ElementAt(s, i).next, ElementAt(s, i).value, ElementAt(s, i).next, m)
    ensures EndsWithLastValue(s, i, json, offset, k)
  {
    DriveStep(s, i, json, offset);
    var e := ElementAt(s, i);
    var r := Drive(s, i + e.next, e.value, e.next);
    k := m;
    if r == Ok(e.value, e.next) && BlankFrom(s, i + e.next) {
      k := i;
      assert LastValueAt(s, i, r.value, r.next);
    }
  }

  /**
   * `ParseJson` on every input: an error or a panic is that of a value read at a non-blank byte;
   * a parsed value is the empty string for the empty input, nil for whitespace only, and
   * otherwise the last value read, with only whitespace after where the cursor then lands.
   */
  lemma ParseOutcome(s: seq<byte>)
    ensures Parse(s).Failed? ==>
              exists k :: 0 <= k < |s| && !IsWhiteSpace(s[k])
                          && ElementAt(s, k) == Err(Parse(s).returned, Parse(s).error)
    ensures Parse(s).Panicked? ==> exists k :: 0 <= k < |s| && !IsWhiteSpace(s[k]) && ElementAt(s, k) == Crash
    ensures Parse(s).Parsed? ==>
              || (s == [] && Parse(s).result == Str([]))
              || (s != [] && BlankFrom(s, 0) && Parse(s).result == Null)
              || exists k, n :: LastValueAt(s, k, Parse(s).result, n)
  {
    if s != [] {
      var k := DriveFailure(s, 0, Null, 0);
      var m := DriveLastValue(s, 0, Null, 0);
    }
  }

  /** An input of whitespace only gives nil, and the empty input the empty string. */
  lemma ParseBlank(s: seq<byte>)
    requires forall m :: 0 <= m < |s| ==> IsWhiteSpace(s[m])
    ensures Parse(s) == if |s| == 0 then Parsed(Str("")) else Parsed(Null)
  {
    DriveOverWhitespace(s, 0, Null, 0);
  }

  /** A value at the start of the input followed by whitespace only is the parse of the input. */
  lemma ParseValueThenBlank(s: seq<byte>)
    requires |s| > 0 && !IsWhiteSpace(s[0])
    requires ElementAt(s, 0).Ok?
    requires forall m :: ElementAt(s, 0).next <= m < |s| ==> IsWhiteSpace(s[m])
    ensures Parse(s) == Parsed(ElementAt(s, 0).value)
  {
    var e := ElementAt(s, 0);
    DriveOverWhitespace(s, e.next, e.value, e.next);
  }

  /** The bytes `parseJsonElement` has a routine for. */
  predicate StartsValue(c: byte) {
    || CanTryParseAsObject(c) || CanTryParseAsArray(c) || CanTryParseAsString(c)
    || CanTryParseAsInt(c) || CanTryParseAsNull(c) || CanTryParseAsFalse(c) || CanTryParseAsTrue(c)
  }

  /**
   * What `parseJsonElement` returns beside an error: an object for `{` and an array for `[`,
   * the int strconv.ParseInt returned for the run of `-` and digits together with its syntax or
   * range error, false for a bad literal true or false, and nil for a bad null or for a byte no
   * routine takes, which is exactly when the error is an invalid character.
   */
  lemma ElementAtErrorPartial(s: seq<byte>, i: int)
    requires 0 <= i
    ensures var r := ElementAt(s, i);
      && (r == Err(Null, InvalidCharacter) <==> i < |s| && !StartsValue(s[i]))
      && (r.Err? && CanTryParseAsObject(s[i]) ==> r.partial.Obj?)
      && (r.Err? && CanTryParseAsArray(s[i]) ==> r.partial.Arr?)
      && (r.Err? && CanTryParseAsInt(s[i]) ==>
            var c := ParseInt64(RunAt(s, i, CanTryParseAsInt));
            && r.partial == Int(c.value)
            && r.kind == if c.status == BadSyntax then IntSyntax else IntRange)
      && (r.Err? && (CanTryParseAsTrue(s[i]) || CanTryParseAsFalse(s[i])) ==> r.partial == Bool(false))
      && (r.Err? && CanTryParseAsNull(s[i]) ==> r.partial == Null)
      && (i < |s| && CanTryParseAsString(s[i]) ==> r.Ok?)
  {
    if i < |s| {
      if CanTryParseAsObject(s[i]) {
        var k := RunEnd(s, RunEnd(s, i, IsWhiteSpace) + 1, IsWhiteSpace);
        if k < |s| {
          ObjectMembersKeepsKeys(s, k, map[]);
        }
      } else if CanTryParseAsArray(s[i]) {
        ArrayItemsKeepsPrefix(s, RunEnd(s, i + 1, IsWhiteSpace), []);
      } else {
        assert ElementAt(s, i) == ScalarAt(s, i);
        if CanTryParseAsString(s[i]) {
          StringAtSpec(s, i);
        } else if CanTryParseAsInt(s[i]) {
          ElementAtNumber(s, i);
        }
      }
    }
  }

  /** The errors that can reach a caller: the three checks for an unterminated value never fire. */
  predicate Reachable(kind: ErrorKind) {
    kind != UnterminatedString && kind != UnterminatedArray && kind != UnterminatedObject
  }

  /** `parseJsonElement` never reports an unterminated string, array or object. */
  lemma {:induction false} ElementNeverUnterminated(s: seq<byte>, i: int)
    requires 0 <= i
    decreases Remaining(s, i), 1
    ensures ElementAt(s, i).Err? ==> Reachable(ElementAt(s, i).kind)
  {
    if i < |s| {
      if CanTryParseAsObject(s[i]) {
        var k := RunEnd(s, RunEnd(s, i, IsWhiteSpace) + 1, IsWhiteSpace);
        if k < |s| {
          MembersNeverUnterminated(s, k, map[]);
        }
      } else if CanTryParseAsArray(s[i]) {
        ItemsNeverUnterminated(s, RunEnd(s, i + 1, IsWhiteSpace), []);
      } else {
        assert ElementAt(s, i) == ScalarAt(s, i);
      }
    }
  }

  /** The loop of `parseArray` never reports an unterminated value. */
  lemma {:induction false} ItemsNeverUnterminated(s: seq<byte>, j: int, acc: seq<Value>)
    requires 0 <= j
    decreases Remaining(s, j), 2
    ensures ArrayItems(s, j, acc).Err? ==> Reachable(ArrayItems(s, j, acc).kind)
  {
    if j < |s| && s[j] != CloseBracket {
      ArrayItemsStep(s, j, acc);
      if IsSeparator(s[j]) {
        ItemsNeverUnterminated(s, j + 1, acc);
      } else {
        ElementNeverUnterminated(s, j);
        var e := ElementAt(s, j);
        if e.Ok? {
          ItemsNeverUnterminated(s, e.next, acc + [e.value]);
        }
      }
    }
  }

  /** The loop of `parseObject` never reports an unterminated value. */
  lemma {:induction false} MembersNeverUnterminated(s: seq<byte>, j: int, acc: map<string, Value>)
    requires 0 <= j
    decreases Remaining(s, j), 2
    ensures ObjectMembers(s, j, acc).Err? ==> Reachable(ObjectMembers(s, j, acc).kind)
  {
    if j < |s| && s[j] != CloseBrace {
      ObjectMembersStep(s, j, acc);
      if IsSeparator(s[j]) {
        MembersNeverUnterminated(s, j + 1, acc);
      } else {
        var c := ColonAt(s, j);
        if c < |s| && s[c] == Colon {
          ElementNeverUnterminated(s, RunEnd(s, c + 1, IsWhiteSpace));
        }
        var t := MemberAt(s, j, acc);
        if t.Next? {
          MembersNeverUnterminated(s, t.at, t.members);
        }
      }
    }
  }

  /** The loop of `parseJson` never reports an unterminated value. */
  lemma DriveNeverUnterminated(s: seq<byte>, i: int, json: Value, offset: int)
    requires 0 <= i
    ensures Drive(s, i, json, offset).Err? ==> Reachable(Drive(s, i, json, offset).kind)
  {
    var k := DriveFailure(s, i, json, offset);
    if Drive(s, i, json, offset).Err? {
      ElementNeverUnterminated(s, k);
    }
  }

  /**
   * `ParseJson` never fails for an unterminated string, array or object: the checks at the
   * end of `parseString`, `parseArray` and `parseObject` cannot fire.
   */
  lemma ParseNeverUnterminated(s: seq<byte>)
    ensures Parse(s).Failed? ==> Reachable(Parse(s).error)
  {
    DriveNeverUnterminated(s, 0, Null, 0);
  }
}
