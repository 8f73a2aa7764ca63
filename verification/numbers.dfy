/**
 * The two conversions of Go's strconv package that the number routines call, restricted to
 * what they are handed there: `strconv.ParseInt(num, 10, 64)` and the accept/reject decision
 * of `strconv.ParseFloat(text, 64)`.
 */
module Numbers {
  import opened Ascii

  const MaxUint64: nat := 0xFFFF_FFFF_FFFF_FFFF
  const MaxInt64: int := 0x7FFF_FFFF_FFFF_FFFF
  const MinInt64: int := -0x8000_0000_0000_0000

  /** How a conversion ended: a value, a syntax error or a range error. */
  datatype Status = Exact | BadSyntax | OutOfRange

  /** The value returned by a strconv conversion together with how it ended. */
  datatype Conversion = Conversion(value: int, status: Status)

  predicate AllDigits(t: seq<byte>) {
    forall k :: 0 <= k < |t| ==> IsDigit(t[k])
  }

  function DigitValue(c: byte): (d: nat)
    requires IsDigit(c)
    ensures d < 10
  {
    (c - Zero) as nat
  }

  /** The decimal digits `t`, most significant first, read after the already accumulated `acc`. */
  function Decimal(acc: nat, t: seq<byte>): (r: nat)
    requires AllDigits(t)
    ensures acc <= r
    decreases |t|
  {
    if t == [] then acc else Decimal(acc * 10 + DigitValue(t[0]), t[1..])
  }

  function Pow2(n: nat): (r: nat)
    ensures r > n
  {
    if n == 0 then 1 else 2 * Pow2(n - 1)
  }

  /** The digit loop of strconv.ParseUint in base 10 and 64 bits, continuing from the value `n`. */
  function ScanUint64(t: seq<byte>, n: nat): (c: Conversion)
    requires n <= MaxUint64
    ensures c.status == Exact <==> AllDigits(t) && Decimal(n, t) <= MaxUint64
    ensures c.status == Exact ==> c.value == Decimal(n, t)
    ensures c.status == BadSyntax ==> c.value == 0 && !AllDigits(t)
    ensures c.status == OutOfRange ==> c.value == MaxUint64
    ensures c.status == OutOfRange && AllDigits(t) ==> Decimal(n, t) > MaxUint64
  {
    if t == [] then Conversion(n, Exact)
    else if !IsDigit(t[0]) then Conversion(0, BadSyntax)
    else if n * 10 + DigitValue(t[0]) > MaxUint64 then Conversion(MaxUint64, OutOfRange)
    else ScanUint64(t[1..], n * 10 + DigitValue(t[0]))
  }

  /** strconv.ParseUint(t, 10, 64): the empty text is a syntax error. */
  function ParseUint64(t: seq<byte>): (c: Conversion)
    ensures c.status == Exact <==> |t| > 0 && AllDigits(t) && Decimal(0, t) <= MaxUint64
    ensures c.status == Exact ==> c.value == Decimal(0, t)
    ensures c.status == BadSyntax ==> c.value == 0 && (t == [] || !AllDigits(t))
    ensures c.status == OutOfRange ==> c.value == MaxUint64 && |t| > 0
  {
    if t == [] then Conversion(0, BadSyntax) else ScanUint64(t, 0)
  }

  /** The text after a leading `+` or `-`. */
  function Unsigned(t: seq<byte>): seq<byte> {
    if |t| > 0 && (t[0] == Plus || t[0] == Minus) then t[1..] else t
  }

  /** An optional sign followed by at least one decimal digit. */
  predicate IsSignedDecimal(t: seq<byte>) {
    |Unsigned(t)| >= 1 && AllDigits(Unsigned(t))
  }

  /** The mathematical value of a signed decimal numeral. */
  function SignedValue(t: seq<byte>): int
    requires IsSignedDecimal(t)
  {
    if t[0] == Minus then -(Decimal(0, Unsigned(t)) as int) else Decimal(0, Unsigned(t))
  }

  /**
   * strconv.ParseInt(t, 10, 64). A syntax error returns 0; a range error returns the bound
   * on the side of the sign.
   */
  function ParseInt64(t: seq<byte>): (c: Conversion)
    ensures c.status == Exact <==> IsSignedDecimal(t) && MinInt64 <= SignedValue(t) <= MaxInt64
    ensures c.status == Exact ==> c.value == SignedValue(t)
    ensures c.status == BadSyntax ==> c.value == 0
    ensures c.status == OutOfRange ==> |t| > 0 && c.value == if t[0] == Minus then MinInt64 else MaxInt64
    ensures MinInt64 <= c.value <= MaxInt64
  {
    if t == [] then Conversion(0, BadSyntax)
    else
      var neg := t[0] == Minus;
      var u := ParseUint64(Unsigned(t));
      if u.status == BadSyntax then Conversion(0, BadSyntax)
      else if !neg && u.value > MaxInt64 then Conversion(MaxInt64, OutOfRange)
      else if neg && u.value > -MinInt64 then Conversion(MinInt64, OutOfRange)
      else Conversion(if neg then -u.value else u.value, Exact)
  }

  /** The digit byte of a value below ten. */
  function DigitByte(d: nat): (c: byte)
    requires d < 10
    ensures IsDigit(c) && DigitValue(c) == d
  {
    (Zero as int + d) as byte
  }

  /** The decimal numeral of `n` as `fmt.Sprintf("%d", n)` writes it: no sign, no leading zero. */
  function DecimalText(n: nat): (t: seq<byte>)
    ensures |t| >= 1 && AllDigits(t)
    ensures |t| > 1 ==> t[0] != Zero
    decreases n
  {
    if n < 10 then [DigitByte(n)] else DecimalText(n / 10) + [DigitByte(n % 10)]
  }

  /** Reading one more digit multiplies what was read so far by ten and adds the digit. */
  lemma {:induction false} DecimalSnoc(acc: nat, t: seq<byte>, d: byte)
    requires AllDigits(t) && IsDigit(d)
    ensures AllDigits(t + [d])
    ensures Decimal(acc, t + [d]) == Decimal(acc, t) * 10 + DigitValue(d)
    decreases |t|
  {
    assert AllDigits(t + [d]) by {
      forall k | 0 <= k < |t + [d]|
        ensures IsDigit((t + [d])[k])
      {
        if k < |t| {
          assert (t + [d])[k] == t[k];
        }
      }
    }
    if t != [] {
      assert (t + [d])[1..] == t[1..] + [d];
      DecimalSnoc(acc * 10 + DigitValue(t[0]), t[1..], d);
    }
  }

  /** `strconv.ParseUint` reads back what `%d` writes. */
  lemma {:induction false} DecimalTextValue(n: nat)
    ensures Decimal(0, DecimalText(n)) == n
    decreases n
  {
    if n >= 10 {
      DecimalTextValue(n / 10);
      DecimalSnoc(0, DecimalText(n / 10), DigitByte(n % 10));
    }
  }

  /** `strconv.ParseInt` reads back `%d` of every int64, positive or negative. */
  lemma DecimalTextRoundTrip(n: nat)
    ensures n <= MaxInt64 ==> ParseInt64(DecimalText(n)) == Conversion(n, Exact)
    ensures n <= -MinInt64 ==> ParseInt64([Minus] + DecimalText(n)) == Conversion(-(n as int), Exact)
  {
    var t := DecimalText(n);
    DecimalTextValue(n);
    assert Unsigned(t) == t;
    assert Unsigned([Minus] + t) == t;
  }

  /** Index of the first dot of `t`, or `|t|` when there is none. */
  function DotIndex(t: seq<byte>): (d: nat)
    ensures d <= |t|
    ensures d < |t| ==> t[d] == Dot
    ensures forall k :: 0 <= k < d ==> t[k] != Dot
  {
    if t == [] || t[0] == Dot then 0 else 1 + DotIndex(t[1..])
  }

  /** Digits with at most one dot among them and at least one digit: strconv's float mantissa. */
  predicate IsDecimalMantissa(body: seq<byte>) {
    var d := DotIndex(body);
    AllDigits(body[..d])
    && (d == |body| || AllDigits(body[d + 1..]))
    && |body| > (if d < |body| then 1 else 0)
  }

  /** The integer part of a mantissa. */
  function IntegerPart(body: seq<byte>): nat
    requires IsDecimalMantissa(body)
  {
    Decimal(0, body[..DotIndex(body)])
  }

  /**
   * 2^1024 - 2^970: the least magnitude that rounds to infinity in float64, being halfway
   * between the largest finite float64 (2^1024 - 2^971) and 2^1024, where ties go to even.
   */
  const FloatOverflow: int := (Pow2(54) - 1) * Pow2(970)

  /**
   * The decision of strconv.ParseFloat(t, 64) on text made of '-', digits and '.': a syntax
   * error unless the text is a sign and a mantissa, a range error when the value rounds to an
   * infinity, which for a numeral without exponent is when its integer part reaches FloatOverflow.
   */
  function FloatStatus(t: seq<byte>): (st: Status)
    requires forall k :: 0 <= k < |t| ==> IsFloatByte(t[k])
  {
    var body := Unsigned(t);
    if !IsDecimalMantissa(body) then BadSyntax
    else if IntegerPart(body) >= FloatOverflow then OutOfRange
    else Exact
  }
}
