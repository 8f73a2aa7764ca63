/** Bytes of the input slice and the single-byte classifiers of src/json.go. */
module Ascii {

  /** One byte of the Go `[]byte` input. */
  newtype byte = b: int | 0 <= b < 0x100

  const Tab: byte := 0x09
  const LineFeed: byte := 0x0A
  const CarriageReturn: byte := 0x0D
  const Space: byte := 0x20
  const Quote: byte := 0x22
  const Plus: byte := 0x2B
  const Comma: byte := 0x2C
  const Minus: byte := 0x2D
  const Dot: byte := 0x2E
  const Zero: byte := 0x30
  const Nine: byte := 0x39
  const Colon: byte := 0x3A
  const OpenBracket: byte := 0x5B
  const CloseBracket: byte := 0x5D
  const LowerA: byte := 0x61
  const LowerE: byte := 0x65
  const LowerF: byte := 0x66
  const LowerL: byte := 0x6C
  const LowerN: byte := 0x6E
  const LowerR: byte := 0x72
  const LowerS: byte := 0x73
  const LowerT: byte := 0x74
  const LowerU: byte := 0x75
  const OpenBrace: byte := 0x7B
  const CloseBrace: byte := 0x7D

  /** `isWhiteSpace`: space, line feed, carriage return and tab, nothing else. */
  predicate IsWhiteSpace(c: byte) {
    c == Space || c == LineFeed || c == CarriageReturn || c == Tab
  }

  predicate CanTryParseAsObject(c: byte) { c == OpenBrace }
  predicate CanTryParseAsArray(c: byte) { c == OpenBracket }
  predicate CanTryParseAsString(c: byte) { c == Quote }
  predicate CanTryParseAsTrue(c: byte) { c == LowerT }
  predicate CanTryParseAsFalse(c: byte) { c == LowerF }
  predicate CanTryParseAsNull(c: byte) { c == LowerN }

  /** `canTryParseAsInt`: a minus sign or an ASCII digit. */
  predicate CanTryParseAsInt(c: byte) { c == Minus || (Zero <= c && c <= Nine) }

  predicate IsDigit(c: byte) { Zero <= c <= Nine }

  /**
   * A byte starts at most one kind of value, and whitespace starts none: the order in which
   * `parseJsonElement` asks the classifiers does not decide which routine runs.
   */
  lemma StartClassesDisjoint(c: byte)
    ensures (if CanTryParseAsObject(c) then 1 else 0) + (if CanTryParseAsArray(c) then 1 else 0)
            + (if CanTryParseAsString(c) then 1 else 0) + (if CanTryParseAsInt(c) then 1 else 0)
            + (if CanTryParseAsNull(c) then 1 else 0) + (if CanTryParseAsFalse(c) then 1 else 0)
            + (if CanTryParseAsTrue(c) then 1 else 0) <= 1
    ensures IsWhiteSpace(c) ==>
              && !CanTryParseAsObject(c) && !CanTryParseAsArray(c) && !CanTryParseAsString(c)
              && !CanTryParseAsInt(c) && !CanTryParseAsNull(c) && !CanTryParseAsFalse(c)
              && !CanTryParseAsTrue(c)
  {
  }

  /** The bytes `parseFloat` keeps collecting: those of `canTryParseAsInt` and the dot. */
  predicate IsFloatByte(c: byte) { CanTryParseAsInt(c) || c == Dot }

  /** Separators skipped one at a time inside arrays and objects. */
  predicate IsSeparator(c: byte) { c == Comma || IsWhiteSpace(c) }

  predicate NotQuote(c: byte) { c != Quote }

  /** Go's `string(b)` on a byte: the code point with the byte's value. */
  function Char(b: byte): (c: char)
    ensures c as int == b as int
  {
    b as int as char
  }

  /** The text built by `result += string(s[i])` over a run of bytes. */
  function Text(bs: seq<byte>): (t: string)
    ensures |t| == |bs|
    ensures forall k :: 0 <= k < |bs| ==> t[k] as int == bs[k] as int
  {
    seq(|bs|, k requires 0 <= k < |bs| => Char(bs[k]))
  }

  /**
   * The bytes from `i` up to `j`, as the routines collect them one at a time: a total function,
   * empty when `i..j` is not a range of indices of `s`, so that no bound needs a precondition.
   */
  function Span(s: seq<byte>, i: int, j: int): (t: seq<byte>)
    ensures 0 <= i <= j <= |s| ==> t == s[i..j]
    ensures !(0 <= i <= j <= |s|) ==> t == []
  {
    if 0 <= i <= j <= |s| then s[i..j] else []
  }
}
