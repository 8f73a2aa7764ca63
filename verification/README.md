# go-json parser, modelled in Dafny

This project models the parsing engine of `src/json.go`, a hand-written recursive-descent
parser. It turns a Go `[]byte` into a dynamically typed tree: nil, bool, int, float64, string,
`[]any` or `map[string]any`. The parser moves a cursor through the input. Every routine takes
the input and an absolute start index. It returns a value, the absolute index where parsing
resumes, and an error.

The input is a sequence of bytes (`Ascii.byte`). The tree is the closed datatype `Values.Value`.
A routine's result is a `Values.Outcome`, which takes one of three forms:

- `Ok(value, next)`.
- `Err(partial, kind)`: the error, together with the partial value the Go code returns beside
  it.
- `Crash`: a Go index-out-of-range panic. Inputs such as `{`, `{"a"` and `{"a":` reach one.

The project has four layers:

- **Classifiers and conversions.** `Ascii` holds the single-byte classifiers (`isWhiteSpace`,
  `canTryParseAs*`). `Numbers` holds the two strconv conversions the number routines call:
  `strconv.ParseInt(num, 10, 64)`, modelled exactly, and the accept/reject decision of
  `strconv.ParseFloat`.
- **Specification.** `Grammar` gives each routine as a function of `(bytes, start)`. The array
  and object loops are mutually recursive with the element dispatcher, as in the source.
- **Implementation.** `Parser` holds the routines as they run: cursor loops that build strings
  by `+=`, arrays by append and objects by map update. Each is proved to return exactly what
  its `Grammar` function says.
- **Properties.** `Properties` and `Scenarios` prove what the parser promises, over all inputs
  and on the inputs where it departs from JSON.

The model follows the code wherever the code departs from JSON and from the behaviour it
appears to intend:

- Strings have no escapes, and each byte becomes the character with that code.
- Numbers have no exponent.
- Commas between elements and members are optional.
- An unterminated string, array or object is accepted. The string resumes one past the end of
  the input, and each enclosing container adds one more.
- An input of whitespace only parses to nil. The empty input parses to the empty string.
- `1.` is a float.
- After a top-level value, `parseJson` adds the value's absolute end to its cursor, so it
  resumes at `start + end`. It keeps the last of several top-level values.

## Model

| member | source | states |
|---|---|---|
| `Ascii.IsWhiteSpace` | src/json.go:42-44 | `isWhiteSpace`: space, line feed, carriage return and tab are whitespace, and no other byte |
| `Ascii.CanTryParseAsString` | src/json.go:77-79 | `canTryParseAsString`: a string starts at a double quote |
| `Ascii.CanTryParseAsTrue` | src/json.go:99-101 | `canTryParseAsTrue`: `t` hands the byte to `parseTrue` |
| `Ascii.CanTryParseAsFalse` | src/json.go:111-113 | `canTryParseAsFalse`: `f` hands the byte to `parseFalse` |
| `Ascii.CanTryParseAsNull` | src/json.go:123-125 | `canTryParseAsNull`: `n` hands the byte to `parseNull` |
| `Ascii.CanTryParseAsInt` | src/json.go:135-137 | `canTryParseAsInt`: a minus sign or an ASCII digit starts a number |
| `Ascii.CanTryParseAsArray` | src/json.go:177-179 | `canTryParseAsArray`: an array starts at `[` |
| `Ascii.CanTryParseAsObject` | src/json.go:212-214 | `canTryParseAsObject`: an object starts at `{` |
| `Ascii.StartClassesDisjoint` | src/json.go:46-75 | no byte satisfies two of the classifiers `parseJsonElement` asks, and no whitespace byte satisfies any, so the order of its tests does not decide which routine runs |
| `Grammar.RunEnd` | src/json.go:216-222 | where a cursor loop `for i < len(s) && p(s[i])` stops: at or after its start, at a byte failing `p` or at/after the end |
| `Grammar.RunEndSkips` | src/json.go:216-222 | every byte such a loop passes over satisfies its condition |
| `Grammar.ParseTrue` | src/json.go:103-109 | succeeds iff `true` is spelled in full at `i`, resuming at `i+4`; otherwise `false` with an error |
| `Grammar.ParseFalse` | src/json.go:115-121 | succeeds iff `false` is spelled in full at `i`, resuming at `i+5`; otherwise `false` with an error |
| `Grammar.ParseNull` | src/json.go:127-133 | succeeds iff `null` is spelled in full at `i`, resuming at `i+4`; otherwise nil with an error |
| `Grammar.StringAt` | src/json.go:81-97 | `parseString` never fails and resumes at least two bytes after its start |
| `Grammar.IntAt` | src/json.go:139-150 | `parseInt` succeeds iff its run of `-` and digits is a signed decimal in int64 range, with that value, resuming after the run; otherwise the int strconv.ParseInt returned, beside its syntax or range error |
| `Grammar.FloatAt` | src/json.go:152-175 | `parseFloat` succeeds iff its run of `-`, digits and `.` holds a dot and strconv.ParseFloat accepts it, keeping the text and resuming after the run; otherwise nil beside the missing-fraction error (no dot), a syntax error or a range error |
| `Grammar.ElementAt` | src/json.go:46-75 | a successful element ends strictly after its start, which makes every loop terminate |
| `Grammar.ScalarAt` | src/json.go:56-74 | the non-container branches of the dispatch, with the float-then-int fallback, also end strictly after their start |
| `Grammar.ArrayAt` | src/json.go:181-185 | a successful array ends after its start |
| `Grammar.ArrayItems` | src/json.go:187-209 | the array loop, when it succeeds, ends strictly after the index it started from (the progress of each turn comes from `Grammar.ElementAt`'s contract) |
| `Grammar.ObjectAt` | src/json.go:224-233 | a successful object ends after its start |
| `Grammar.ObjectMembers` | src/json.go:235-272 | the object loop, when it succeeds, ends strictly after the index it started from (the progress of each member comes from `Grammar.MemberAt`'s contract) |
| `Grammar.MemberAt` | src/json.go:241-263 | a member that is read resumes the loop strictly after the key's start |
| `Grammar.Drive` | src/json.go:20-33 | the loop of `parseJson`: whitespace is skipped a byte at a time, each value replaces the one before and moves the cursor by its absolute end, and the first error or panic ends the loop; its properties are the `Drive*` and `Parse*` lemmas |
| `Grammar.TopLevel` | src/json.go:14-40 | `parseJson`: the loop from index 0, with the empty input answered by the empty string |
| `Grammar.Parse` | src/json.go:9-12 | `ParseJson`: the value and the error of `parseJson` with the resume index dropped, or a panic |
| `Numbers.ScanUint64` | src/json.go:147 | the digit loop of strconv.ParseUint: exact iff all digits and at most 2^64-1; 0 on a syntax error; 2^64-1 on overflow |
| `Numbers.ParseUint64` | src/json.go:147 | strconv.ParseUint base 10: exact iff non-empty, all digits and at most 2^64-1, with that value; 0 on a syntax error; 2^64-1 on overflow |
| `Numbers.FloatStatus` | src/json.go:172 | strconv.ParseFloat's accept/reject decision on `-`, digits and dots: a syntax error unless an optional sign and a mantissa with at most one dot and a digit, a range error when the integer part rounds to infinity |
| `Numbers.ParseInt64` | src/json.go:147-149 | strconv.ParseInt base 10: exact iff a signed decimal within int64, with its value; 0 on syntax error; the bound of the sign on range error; always within int64 |
| `Numbers.DecimalText` | test/json_test.go:14-28 | the `%d` text of a natural number is non-empty, all digits, with no leading zero |
| `Numbers.DecimalSnoc` | src/json.go:147 | reading one more digit multiplies the value read so far by ten and adds the digit |
| `Numbers.DecimalTextValue` | test/json_test.go:14-20 | the digits of `%d` read back to the number |
| `Numbers.DecimalTextRoundTrip` | test/json_test.go:14-28 | strconv.ParseInt reads back `%d` of every int64, with or without a minus sign |
| `Parser.ParseJson` | src/json.go:9-12 | returns the value and error of `Grammar.Parse`, the resume index dropped |
| `Parser.ParseJsonWithOffset` | src/json.go:14-40 | the top-level loop returns exactly `Grammar.TopLevel` |
| `Parser.SkipWhiteSpaces` | src/json.go:216-222 | returns exactly `Grammar.RunEnd` for whitespace |
| `Parser.ParseJsonElement` | src/json.go:46-75 | the dispatch returns exactly `Grammar.ElementAt` |
| `Parser.ParseString` | src/json.go:81-97 | the collecting loop returns exactly `Grammar.StringAt` |
| `Parser.ParseInt` | src/json.go:139-150 | the collecting loop returns exactly `Grammar.IntAt` |
| `Parser.ParseFloat` | src/json.go:152-175 | the loop that splits the integer and fraction parts returns exactly `Grammar.FloatAt` |
| `Parser.ParseArray` | src/json.go:181-210 | the append loop returns exactly `Grammar.ArrayAt` |
| `Parser.ParseObject` | src/json.go:224-273 | the member loop returns exactly `Grammar.ObjectAt` |
| `Parser.ParseMember` | src/json.go:241-263 | one member (key, colon, value, map update) returns exactly `Grammar.MemberAt` |
| `Properties.RunEndCovers` | src/json.go:216-222 | a cursor loop whose condition holds to the end of the input stops at the end |
| `Properties.SkipWhiteSpacesStops` | src/json.go:216-222 | `skipWhiteSpaces` returns the least index that is past the end or holds a non-whitespace byte, and every skipped byte is whitespace |
| `Properties.RunEndStopsAt` | src/json.go:216-222 | a cursor loop whose condition holds up to `m` and fails at `m`, or whose input ends there, stops exactly at `m` |
| `Properties.StringAtSpec` | src/json.go:81-97 | the text is the bytes up to the first quote, none a quote, resuming after that quote; with no quote left it is the rest of the input, resuming at `len(s)+1` |
| `Properties.ParseSingleElement` | src/json.go:20-39 | an input that is one value, error or panic from its first byte to its end gives that value, error or panic |
| `Properties.ParseLiterals` | test/json_test.go:54-80 | `true`, `false`, `null` and the empty input parse to true, false, nil and the empty string |
| `Properties.ParseIntegerText` | src/json.go:58-65 | an input of `-` and digits falls back from float to int and gives strconv.ParseInt's value, or its value beside its syntax or range error |
| `Properties.ParseDecimalRoundTrip` | test/json_test.go:14-28 | `ParseJson` of `%d` of n is n, and of `-` then `%d` of n is -n, for all int64 |
| `Properties.ParseQuotedText` | test/json_test.go:82-92 | a quoted text without quotes parses to that text |
| `Properties.ParseFloatText` | src/json.go:152-175 | an input of `-`, digits and dots that starts with `-` or a digit, holds a dot and that strconv.ParseFloat accepts parses to a float with that text |
| `Properties.FixedPointAccepted` | src/json.go:172 | strconv.ParseFloat accepts `%f`-style text whose integer part is below float64 overflow |
| `Properties.ParseFixedPoint` | test/json_test.go:30-52 | `%f`-style text, positive or negative, parses to the float with that text |
| `Properties.ArrayItemsSkipsSeparators` | src/json.go:187-191 | commas and whitespace between elements do not change the array |
| `Properties.ArrayItemsUnterminated` | src/json.go:203-209 | an array whose input ends without `]` is returned whole, resuming one past the end |
| `Properties.ArrayItemsKeepsPrefix` | src/json.go:193-200 | elements collected so far begin the array returned, and the partial array returned beside an error |
| `Properties.ObjectMembersSkipsSeparators` | src/json.go:235-239 | commas and whitespace between members do not change the object |
| `Properties.ObjectMembersUnterminated` | src/json.go:266-272 | an object whose input ends without `}` is returned whole, resuming one past the end |
| `Properties.ObjectMembersKeepsKeys` | src/json.go:256-263 | keys collected so far are in the object returned and in the partial object returned beside an error |
| `Properties.MemberAtStores` | src/json.go:262-263 | a member stores its value under its key, replacing an earlier value and leaving every other key as it was |
| `Properties.ObjectAtStart` | src/json.go:224-233 | past `{` and its blanks: the end of the input is a panic, a byte other than a quote or `}` is the start-quote error beside the empty object, and a quote or `}` starts the member loop there |
| `Properties.MemberAtOutcomes` | src/json.go:241-260 | the colon is looked for past the key and its blanks: past the end a panic, any other byte the colon error beside the members read so far, and a value's error or panic passed up beside them |
| `Properties.ParseObjectStartQuote` | src/json.go:229-233 | `ParseJson` of `{`, blanks and a byte other than a quote or `}` fails with the start-quote error and the empty object |
| `Properties.ParseObjectOpenOnly` | src/json.go:229-231 | `ParseJson` of `{` and blanks only panics |
| `Properties.QuotedKeyAt` | src/json.go:241-249 | after `{"key"` and blanks, the member loop reads the key as the text between the quotes and looks for the colon at the first non-blank byte |
| `Properties.ParseMissingColon` | src/json.go:247-251 | `ParseJson` of `{`, a quoted key, blanks and a byte other than a colon fails with the colon error and the empty object |
| `Properties.ParseKeyOnly` | src/json.go:247-249 | `ParseJson` of `{`, a quoted key and blanks only panics |
| `Properties.FirstMemberValueFails` | src/json.go:254-260 | when the value of the first member fails or panics, `parseJsonElement` of the object returns that error beside the empty object, or panics |
| `Properties.ObjectFirstValueFails` | src/json.go:254-260 | `ParseJson` of every input `{"key" :` followed by a value that fails or panics fails with that value's error and the empty object, or panics |
| `Properties.DriveOverWhitespace` | src/json.go:20-24 | after the last value, trailing whitespace leaves the result unchanged |
| `Properties.ParseBlank` | src/json.go:35-39 | an input of whitespace only gives nil, and the empty input the empty string |
| `Properties.ParseValueThenBlank` | src/json.go:20-39 | a value at the start followed by whitespace only is the parse of the input |
| `Properties.DriveFailure` | src/json.go:20-33 | for every input, an error or a panic of the top-level loop is that of a value read at a non-blank byte `k` at or after the loop's start |
| `Properties.BlankStepKeepsFailure` | src/json.go:21-24 | skipping a blank keeps the failure found from the next byte |
| `Properties.ElementStepFails` | src/json.go:26-30 | an error or a panic of the value read at `i` is what the loop returns |
| `Properties.ValueStepKeepsFailure` | src/json.go:26-32 | after a value, the failure found from where the cursor lands is the loop's failure |
| `Properties.DriveLastValue` | src/json.go:20-33 | for every input, a value returned by the top-level loop is either the one it started with, when only whitespace follows, or the last value read at a non-blank byte `k`, with only whitespace from `k` plus that value's absolute end |
| `Properties.BlankStepKeepsLastValue` | src/json.go:21-24 | skipping a blank keeps the last value found from the next byte |
| `Properties.ValueStepKeepsLastValue` | src/json.go:26-32 | a value is the last one when only whitespace follows where the cursor lands, and otherwise the last value is the one found from there |
| `Properties.ParseOutcome` | src/json.go:9-40 | for every input, `ParseJson` fails or panics exactly as a value read at a non-blank byte does, and a parsed value is the empty string for the empty input, nil for whitespace only, or the last value read |
| `Properties.ElementAtErrorPartial` | src/json.go:46-75 | the error is an invalid character exactly when no routine takes the byte, beside nil; on a number it is strconv.ParseInt's syntax or range error beside the int it returned; `{` and `[` give an object and an array, `true`/`false` give false and `null` nil; a string never fails |
| `Properties.ElementNeverUnterminated` | src/json.go:46-75 | no element reports an unterminated string, array or object |
| `Properties.ItemsNeverUnterminated` | src/json.go:203-205 | the array loop never reports an unterminated value |
| `Properties.MembersNeverUnterminated` | src/json.go:266-268 | the object loop never reports an unterminated value |
| `Properties.DriveNeverUnterminated` | src/json.go:20-33 | the top-level loop never reports an unterminated value: its failures are those of elements (`DriveFailure`), none of which is unterminated |
| `Properties.ParseNeverUnterminated` | src/json.go:90-92 | `ParseJson` never fails with an unterminated string, array or object |
| `Scenarios.ElementAtDigit` | src/json.go:58-65 | a lone digit is that int, read by the int fallback |
| `Scenarios.ArrayWithoutCommas` | src/json.go:187-191 | `[1 2]` is the array of 1 and 2 |
| `Scenarios.ArrayUnterminated` | src/json.go:203-209 | `[1` is the array of 1 |
| `Scenarios.ObjectWithoutColon` | src/json.go:249-251 | `{"a" 1}` fails for want of a colon, returning the empty object |
| `Scenarios.UnfinishedObjectsPanic` | src/json.go:229-256 | `{`, `{"a"` and `{"a":` panic |
| `Scenarios.TrueThenJunk` | src/json.go:103-106 | `truex` fails on the `x` |
| `Scenarios.LastTopLevelValue` | src/json.go:20-33 | `1 2` is 2 |
| `Scenarios.LeadingWhitespaceSkipsAhead` | src/json.go:32 | `1x` fails but ` 1x` is 1 |
| `Scenarios.RepeatedKeyFirst` | src/json.go:256-263 | the first member of `{"a":1,"a":2}` stores 1 under "a" |
| `Scenarios.RepeatedKeySecond` | src/json.go:256-263 | the second member stores 2 under "a", over the 1 |
| `Scenarios.RepeatedKey` | src/json.go:262-263 | `{"a":1,"a":2}` is `{"a": 2}` |
| `Scenarios.EmptyObjects` | test/json_test.go:286-302 | `{}` and `{` newline `}` are the empty object |

## Left out

- The float64 value: `Float` keeps the scanned text instead of the number `strconv.ParseFloat` computes. The float-equality tests are therefore not modelled.
- Numbers.FloatStatus: models only the accept/reject decision of `strconv.ParseFloat`, and only for text made of `-`, digits and `.`, the only text `parseFloat` hands it.
    - Syntax: an optional sign, then digits with at most one dot and at least one digit.
    - Range: the value overflows exactly when its integer part reaches 2^1024 - 2^970. This assumes correct rounding with ties to even.
    - Underflow to zero is not an error in Go either.
- The float partial value: on a `parseFloat` error the model carries nil where Go carries 0 or an infinity. This is never observable, because the dispatcher then calls `parseInt`.
- Error messages and positions: errors are tags (`Values.ErrorKind`), not the `fmt.Errorf` text. The position returned beside an error is dropped, as `ParseJson` drops it.
- Machine integers: `int` is taken to be 64 bits wide, so `int(result)` at src/json.go:149 is the identity. Cursor indices are unbounded integers and never wrap.
- strconv.ParseInt: inputs `parseInt` cannot hand it are not modelled (other bases, underscores, a leading `+`).
- Parser.ParseMember: the body of the member loop of `parseObject` is a method of its own, with the same statements in the same order. This keeps each proof obligation small. `Grammar.MemberAt` specifies it, and the loop in `Parser.ParseObject` calls it once per member.
- Grammar.ArrayAt and Grammar.ObjectAt require the start to lie inside the input. Their only caller, `parseJsonElement`, reads `s[i]` first and panics otherwise; that panic is modelled in `Grammar.ElementAt`.
- Properties.ElementAtErrorPartial: for `{` and `[` it states only that the partial value is an object or an array, not which one. `Properties.ArrayItemsKeepsPrefix` and `Properties.ObjectMembersKeepsKeys` state what the partial container holds, `Properties.ObjectAtStart` and `Properties.MemberAtOutcomes` give it exactly for the start-quote, colon and value errors of an object, and `Properties.ObjectFirstValueFails` carries that through `ParseJson`.
- Grammar.ElementAt: its own contract states only progress. What it returns is stated by its definition and by the lemmas in `Properties`.
- Recursion depth: nested arrays and objects are read by recursion, and in Go a deep enough nesting exhausts the goroutine stack, a fatal error that no caller can recover from. The model returns a result for any depth.
- The test harness: test/json_test.go is used only as a source of expected results.
