/** The parse tree and the outcomes of the parsing routines of src/json.go. */
module Values {

  /**
   * The dynamically typed result (`any`) closed over the kinds the parser builds:
   * nil, bool, int, float64 (kept as its lexeme), string, `[]any` and `map[string]any`.
   */
  datatype Value =
    | Null
    | Bool(truth: bool)
    | Int(num: int)
    | Float(lexeme: string)
    | Str(text: string)
    | Arr(items: seq<Value>)
    | Obj(members: map<string, Value>)

  /** The errors the routines can return, one tag per error site. */
  datatype ErrorKind =
    | InvalidCharacter    // parseJsonElement: no routine for the byte
    | UnterminatedString  // parseString: expected end quote
    | InvalidTrue
    | InvalidFalse
    | InvalidNull
    | NoFractionPart      // parseFloat: the run has no dot
    | FloatSyntax         // strconv.ParseFloat: malformed number
    | FloatRange          // strconv.ParseFloat: magnitude beyond float64
    | IntSyntax           // strconv.ParseInt: malformed number
    | IntRange            // strconv.ParseInt: beyond int64
    | UnterminatedArray   // parseArray: expected end ]
    | ExpectedStartQuote  // parseObject: first member does not start with a quote
    | ExpectedColon       // parseObject: key not followed by a colon
    | UnterminatedObject  // parseObject: expected end }

  /**
   * What a routine returns: a value and the absolute index where parsing resumes, an error
   * together with the partial value returned beside it, or a Go index-out-of-range panic.
   */
  datatype Outcome =
    | Ok(value: Value, next: int)
    | Err(partial: Value, kind: ErrorKind)
    | Crash

  /** What `ParseJson` gives its caller: a value, a value with an error, or a panic. */
  datatype JsonResult =
    | Parsed(result: Value)
    | Failed(returned: Value, error: ErrorKind)
    | Panicked
}
