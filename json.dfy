/**
 * Decoded JSON values, as `json_decode($text, true)` hands them to PHP,
 * and PHP's notion of a "falsy" value (the test made by `?:` and `empty()`).
 */
module Json {

  /**
   * A decoded value. A JSON number with a fraction or an exponent decodes to a
   * PHP float, kept here as the exact decimal `mantissa * 10^exponent`: the code
   * never computes with numbers, so only whether one is zero matters. JSON arrays
   * and objects both decode to PHP arrays; they are kept apart here, as two
   * kinds of value that encoding and decoding carry over unchanged.
   */
  datatype Value =
    | Null
    | Bool(b: bool)
    | Int(i: int)
    | Float(mantissa: int, exponent: int)
    | Str(s: string)
    | List(items: seq<Value>)
    | Object(fields: seq<(string, Value)>)

  /** PHP's conversion of a value to boolean yields `false`. */
  predicate Falsy(v: Value) {
    match v
    case Null => true
    case Bool(b) => !b
    case Int(i) => i == 0
    case Float(m, _) => m == 0
    case Str(s) => s == "" || s == "0"
    case List(items) => items == []
    case Object(fields) => fields == []
  }
}
