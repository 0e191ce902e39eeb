/** The JavaScript values a Prisma `where` object is built from, and the two
    pieces of JavaScript semantics the translator relies on: property lookup
    and truthiness. */
module JsonValue {

  /** A JavaScript value as it can occur in a filter object.  Numbers and
      dates are opaque: `JNum(literal)` is the number `Number(literal)`
      denotes and `JDate(text)` the instant `Date.parse(text)` denotes; no
      arithmetic on them is modelled. */
  datatype Json =
    | JUndefined
    | JNull
    | JBool(b: bool)
    | JNum(literal: string)
    | JStr(s: string)
    | JDate(text: string)
    | JArr(items: seq<Json>)
    | JObj(fields: map<string, Json>)

  /** A plain object: the `WhereInput` of the source. */
  type Where = map<string, Json>

  /** `obj[key]`: the own property `key` of a plain object, `undefined`
      when it is absent or the value is not a plain object. */
  function Get(j: Json, key: string): Json {
    if j.JObj? && key in j.fields then j.fields[key] else JUndefined
  }

  /** Whether every character before the exponent is `0` or `.`. */
  predicate ZeroMantissa(s: string) {
    if s == [] then true
    else if s[0] == 'e' || s[0] == 'E' then true
    else (s[0] == '0' || s[0] == '.') && ZeroMantissa(s[1..])
  }

  /** Whether a numeric literal (as accepted by `Number(...)`) has a zero
      mantissa: `0`, `-0`, `.0e5`, `0x00` and the like.  A literal that
      only underflows to zero, such as `1e-400`, is not recognised. */
  predicate NumeralIsZero(literal: string) {
    var u := if |literal| > 0 && (literal[0] == '+' || literal[0] == '-') then literal[1..] else literal;
    if |u| >= 2 && u[0] == '0' && u[1] in {'x', 'X', 'b', 'B', 'o', 'O'} then
      forall i | 2 <= i < |u| :: u[i] == '0'
    else
      ZeroMantissa(u)
  }

  /** JavaScript truthiness: `undefined`, `null`, `false`, zero and the
      empty string are falsy; objects, arrays and dates are truthy. */
  predicate Truthy(j: Json) {
    match j
    case JUndefined => false
    case JNull => false
    case JBool(b) => b
    case JNum(literal) => !NumeralIsZero(literal)
    case JStr(s) => s != ""
    case JDate(_) => true
    case JArr(_) => true
    case JObj(_) => true
  }

  /** Whether the plain object `q` has a truthy property `key`, the test
      `q[key]` of an `if`. */
  predicate Carries(q: Where, key: string) {
    Truthy(Get(JObj(q), key))
  }

  /** Wraps each plain object of a sequence as a value, as an array literal
      of objects does. */
  function Objects(ws: seq<Where>): seq<Json> {
    seq(|ws|, i requires 0 <= i < |ws| => JObj(ws[i]))
  }
}
