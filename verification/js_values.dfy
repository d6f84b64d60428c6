/** The JavaScript values a request body can carry, with the two operations
    the handler applies to them: truthiness tests and optional property reads. */
module JsValues {

  /** A JavaScript value. Numbers are reals (so `-0` and `0` coincide, as they
      do for truthiness); arrays are objects; functions and symbols never reach
      a parsed request body and are left out. */
  datatype JsValue =
    | Undefined
    | Null
    | Bool(b: bool)
    | Number(n: real)
    | NaN
    | Str(s: string)
    | Object(props: map<string, JsValue>)

  /** JavaScript's ToBoolean, negated: `!v` is true exactly for these values. */
  predicate Falsy(v: JsValue) {
    match v
    case Undefined => true
    case Null => true
    case Bool(b) => !b
    case Number(n) => n == 0.0
    case NaN => true
    case Str(s) => s == ""
    case Object(_) => false
  }

  /** The empty object literal `{}`. */
  const EmptyObject: JsValue := Object(map[])

  /** The optional-chaining read `v?.[key]`: an own property of an object, and
      `undefined` for a missing key or a non-object receiver. */
  function Get(v: JsValue, key: string): JsValue {
    if v.Object? && key in v.props then v.props[key] else Undefined
  }
}
