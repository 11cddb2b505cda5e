/** The dynamically typed values that reach the pipeline: CSV cells after
    PapaParse's dynamic typing, and JSON fields of the live feed. */
module JsValues {
  /** `Number` carries, beside its value, the text ECMAScript's Number::toString
      gives for it (`String(x)`), since that formatting algorithm is not modelled. */
  datatype JsValue =
    | Undefined
    | Null
    | Bool(b: bool)
    | Number(value: real, shown: string)
    | Text(s: string)

  /** JavaScript truthiness: `undefined`, `null`, `false`, `0` and `""` are falsy. */
  predicate Truthy(v: JsValue) {
    match v
    case Undefined => false
    case Null => false
    case Bool(b) => b
    case Number(x, _) => x != 0.0
    case Text(s) => s != []
  }

  /** `String(v)`. */
  function ToJsString(v: JsValue): string {
    match v
    case Undefined => "undefined"
    case Null => "null"
    case Bool(b) => if b then "true" else "false"
    case Number(_, shown) => shown
    case Text(s) => s
  }
}
