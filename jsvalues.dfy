/**
 * The JavaScript values a preference may hold. The store keeps `any`
 * value; the renderer writes strings and reads values back through
 * JavaScript truthiness.
 */
module JsValues {
  import opened JsText

  /** A serialisable value: `null`, a boolean, an integral number or a string. */
  datatype Value = Null | Bool(b: bool) | Num(n: int) | Str(s: string)

  /** JavaScript truthiness: `null`, `false`, `0` and `''` are falsy, everything else truthy. */
  predicate Truthy(v: Value)
    ensures !Truthy(v) <==> v in {Null, Bool(false), Num(0), Str("")}
  {
    match v
    case Null => false
    case Bool(b) => b
    case Num(n) => n != 0
    case Str(s) => s != ""
  }

  /** `String(v)`, what an input element's `value` becomes when `v` is assigned to it. */
  function ToJsString(v: Value): (r: string)
    ensures v.Str? ==> r == v.s
    ensures Truthy(v) ==> r != ""
  {
    match v
    case Null => "null"
    case Bool(b) => if b then "true" else "false"
    case Num(n) => IntToString(n)
    case Str(s) => s
  }
}
