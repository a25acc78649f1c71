/** The JavaScript values that the server tests for truthiness or passes through untouched. */
module Js {

  datatype JsValue =
    | Undefined
    | Null
    | Bool(b: bool)
    | Number(n: real)
    | NaN
    | Str(s: string)
    | Object(id: nat)  // any object or array, whatever its contents

  /** JavaScript's ToBoolean, the value of `!!v`. */
  predicate Truthy(v: JsValue)
  {
    match v
    case Bool(b) => b
    case Number(n) => n != 0.0
    case Str(s) => s != ""
    case Object(_) => true
    case _ => false
  }
}
