/** JavaScript values as the request handlers see them once a JSON request
    body has been parsed, and the JavaScript notion of truthiness that the
    handlers' guards rely on. */
module Js {

  datatype Option<+T> = None | Some(value: T)

  /** A JavaScript value that can come out of `request.json()`, plus
      `undefined`, which is what destructuring yields for a missing member. */
  datatype JsValue =
    | Undefined
    | Null
    | Bool(b: bool)
    | Num(n: real)
    | Str(s: string)
    | Arr(elems: seq<JsValue>)
    | Obj(members: map<string, JsValue>)

  /** ToBoolean: `undefined`, `null`, `false`, `0` and `""` are falsy,
      everything else (including every array and object) is truthy.
      JSON cannot produce NaN, so a number is falsy exactly when it is zero. */
  predicate Truthy(v: JsValue)
  {
    match v
    case Undefined => false
    case Null => false
    case Bool(b) => b
    case Num(n) => n != 0.0
    case Str(s) => s != ""
    case Arr(_) => true
    case Obj(_) => true
  }

  /** The members of a parsed JSON request body. No number, string, boolean
      or array has a `username`, `password` or `message` property, the only
      members the handlers read, so such a body is the empty map here. */
  type Body = map<string, JsValue>

  /** `const { key } = body`: a member that is not there reads as `undefined`. */
  function Field(body: Body, key: string): JsValue
  {
    if key in body then body[key] else Undefined
  }
}
