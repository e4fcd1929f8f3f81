/**
 * JSON-shaped JavaScript values as they reach the server routes, with the
 * JavaScript notions the validators rely on: truthiness, `typeof`,
 * `Array.isArray`, property access and destructuring defaults.
 */
module JsValue {
  import opened Common

  datatype JSValue =
    | JUndefined
    | JNull
    | JBool(b: bool)
    | JNum(n: real)
    | JNaN
    | JStr(s: string)
    | JArr(items: seq<JSValue>)
    | JObj(fields: map<string, JSValue>)

  /** ToBoolean: `undefined`, `null`, `false`, `0`, `NaN` and `""` are falsy. */
  predicate Truthy(v: JSValue) {
    match v
    case JUndefined => false
    case JNull => false
    case JBool(b) => b
    case JNum(n) => n != 0.0
    case JNaN => false
    case JStr(s) => s != ""
    case JArr(_) => true
    case JObj(_) => true
  }

  /** The `typeof` operator (`null` and arrays are "object"). */
  function TypeOf(v: JSValue): string {
    match v
    case JUndefined => "undefined"
    case JNull => "object"
    case JBool(_) => "boolean"
    case JNum(_) => "number"
    case JNaN => "number"
    case JStr(_) => "string"
    case JArr(_) => "object"
    case JObj(_) => "object"
  }

  predicate IsNullish(v: JSValue) { v.JUndefined? || v.JNull? }

  /**
   * `v.key` for a key other than `length`; reading a property of `undefined`
   * or `null` is a TypeError (`None`).
   */
  function Prop(v: JSValue, key: string): (r: Option<JSValue>)
    ensures r.None? <==> IsNullish(v)
    ensures v.JObj? && key !in v.fields ==> r == Some(JUndefined)
  {
    match v
    case JUndefined => None
    case JNull => None
    case JObj(m) => Some(if key in m then m[key] else JUndefined)
    case _ => Some(JUndefined)
  }

  /**
   * A destructured field of a request body with a default: the default
   * applies only when the field is missing or `undefined`.
   */
  function FieldOr(body: map<string, JSValue>, key: string, default: JSValue): (r: JSValue)
    ensures key !in body ==> r == default
    ensures key in body && body[key] != JUndefined ==> r == body[key]
  {
    if key in body && body[key] != JUndefined then body[key] else default
  }

  /** `list.includes(v)` for a list of string constants. */
  predicate IsOneOf(v: JSValue, names: seq<string>) {
    v.JStr? && v.s in names
  }
}
