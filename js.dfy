/**
 * The few JavaScript semantics the signature service and its route rely on:
 * untyped values as the JSON body parser produces them, truthiness, `typeof`,
 * property reads, thrown values and `String.prototype.includes`.
 */
module Js {
  import opened Wrappers

  /** An untyped value (`any`), such as whatever `req.body` holds when the handler runs. */
  datatype JsValue =
    | JUndefined
    | JNull
    | JBool(b: bool)
    | JNumber(n: real)
    | JString(s: string)
    | JArray(elems: seq<JsValue>)
    | JObject(props: map<string, JsValue>)

  /** `Boolean(v)`. NaN cannot occur in a parsed JSON body and is not modelled. */
  predicate Truthy(v: JsValue) {
    match v
    case JUndefined => false
    case JNull => false
    case JBool(b) => b
    case JNumber(n) => n != 0.0
    case JString(s) => s != ""
    case JArray(_) => true
    case JObject(_) => true
  }

  /** `typeof v`; as in JavaScript, `typeof null` and `typeof []` are both "object". */
  function TypeOf(v: JsValue): string {
    match v
    case JUndefined => "undefined"
    case JNull => "object"
    case JBool(_) => "boolean"
    case JNumber(_) => "number"
    case JString(_) => "string"
    case JArray(_) => "object"
    case JObject(_) => "object"
  }

  /**
   * The property read `v[key]` for the keys the service reads ("message",
   * "signature"): an own property of an object, and `undefined` otherwise,
   * since neither key is defined by any built-in prototype.
   */
  function Get(v: JsValue, key: string): JsValue {
    match v
    case JObject(props) => if key in props then props[key] else JUndefined
    case _ => JUndefined
  }

  /** A `string | null` as a JavaScript value. */
  function OfNullable(s: Option<string>): JsValue {
    match s
    case Some(t) => JString(t)
    case None => JNull
  }

  /** A thrown value: an `Error` instance with its message, or anything else. */
  datatype Thrown = ErrorInstance(message: string) | NonErrorValue

  /** `new Error(m).message`: an `undefined` message becomes the empty string. */
  function NewError(m: Option<string>): (e: Thrown)
    ensures e.ErrorInstance?
    ensures m.Some? ==> e.message == m.value
  {
    ErrorInstance(match m case Some(t) => t case None => "")
  }

  /** `sub` occurs in `s` starting at index `i`. */
  predicate OccursAt(s: string, sub: string, i: int) {
    0 <= i && i + |sub| <= |s| && s[i..i + |sub|] == sub
  }

  /** `s.includes(sub)`: whether `sub` occurs anywhere in `s` (the empty string always does). */
  predicate Includes(s: string, sub: string) {
    exists i | 0 <= i <= |s| - |sub| :: OccursAt(s, sub, i)
  }

  /** A string that lacks some character of `sub` cannot include `sub`. */
  lemma AbsentCharExcludes(s: string, sub: string, k: int)
    requires 0 <= k < |sub| && sub[k] !in s
    ensures !Includes(s, sub)
  {
  }

  /** A string includes any prefix of itself. */
  lemma PrefixIncluded(s: string, sub: string)
    requires |sub| <= |s| && s[..|sub|] == sub
    ensures Includes(s, sub)
  {
    assert OccursAt(s, sub, 0);
  }
}
