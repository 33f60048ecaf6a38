/**
 The JavaScript values that cross the frontend's boundaries (parsed JSON,
 `fetch` bodies, storage contents), and the operators the frontend applies
 to them: truthiness, `||`, `??`, optional chaining and `String(v)`.
 */
module Js {
  import opened Text
  import opened Numbers

  datatype JsValue =
    | Undefined
    | Null
    | Bool(b: bool)
    | Num(n: Decimal)
    | Str(s: string)
    | Arr(items: seq<JsValue>)
    | Obj(fields: map<string, JsValue>)

  /** `Boolean(v)`: `undefined`, `null`, `false`, `0` and `""` are falsy. */
  predicate Truthy(v: JsValue) {
    match v
    case Undefined => false
    case Null => false
    case Bool(b) => b
    case Num(n) => n.units != 0
    case Str(s) => s != ""
    case Arr(_) => true
    case Obj(_) => true
  }

  predicate Nullish(v: JsValue) {
    v.Undefined? || v.Null?
  }

  /** `a || b`. */
  function Or(a: JsValue, b: JsValue): JsValue {
    if Truthy(a) then a else b
  }

  /** `a ?? b`. */
  function Coalesce(a: JsValue, b: JsValue): JsValue {
    if Nullish(a) then b else a
  }

  /** `v?.key` for a named (non-index, non-`length`) property: only objects have one. */
  function Get(v: JsValue, key: string): JsValue {
    match v
    case Obj(fields) => if key in fields then fields[key] else Undefined
    case _ => Undefined
  }

  /** `v?.length`: arrays and strings count their elements; an object may carry a `length` field. */
  function LengthOf(v: JsValue): JsValue {
    match v
    case Arr(items) => Num(Decimal(|items|, 0))
    case Str(s) => Num(Decimal(|s|, 0))
    case Obj(_) => Get(v, "length")
    case _ => Undefined
  }

  /** `String(v)`: arrays join their elements with `,`, rendering `null` and `undefined` as empty. */
  function ToText(v: JsValue): string
    decreases v
  {
    match v
    case Undefined => "undefined"
    case Null => "null"
    case Bool(b) => if b then "true" else "false"
    case Num(n) => Show(n)
    case Str(s) => s
    case Arr(items) =>
      Join(seq(|items|, i requires 0 <= i < |items| => if Nullish(items[i]) then "" else ToText(items[i])), ',')
    case Obj(_) => "[object Object]"
  }

  /** How `JSON.stringify` writes a number: `NaN` becomes `null`. */
  function FromNumber(n: JsNumber): JsValue {
    match n
    case Finite(d) => Num(d)
    case NaN => Null
  }
}
