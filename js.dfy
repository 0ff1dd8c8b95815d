/**
 * The JavaScript values the layout core passes around: what JSON.parse
 * produces, plus `undefined`, which object spreads and property reads can
 * yield. Numbers are modelled as reals (no NaN, no rounding).
 */
module Js {

  datatype Option<+T> = None | Some(value: T)

  datatype Value =
    | Undefined
    | Null
    | Bool(b: bool)
    | Num(n: real)
    | Str(s: string)
    | Arr(items: seq<Value>)
    | Obj(fields: map<string, Value>)

  /** The own properties of a plain object (an element record). */
  type Record = map<string, Value>

  /** How an evaluation ends: with a value, or by throwing a TypeError. */
  datatype Outcome<+T> = Returned(value: T) | ThrewTypeError

  /** JavaScript truthiness: `undefined`, `null`, `false`, `0` and `''` are falsy. */
  predicate Truthy(v: Value) {
    match v
    case Undefined => false
    case Null => false
    case Bool(b) => b
    case Num(n) => n != 0.0
    case Str(s) => s != ""
    case Arr(_) => true
    case Obj(_) => true
  }

  /** `v === null || v === undefined` */
  predicate Nullish(v: Value) {
    v.Undefined? || v.Null?
  }

  /** `typeof v === 'object' && v !== null` */
  predicate IsObject(v: Value) {
    v.Arr? || v.Obj?
  }

  /** `a || b` */
  function Or(a: Value, b: Value): Value {
    if Truthy(a) then a else b
  }

  /**
   * Own-property test. Only plain objects carry the named keys the core asks
   * for: an array's own keys are its indices and `length`, and primitives
   * have none.
   */
  predicate HasOwn(v: Value, key: string) {
    v.Obj? && key in v.fields
  }

  /** `v[key]` on a value that is neither null nor undefined. */
  function Prop(v: Value, key: string): Value {
    if HasOwn(v, key) then v.fields[key] else Undefined
  }

  /** `v[key]`, which throws a TypeError when `v` is null or undefined. */
  function Get(v: Value, key: string): Outcome<Value> {
    if Nullish(v) then ThrewTypeError else Returned(Prop(v, key))
  }

  /** The own properties `{...v}` copies, for the values the core spreads. */
  function Spread(v: Value): Record {
    if v.Obj? then v.fields else map[]
  }
}
