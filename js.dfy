/**
 * The parts of the JavaScript runtime the modelled code leans on: optional
 * values, numbers that may be non-finite, JSON values read from request
 * bodies, truthiness, the `Number(...)` and `String(...)` conversions and the
 * `%` operator on numbers.
 */
module Js {

  datatype Option<+T> = None | Some(value: T)

  /** A JavaScript number: a finite value or one of the three non-finite ones. */
  datatype JsNum = Finite(v: real) | NaN | Infinity | NegInfinity
  {
    /** `Number.isFinite(x)` */
    predicate IsFinite() { Finite? }
  }

  /** `x < y` on numbers: every comparison that involves NaN is false. */
  predicate Less(x: JsNum, y: JsNum)
  {
    match x
    case NaN => false
    case Infinity => false
    case NegInfinity => y.Finite? || y.Infinity?
    case Finite(a) => (y.Finite? && a < y.v) || y.Infinity?
  }

  /** A value decoded from a JSON request body, or `undefined`. */
  datatype JsValue =
    | Undefined
    | Null
    | Bool(b: bool)
    | Num(n: JsNum)
    | Str(s: string)
    | Array(items: seq<JsValue>)
    | Object(fields: map<string, JsValue>)

  /** JavaScript truthiness: `undefined`, `null`, `false`, `0`, `NaN` and `""` are falsy. */
  predicate Truthy(x: JsValue)
  {
    match x
    case Undefined => false
    case Null => false
    case Bool(b) => b
    case Num(n) => !(n.NaN? || n == Finite(0.0))
    case Str(s) => s != ""
    case Array(_) => true
    case Object(_) => true
  }

  /**
   * `x?.key` for the field names the modelled code reads (none of them is
   * `length` or an index): a field of an object, `undefined` for anything else.
   */
  function Get(x: JsValue, key: string): (r: JsValue)
    ensures x.Object? && key in x.fields ==> r == x.fields[key]
    ensures !(x.Object? && key in x.fields) ==> r == Undefined
  {
    if x.Object? && key in x.fields then x.fields[key] else Undefined
  }

  /**
   * `String(x)`. Strings, `undefined`, `null` and booleans are spelled out;
   * the formatting of numbers, arrays and objects is the runtime's and is
   * supplied as `otherToText`.
   */
  function ToText(x: JsValue, otherToText: JsValue -> string): (r: string)
    ensures x.Str? ==> r == x.s
    ensures x.Null? ==> r == "null"
    ensures x.Undefined? ==> r == "undefined"
  {
    match x
    case Str(s) => s
    case Undefined => "undefined"
    case Null => "null"
    case Bool(b) => if b then "true" else "false"
    case _ => otherToText(x)
  }

  /**
   * `Number(x)`. The conversion of a string (the runtime's numeric-literal
   * grammar, with rounding and overflow to Infinity) is supplied as
   * `strToNumber`; arrays and objects are converted through their string form.
   */
  function ToNumber(x: JsValue, strToNumber: string -> JsNum, otherToText: JsValue -> string): (r: JsNum)
    ensures x.Undefined? ==> r == NaN
    ensures x.Null? ==> r == Finite(0.0)
    ensures x.Num? ==> r == x.n
    ensures x.Str? ==> r == strToNumber(x.s)
  {
    match x
    case Undefined => NaN
    case Null => Finite(0.0)
    case Bool(b) => Finite(if b then 1.0 else 0.0)
    case Num(n) => n
    case Str(s) => strToNumber(s)
    case Array(_) => strToNumber(otherToText(x))
    case Object(_) => strToNumber(otherToText(x))
  }

  /** Truncation toward zero, as JavaScript's `%` uses it. */
  function Trunc(q: real): (t: int)
    ensures q >= 0.0 ==> t as real <= q < t as real + 1.0
    ensures q < 0.0 ==> t as real - 1.0 < q <= t as real
  {
    if q >= 0.0 then q.Floor else -((-q).Floor)
  }

  /**
   * `x % 360` on a finite number: the remainder of the quotient truncated
   * toward zero, which carries the sign of `x` (unlike Dafny's Euclidean `%`
   * on integers). 360 is the only divisor the modelled code uses.
   */
  function Rem360(x: real): (r: real)
    ensures x >= 0.0 ==> 0.0 <= r < 360.0
    ensures x <= 0.0 ==> -360.0 < r <= 0.0
    ensures 0.0 <= x < 360.0 ==> r == x
    ensures 360.0 <= x < 720.0 ==> r == x - 360.0
  {
    x - 360.0 * Trunc(x / 360.0) as real
  }
}
