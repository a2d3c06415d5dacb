/** The JavaScript values the browser code handles, with `String(v)`, `Number(v)`, truthiness
  * and `??`. */
module JsValues {
  import opened Wrappers
  import Text
  import Numerals

  /** `undefined`, `null`, booleans, finite numbers, `NaN`, the two infinities, strings, and
    * objects other than arrays and dates, which are all truthy and convert to `NaN`. */
  datatype JsValue =
    | Undefined
    | Null
    | Bool(b: bool)
    | Num(n: real)
    | NaN
    | Infinity(negative: bool)
    | Str(s: string)
    | Object

  predicate IsNullish(v: JsValue) {
    v.Undefined? || v.Null?
  }

  /** `v ?? d`. */
  function Coalesce(v: JsValue, d: JsValue): JsValue {
    if IsNullish(v) then d else v
  }

  /** JavaScript truthiness: `undefined`, `null`, `false`, `0`, `NaN` and `""` are falsy. */
  predicate Truthy(v: JsValue) {
    match v
    case Undefined => false
    case Null => false
    case Bool(b) => b
    case Num(n) => n != 0.0
    case NaN => false
    case Infinity(_) => true
    case Str(s) => s != []
    case Object => true
  }

  /** `String(v)`. The decimal rendering of numbers and `toString` of objects are not modelled
    * and come in as `render`. */
  function JsString(v: JsValue, render: JsValue -> string): string {
    match v
    case Undefined => "undefined"
    case Null => "null"
    case Bool(b) => if b then "true" else "false"
    case Str(s) => s
    case _ => render(v)
  }

  /** `Number(s)` for a string, `None` standing for `NaN` and the infinities: blank text is 0,
    * otherwise an optionally signed decimal with an optional exponent. */
  function StringToNumber(s: string): (r: Option<real>)
    ensures Text.Strip(s) == [] ==> r == Some(0.0)
    ensures s != [] && (forall i :: 0 <= i < |s| ==> Text.IsNumChar(s[i])) ==> r == Numerals.DecimalLiteral(s)
  {
    if s != [] && forall i :: 0 <= i < |s| ==> Text.IsNumChar(s[i]) then
      Numerals.StripNumChars(s);
      Numerals.PyFloatOnNumChars(s);
      Numerals.PyFloat(s)
    else if Text.Strip(s) == [] then Some(0.0)
    else Numerals.PyFloat(s)
  }

  /** `Number(v)` when it is finite (`Number.isFinite`), `None` otherwise. */
  function FiniteNumber(v: JsValue): (r: Option<real>)
    ensures v.Undefined? || v.NaN? || v.Infinity? || v.Object? ==> r == None
    ensures v.Null? ==> r == Some(0.0)
    ensures v.Num? ==> r == Some(v.n)
    ensures v.Str? && Text.Strip(v.s) == [] ==> r == Some(0.0)
    ensures v.Str? && v.s != [] && (forall i :: 0 <= i < |v.s| ==> Text.IsNumChar(v.s[i])) ==>
      r == Numerals.DecimalLiteral(v.s)
  {
    match v
    case Undefined => None
    case Null => Some(0.0)
    case Bool(b) => Some(if b then 1.0 else 0.0)
    case Num(n) => Some(n)
    case NaN => None
    case Infinity(_) => None
    case Str(s) => StringToNumber(s)
    case Object => None
  }
}
