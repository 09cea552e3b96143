/** Loosely typed JavaScript values, for the records the scripts and helpers read by key. */
module JsValues {
  import opened JsText

  /** A JavaScript number: integers only (see README), or NaN. */
  datatype Num = NaN | Fin(v: int)

  datatype Value = Undefined | Null | Bool(b: bool) | Number(n: Num) | Str(s: string)

  /** A plain object keyed by property name. */
  type Record = map<string, Value>

  /** JavaScript truthiness. */
  predicate Truthy(v: Value) {
    match v
    case Undefined => false
    case Null => false
    case Bool(b) => b
    case Number(n) => n.Fin? && n.v != 0
    case Str(s) => s != ""
  }

  /** `String(v)`. */
  function ToJsString(v: Value): string {
    match v
    case Undefined => "undefined"
    case Null => "null"
    case Bool(b) => if b then "true" else "false"
    case Number(n) => if n.NaN? then "NaN" else IntToString(n.v)
    case Str(s) => s
  }

  /** `rec[k]`: a missing property reads as undefined. */
  function Get(rec: Record, k: string): Value {
    if k in rec then rec[k] else Undefined
  }

  /** `a ?? b`. */
  function Nullish(a: Value, b: Value): Value {
    if a == Undefined || a == Null then b else a
  }
}
