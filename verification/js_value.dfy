/** JavaScript values as they appear in the bot's plain objects (a pending transaction,
    an extraction payload), and the truthiness tests the code applies to them. */
module JsValue {
  import opened JsNumber

  /** `Composite` stands for any array or object value. */
  datatype Value = Undefined | Null | Bool(b: bool) | Num(n: Number) | Str(s: string) | Composite

  /** A plain object: its own enumerable keys and their values. */
  type Payload = map<string, Value>

  /** `v` is falsy: `!v` holds, so `v || d` gives `d`. */
  predicate Falsy(v: Value) {
    match v
    case Undefined => true
    case Null => true
    case Bool(b) => !b
    case Num(n) => n == NaN || n == Finite(0.0)
    case Str(s) => s == ""
    case Composite => false
  }

  /** `obj[key]`: the value, or `undefined` for a key the object does not have. */
  function Get(obj: Payload, key: string): Value {
    if key in obj then obj[key] else Undefined
  }

  /** `v || fallback` */
  function OrElse(v: Value, fallback: Value): Value {
    if Falsy(v) then fallback else v
  }
}
