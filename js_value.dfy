/**
 * The dynamically typed values the form record holds, as JavaScript's
 * `typeof`/`Array.isArray` checks tell them apart, and the record itself.
 */
module JsValue {

  /** A record value: text, a list of texts, a checkbox, or one of the two "no value" values. */
  datatype Value = Str(s: string) | Arr(items: seq<string>) | Bool(b: bool) | Null | Undefined

  /** A flat record keyed by field name (`Record<string, any>`). */
  type Record = map<string, Value>

  /** JavaScript truthiness: the empty string, `false`, `null` and `undefined` are falsy; every array is truthy. */
  predicate Truthy(v: Value) {
    match v
    case Str(s) => s != ""
    case Arr(_) => true
    case Bool(b) => b
    case Null => false
    case Undefined => false
  }

  /** `record[key]`: a key the record does not hold reads as `undefined`. */
  function Get(record: Record, key: string): (v: Value)
    ensures key in record ==> v == record[key]
    ensures key !in record ==> v == Undefined
  {
    if key in record then record[key] else Undefined
  }
}
