/** Small shared datatypes: an optional value, and the JSON-like values that
    style documents and source descriptions are made of. */
module Wrappers {

  /** A value that may be missing; `None` stands for JavaScript's `undefined`
      or `null` wherever the source treats the two alike. */
  datatype Option<+T> = None | Some(value: T) {

    /** The wrapped value, or `default` when there is none. */
    function GetOr(default: T): T {
      match this
      case Some(v) => v
      case None => default
    }
  }

  /** A JSON value as read from a style document or a TileJSON description. */
  datatype Value =
    | Null
    | Bool(b: bool)
    | Num(n: real)
    | Str(s: string)
    | Arr(items: seq<Value>)
    | Obj(fields: map<string, Value>)

  /** JavaScript truthiness of a JSON value (NaN is not modelled). */
  predicate Truthy(v: Value) {
    match v
    case Null => false
    case Bool(b) => b
    case Num(n) => n != 0.0
    case Str(s) => s != ""
    case Arr(_) => true
    case Obj(_) => true
  }

  /** Truthiness of a possibly missing object member: a missing key reads as `undefined`. */
  predicate TruthyField(m: map<string, Value>, k: string) {
    k in m && Truthy(m[k])
  }
}
