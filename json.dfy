/**
 * The values `json.loads` produces. The decoder itself is not modelled: the
 * operations that decode take it as a partial function `string -> Option<Value>`
 * (None standing for `json.JSONDecodeError`).
 */
module Json {

  datatype Value =
    | Null
    | Bool(b: bool)
    | Number(n: int)
    | Str(s: string)
    | Array(items: seq<Value>)
    | Object(fields: map<string, Value>)

  /**
   * Python truthiness of a decoded value (`if concepts:`): false exactly for the
   * falsy values `None`, `False`, `0`, `""`, `[]` and `{}`.
   */
  predicate Truthy(v: Value)
    ensures Truthy(v) <==>
      v !in {Null, Bool(false), Number(0), Str([]), Array([]), Object(map[])}
  {
    match v
    case Null => false
    case Bool(b) => b
    case Number(n) => n != 0
    case Str(s) => s != []
    case Array(items) => items != []
    case Object(fields) => fields != map[]
  }

  /** `d.get(key, default)` on a decoded object. */
  function Get(fields: map<string, Value>, key: string, default: Value): (r: Value)
    ensures key in fields ==> r == fields[key]
    ensures key !in fields ==> r == default
  {
    if key in fields then fields[key] else default
  }

  /** A list of strings as a decoded JSON array. */
  function StrArray(ss: seq<string>): (v: Value)
    ensures v.Array? && |v.items| == |ss|
    ensures forall k :: 0 <= k < |ss| ==> v.items[k] == Str(ss[k])
  {
    Array(seq(|ss|, k requires 0 <= k < |ss| => Str(ss[k])))
  }
}
