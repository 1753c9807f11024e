/** Dynamic values as Python sees them after `json.loads`, and as the
    `isinstance` checks of the source classify them. */
module Json {

  /** A JSON document (or any Python value the core receives untyped). */
  datatype Json =
    | JNull
    | JBool(b: bool)
    | JInt(i: int)
    | JFloat(f: real)
    | JStr(s: string)
    | JArr(items: seq<Json>)
    | JObj(fields: map<string, Json>)

  /** `isinstance(v, (int, float))`: true for booleans as well, since a Python
      `bool` is an `int`. */
  predicate IsNumber(v: Json) {
    v.JInt? || v.JFloat? || v.JBool?
  }

  /** `float(v)` for a value that passes `IsNumber`. */
  function AsReal(v: Json): (r: real)
    requires IsNumber(v)
    ensures v.JBool? ==> r == (if v.b then 1.0 else 0.0)
    ensures v.JInt? ==> r == v.i as real
    ensures v.JFloat? ==> r == v.f
  {
    match v
    case JInt(i) => i as real
    case JFloat(f) => f
    case JBool(b) => if b then 1.0 else 0.0
  }

  /** `obj.get(key)` on a dict: a missing key reads as `None`. */
  function Get(obj: Json, key: string): (r: Json)
    requires obj.JObj?
    ensures key !in obj.fields ==> r == JNull
    ensures key in obj.fields ==> r == obj.fields[key]
  {
    if key in obj.fields then obj.fields[key] else JNull
  }

  /** `obj.get(key, default)` on a dict. */
  function GetOr(obj: Json, key: string, default: Json): (r: Json)
    requires obj.JObj?
    ensures key !in obj.fields ==> r == default
    ensures key in obj.fields ==> r == obj.fields[key]
  {
    if key in obj.fields then obj.fields[key] else default
  }

  /** Python truthiness of a value (`if v:`). */
  predicate Truthy(v: Json) {
    match v
    case JNull => false
    case JBool(b) => b
    case JInt(i) => i != 0
    case JFloat(f) => f != 0.0
    case JStr(s) => s != []
    case JArr(items) => items != []
    case JObj(fields) => fields != map[]
  }
}
