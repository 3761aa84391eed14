/**
 * Decoded JSON values as the Python code sees them after `json.loads`
 * (numbers are modelled as integers), with the two dictionary idioms the
 * code uses: `d.get(key)` and Python truthiness.
 */
module Json {
  import opened Wrappers

  datatype Json =
    | JNull
    | JBool(b: bool)
    | JNum(n: int)
    | JStr(s: string)
    | JArr(items: seq<Json>)
    | JObj(fields: map<string, Json>)

  /** `bool(v)` for a decoded JSON value. */
  predicate Truthy(v: Json) {
    match v
    case JNull => false
    case JBool(b) => b
    case JNum(n) => n != 0
    case JStr(s) => s != []
    case JArr(items) => items != []
    case JObj(fields) => fields != map[]
  }

  /** `d.get(key)` on a dict; `None` for a missing key. */
  function Get(fields: map<string, Json>, key: string): Option<Json> {
    if key in fields then Some(fields[key]) else None
  }

  /** Whether `v` can be hashed, i.e. used with `in` on a Python set. */
  predicate Hashable(v: Json) {
    !v.JArr? && !v.JObj?
  }
}
