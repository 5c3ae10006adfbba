/** The decoded JSON the movie API returns, with the Python operations the bot applies to it:
    truthiness, `str()`, `dict.get` and hashability (whether a value can be a `set` member or a
    `dict` key). */
module Json {
  import opened Text

  /** A float keeps the text Python prints for it and whether it is zero. */
  datatype Json =
    | JNull
    | JBool(b: bool)
    | JInt(i: int)
    | JFloat(shown: string, zero: bool)
    | JStr(s: string)
    | JArr(items: seq<Json>)
    | JObj(fields: map<string, Json>)

  /** `bool(v)` */
  predicate Truthy(v: Json) {
    match v
    case JNull => false
    case JBool(b) => b
    case JInt(i) => i != 0
    case JFloat(_, zero) => !zero
    case JStr(s) => s != ""
    case JArr(items) => items != []
    case JObj(fields) => fields != map[]
  }

  /** `str(v)` for the scalar values; lists and objects are not rendered. */
  function Render(v: Json): string {
    match v
    case JNull => "None"
    case JBool(b) => if b then "True" else "False"
    case JInt(i) => IntToString(i)
    case JFloat(shown, _) => shown
    case JStr(s) => s
    case JArr(_) => ""
    case JObj(_) => ""
  }

  /** `m.get(key, default)` */
  function Get(m: map<string, Json>, key: string, default: Json): Json {
    if key in m then m[key] else default
  }

  /** Lists and dicts are unhashable: using one as a set member or a dict key raises. */
  predicate Hashable(v: Json) {
    !v.JArr? && !v.JObj?
  }

  /** `v == 0` in Python, where `False == 0` and `0.0 == 0` hold. */
  predicate EqualsZero(v: Json) {
    v == JInt(0) || v == JBool(false) || (v.JFloat? && v.zero)
  }
}
