/**
  JSON values as `json.loads` hands them to the handler, with the parts of
  Python's object protocol the handler relies on: truthiness, `str()`,
  hashability and `dict.get`.
*/
module JsonValue {
  import opened Wrappers
  import Text

  datatype Json =
    | JNull
    | JBool(b: bool)
    | JInt(i: int)
    | JStr(s: string)
    | JArray(items: seq<Json>)
    | JObject(fields: map<string, Json>)

  /** Python's `bool(v)`. */
  predicate Truthy(v: Json)
  {
    match v
    case JNull => false
    case JBool(b) => b
    case JInt(i) => i != 0
    case JStr(s) => s != ""
    case JArray(items) => |items| > 0
    case JObject(fields) => |fields| > 0
  }

  /** Lists and dicts cannot be dictionary keys: `x in d` raises TypeError. */
  predicate Hashable(v: Json)
  {
    !v.JArray? && !v.JObject?
  }

  /** Python's `str(v)` for the hashable values. */
  function PyStr(v: Json): string
    requires Hashable(v)
  {
    match v
    case JNull => "None"
    case JBool(b) => if b then "True" else "False"
    case JInt(i) => Text.IntToString(i)
    case JStr(s) => s
  }

  /** `d.get(key, default)` on a dict. */
  function Get(fields: map<string, Json>, key: string, default: Json): Json
  {
    if key in fields then fields[key] else default
  }

  /** `message.get(key)` with no default: None when absent. */
  function GetOrNull(fields: map<string, Json>, key: string): Json
  {
    Get(fields, key, JNull)
  }
}
