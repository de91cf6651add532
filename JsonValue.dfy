/**
  The JSON-like values a `to_dict` serialiser produces: integers, strings,
  lists and objects (string keys to values).
 */
module JsonValue {
  import opened Wrappers

  datatype Json =
    | JInt(n: int)
    | JStr(s: string)
    | JList(items: seq<Json>)
    | JObject(fields: map<string, Json>)

  /** `j[key]` for an object `j`; `None` when `j` is no object or has no such key. */
  function Get(j: Json, key: string): Option<Json>
  {
    if j.JObject? && key in j.fields then Some(j.fields[key]) else None
  }
}
