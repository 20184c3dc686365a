/**
 * A decoded serde_json value. Parsing JSON text is not part of this model:
 * wherever the service parses text, the parser is a parameter.
 */
module Json {
  import opened Wrappers

  datatype Json =
    | JNull
    | JBool(b: bool)
    | JNumber(n: int)
    | JString(s: string)
    | JArray(items: seq<Json>)
    | JObject(fields: map<string, Json>)

  /** `value[key]`: the member of an object, or null for a missing key or a non-object. */
  function Index(j: Json, key: string): (r: Json)
    ensures r != JNull ==> j.JObject? && key in j.fields && r == j.fields[key]
    ensures j.JObject? && key in j.fields ==> r == j.fields[key]
  {
    if j.JObject? && key in j.fields then j.fields[key] else JNull
  }

  /** `value.get(key)`: the member of an object, if there is one. */
  function Get(j: Json, key: string): (r: Option<Json>)
    ensures r.Some? <==> j.JObject? && key in j.fields
    ensures r.Some? ==> r.value == j.fields[key]
  {
    if j.JObject? && key in j.fields then Some(j.fields[key]) else None
  }

  /** `value.as_str()`. */
  function AsStr(j: Json): (r: Option<string>)
    ensures r.Some? <==> j.JString?
    ensures r.Some? ==> r.value == j.s
  {
    if j.JString? then Some(j.s) else None
  }
}
