/** The values `JSON.parse` can produce, and the property accesses the core performs on them. */
module Json {
  import opened Wrappers

  /** Numbers are modelled as integers. */
  datatype JsonValue =
    | JNull
    | JBool(b: bool)
    | JNumber(n: int)
    | JString(str: string)
    | JArray(items: seq<JsonValue>)
    | JObject(fields: map<string, JsonValue>)

  /** `v?.key`; `None` stands for `undefined`. Only objects have the properties looked up here. */
  function Member(v: Option<JsonValue>, key: string): (r: Option<JsonValue>)
    ensures r.Some? ==> v.Some? && v.value.JObject? && key in v.value.fields && r.value == v.value.fields[key]
    ensures v.Some? && v.value.JObject? && key in v.value.fields ==> r.Some?
  {
    match v
    case Some(JObject(fields)) => if key in fields then Some(fields[key]) else None
    case _ => None
  }

  /** `v?.[0]`: the first element of an array, or the property "0" of an object. */
  function First(v: Option<JsonValue>): Option<JsonValue>
  {
    match v
    case Some(JArray(items)) => if items != [] then Some(items[0]) else None
    case Some(JObject(_)) => Member(v, "0")
    case _ => None
  }
}
