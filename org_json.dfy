/**
 * The org.json value tree as the app sees it after `new JSONObject(text)`,
 * and the accessors it calls (Android's implementation). Each accessor
 * returns `None` exactly where Android throws JSONException.
 */
module OrgJson {
  import opened Wrappers

  datatype Json =
    | JNull
    | JBool(b: bool)
      /** A number, carried as the text `String.valueOf` gives for the parsed value. */
    | JNumber(rendered: string)
    | JString(s: string)
    | JArray(elems: seq<Json>)
    | JObject(fields: map<string, Json>)

  /**
   * The body a failed download hands to the parsers: the empty string, which
   * is not JSON text. A body is modelled by the value its text parses to,
   * `None` when it does not parse.
   */
  const FailedDownload: Option<Json> := None

  /** `new JSONObject(text)`: the text must parse, and to an object. */
  function NewJSONObject(body: Option<Json>): (r: Option<map<string, Json>>)
    ensures r.Some? <==> body.Some? && body.value.JObject?
    ensures r.Some? ==> r.value == body.value.fields
    ensures body == FailedDownload ==> r.None?
  {
    match body
    case Some(JObject(fields)) => Some(fields)
    case _ => None
  }

  /** `JSONObject.getJSONArray(key)`: the key must be present and hold an array. */
  function GetJSONArray(obj: map<string, Json>, key: string): (r: Option<seq<Json>>)
    ensures r.Some? <==> key in obj && obj[key].JArray?
    ensures key in obj && obj[key] == JNull ==> r.None?
    ensures r.Some? ==> obj[key] == JArray(r.value)
  {
    if key in obj && obj[key].JArray? then Some(obj[key].elems) else None
  }

  /** `JSONArray.getJSONObject(i)`: the index must be in range and hold an object. */
  function GetJSONObject(arr: seq<Json>, i: int): (r: Option<map<string, Json>>)
    ensures r.Some? <==> 0 <= i < |arr| && arr[i].JObject?
    ensures arr == [] ==> r.None?
    ensures r.Some? ==> arr[i] == JObject(r.value)
  {
    if 0 <= i < |arr| && arr[i].JObject? then Some(arr[i].fields) else None
  }

  /**
   * `JSONObject.getString(key)`: a string as it is; null, booleans and numbers
   * as the text `String.valueOf` gives them; a missing key throws.
   */
  function GetString(obj: map<string, Json>, key: string): (r: Option<string>)
    ensures r.Some? <==> key in obj && !obj[key].JArray? && !obj[key].JObject?
    ensures key in obj && obj[key].JString? ==> r == Some(obj[key].s)
    ensures key in obj && obj[key] == JNull ==> r == Some("null")
    ensures key in obj && obj[key].JBool? ==> r == Some(if obj[key].b then "true" else "false")
    ensures key in obj && obj[key].JNumber? ==> r == Some(obj[key].rendered)
  {
    if key !in obj then None
    else
      match obj[key]
      case JString(s) => Some(s)
      case JNull => Some("null")
      case JBool(b) => Some(if b then "true" else "false")
      case JNumber(rendered) => Some(rendered)
      case _ => None
  }

  /** `new JSONObject(text).getJSONArray(key)`, the first step of every extractor. */
  function ArrayField(body: Option<Json>, key: string): Option<seq<Json>>
  {
    match NewJSONObject(body)
    case None => None
    case Some(obj) => GetJSONArray(obj, key)
  }
}
