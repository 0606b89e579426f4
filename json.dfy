/**
 * The parsed JSON tree the reader works on, and the two org.json accessors it
 * uses (`JSONObject.getString` and `JSONObject.getJSONArray`). Parsing JSON text
 * is not part of this model: everything starts from an already parsed tree.
 */
module Json {
  import opened Wrappers

  /** A parsed JSON value. An object is an unordered map from keys to values. */
  datatype JsonValue =
    | JNull
    | JBool(b: bool)
    | JNumber(n: real)
    | JString(str: string)
    | JArray(items: seq<JsonValue>)
    | JObject(members: map<string, JsonValue>)

  /**
   * Why reading a JSON tree failed: org.json's "not found", "not a string" and
   * "not a JSONArray" exceptions, and the ClassCastException of casting a value
   * that is not an object to `JSONObject`.
   */
  datatype JsonError =
    | KeyNotFound(key: string)
    | NotAString(key: string)
    | NotAnArray(key: string)
    | NotAnObject

  /** `obj.getString(key)`: the string stored under `key`, or an error. */
  function GetString(obj: map<string, JsonValue>, key: string): (r: Result<string, JsonError>)
    ensures r.Success? <==> key in obj && obj[key].JString?
    ensures r.Success? ==> obj[key] == JString(r.value)
    ensures r.Failure? ==> r.error in {KeyNotFound(key), NotAString(key)}
    ensures r.Failure? ==> (r.error.KeyNotFound? <==> key !in obj)
  {
    if key !in obj then Failure(KeyNotFound(key))
    else match obj[key]
      case JString(s) => Success(s)
      case _ => Failure(NotAString(key))
  }

  /** `obj.getJSONArray(key)`: the elements of the array stored under `key`, or an error. */
  function GetArray(obj: map<string, JsonValue>, key: string): (r: Result<seq<JsonValue>, JsonError>)
    ensures r.Success? <==> key in obj && obj[key].JArray?
    ensures r.Success? ==> obj[key] == JArray(r.value)
    ensures r.Failure? ==> r.error in {KeyNotFound(key), NotAnArray(key)}
    ensures r.Failure? ==> (r.error.KeyNotFound? <==> key !in obj)
  {
    if key !in obj then Failure(KeyNotFound(key))
    else match obj[key]
      case JArray(items) => Success(items)
      case _ => Failure(NotAnArray(key))
  }
}
