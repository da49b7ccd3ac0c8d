/**
 * Values shared by the rest of the model: an optional value (Python's
 * `None` or a value) and the JSON values `json.loads` produces.
 */
module Common {

  datatype Option<+T> = None | Some(value: T)

  /** A decoded JSON document. Numbers are integers here: the model never
      looks inside a decoded document, it only stores and returns it. */
  datatype Json =
    | JNull
    | JBool(b: bool)
    | JNumber(n: int)
    | JString(s: string)
    | JArray(items: seq<Json>)
    | JObject(fields: map<string, Json>)
}
