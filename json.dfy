/** JSON documents as Python's `json` module produces and consumes them. */
module JsonValues {

  /** A decoded JSON value. Numbers are exact reals: the split between `int` and `float`
      that Python keeps is not represented. */
  datatype Json =
    | JNull
    | JBool(b: bool)
    | JNum(n: real)
    | JStr(s: string)
    | JArray(items: seq<Json>)
    | JObject(fields: map<string, Json>)

  /** A JSON object as Python holds it: a dict with string keys. */
  type JsonDict = map<string, Json>
}
