/**
 * Values that JSON.parse produces. Parsing itself is done outside the
 * model; callers receive its result. Numbers are limited to integers.
 */
module Json {

  datatype Json =
    | JNull
    | JBool(b: bool)
    | JNumber(n: int)
    | JString(s: string)
    | JArray(items: seq<Json>)
    | JObject(fields: map<string, Json>)
}
