/** JSON values as the standard `json` module reads and writes them: the
    configuration file, Chrome App manifests and the generated web app
    manifest are all JSON objects. Numbers are integers here. */
module Json {

  datatype Json =
    | JNull
    | JBool(b: bool)
    | JNumber(n: int)
    | JString(s: string)
    | JArray(items: seq<Json>)
    | JObject(members: map<string, Json>)
}
