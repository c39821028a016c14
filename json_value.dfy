/**
 * Parsed JSON documents, as `json.load` hands them to the validators.
 * Numbers are integers only: the documents of this pipeline carry integer
 * grades and absence counts, and a boolean is never an integer.
 */
module JsonValue {

  datatype Json =
    | JNull
    | JBool(b: bool)
    | JInt(n: int)
    | JString(str: string)
    | JArray(elems: seq<Json>)
    | JObject(members: map<string, Json>)
}
