/** JSON values as the SCIM server sees them after decoding. */
module Json {

  datatype Json =
    | JNull
    | JBool(b: bool)
    | JNumber(literal: string)
    | JString(text: string)
    | JArray(items: seq<Json>)
    | JObject(fields: Object)

  type Object = map<string, Json>

  /** Reading a missing key gives null. */
  function Get(o: Object, key: string): Json {
    if key in o then o[key] else JNull
  }

  function TextOf(v: Json): string {
    if v.JString? then v.text else ""
  }

  /** The value at a path of object keys, if every step of it is there. */
  function Lookup(o: Object, path: seq<string>): (r: Json)
    requires path != []
    decreases |path|
  {
    var v := Get(o, path[0]);
    if |path| == 1 then v
    else if v.JObject? then Lookup(v.fields, path[1..])
    else JNull
  }

  /** Two paths part ways at some step. */
  predicate Diverge(p: seq<string>, q: seq<string>) {
    p != [] && q != [] && (p[0] != q[0] || Diverge(p[1..], q[1..]))
  }
}
