/** JSON values; numbers are reals, and an object is its members by name. */
module JsonValue {
  datatype Json =
    | Null
    | Bool(b: bool)
    | Number(n: real)
    | String(s: string)
    | Array(items: seq<Json>)
    | Object(members: map<string, Json>)
}
