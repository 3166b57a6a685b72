/** JSON values as `json.loads` returns them. */
module JsonValue {
  import opened Wrappers

  datatype Json =
    | Null
    | Bool(b: bool)
    | Number(n: real)
    | Str(s: string)
    | Array(items: seq<Json>)
    | Object(fields: map<string, Json>)

  /**
   * `value.get("ads", [])`: the `ads` entry of an object, an empty array
   * when the object has none, and `None` when the value is not an object
   * (where `.get` raises `AttributeError`).
   */
  function AdsField(value: Json): (r: Option<Json>)
    ensures r.None? <==> !value.Object?
    ensures value.Object? && "ads" !in value.fields ==> r == Some(Array([]))
    ensures value.Object? && "ads" in value.fields ==> r == Some(value.fields["ads"])
  {
    match value
    case Object(fields) => Some(if "ads" in fields then fields["ads"] else Array([]))
    case _ => None
  }
}
