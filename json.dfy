/** JSON documents as the scripts see them after parsing, and JavaScript truthiness of a
    value read from a parsed request body. */
module Json {
  import opened Wrappers

  /** A parsed JSON value. Numbers are integers here; fractions and the special float
      values are not part of the model. */
  datatype Json =
    | JNull
    | JBool(b: bool)
    | JNum(n: int)
    | JStr(s: string)
    | JArr(items: seq<Json>)
    | JObj(fields: map<string, Json>)

  /** Reading `obj.key` of a parsed value: `None` stands for JavaScript's `undefined`
      (the key is absent, or the value is not an object). */
  function Field(v: Json, key: string): (r: Option<Json>)
    ensures r.Some? <==> v.JObj? && key in v.fields
    ensures r.Some? ==> r.value == v.fields[key]
  {
    if v.JObj? && key in v.fields then Some(v.fields[key]) else None
  }

  /** JavaScript truthiness: `undefined`, `null`, `false`, `0` and `""` are falsy, every
      other value (including an empty array or object) is truthy. */
  predicate Truthy(v: Option<Json>) {
    match v
    case None => false
    case Some(JNull) => false
    case Some(JBool(b)) => b
    case Some(JNum(n)) => n != 0
    case Some(JStr(s)) => s != ""
    case Some(JArr(_)) => true
    case Some(JObj(_)) => true
  }

  /** A JSON file on disk, as a script that reads it finds it. */
  datatype StoredJson = Missing | Unparsable | Parsed(doc: Json)
}
