/** The untyped JSON values that Go's `map[string]interface{}` documents hold. */
module Json {
  import opened Wrappers

  /** A JSON value. Numbers are kept as integers: no document here needs fractions. */
  datatype Json =
    | Null
    | Bool(b: bool)
    | Number(n: int)
    | Str(s: string)
    | Array(items: seq<Json>)
    | Object(fields: map<string, Json>)

  /** The member `key` of an object, or None when the value is not an object or has no such member. */
  function Member(doc: Json, key: string): Option<Json>
  {
    match doc
    case Object(fields) => if key in fields then Some(fields[key]) else None
    case _ => None
  }

  /** The word Go's decoder uses for a value's kind in "cannot unmarshal" messages. */
  function KindName(doc: Json): string
  {
    match doc
    case Null => "null"
    case Bool(_) => "bool"
    case Number(_) => "number"
    case Str(_) => "string"
    case Array(_) => "array"
    case Object(_) => "object"
  }
}
