/** JSON documents as request bodies and stored records carry them, with
    JavaScript's truthiness, which the handlers use for their
    "is this field present" checks. */
module Json {
  import Wrappers

  datatype Json =
    | JNull
    | JBool(b: bool)
    | JNum(n: int)
    | JStr(s: string)
    | JArr(items: seq<Json>)
    | JObj(fields: map<string, Json>)

  /** `!!v` in JavaScript: null, false, 0 and "" are falsy; arrays and objects are truthy. */
  predicate Truthy(v: Json) {
    match v
    case JNull => false
    case JBool(b) => b
    case JNum(n) => n != 0
    case JStr(s) => |s| > 0
    case JArr(_) => true
    case JObj(_) => true
  }

  /** `!!v.length`: strings and arrays have a length; an object only through a
      truthy "length" field; booleans and numbers have none. */
  predicate HasLength(v: Json) {
    match v
    case JStr(s) => |s| > 0
    case JArr(xs) => |xs| > 0
    case JObj(m) => "length" in m && Truthy(m["length"])
    case _ => false
  }

  /** Truthiness of an optional field, where a missing field is `undefined`. */
  predicate Present(v: Wrappers.Option<Json>) {
    v.Some? && Truthy(v.value)
  }
}
