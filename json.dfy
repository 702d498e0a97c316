/**
 * JSON values as both ends see them: the body `jsonify` writes and axios
 * parses, the object `json.loads` returns. An object is its list of members;
 * the model keeps them in the order they were built, while Flask's `jsonify`
 * writes them with keys sorted (see README, "Left out").
 */
module Json {
  import opened Wrappers
  import opened OrderedMap

  datatype Json =
    | JNull
    | JBool(b: bool)
    | JNum(n: real)
    | JStr(s: string)
    | JArr(items: seq<Json>)
    | JObj(fields: Entries<Json>)

  /** JavaScript's ToBoolean (section 7.1.2 of ECMA-262), as used by `&&` and `||`. */
  predicate Truthy(j: Json) {
    match j
    case JNull => false
    case JBool(b) => b
    case JNum(n) => n != 0.0
    case JStr(s) => s != ""
    case JArr(_) => true
    case JObj(_) => true
  }

  /** Python's truth value testing: None, False, zero and empty containers are false. */
  predicate PyTruthy(j: Json) {
    match j
    case JNull => false
    case JBool(b) => b
    case JNum(n) => n != 0.0
    case JStr(s) => s != ""
    case JArr(items) => items != []
    case JObj(fields) => fields != []
  }

  /**
   * JavaScript property read `j.k` (and optional chaining `j?.k`). A missing
   * property, or a read on a non-object, gives `undefined`, represented by
   * JNull: React renders both as nothing and both are falsy.
   */
  function Member(j: Json, k: string): Json {
    if j.JObj? then Get(j.fields, k).GetOr(JNull) else JNull
  }

  /** The object `{"error": message}` that the backend sends with an error status. */
  function ErrorBody(message: string): (j: Json)
    ensures Member(j, "error") == JStr(message)
  {
    JObj([("error", JStr(message))])
  }
}
