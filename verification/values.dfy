/** JSON values as they reach the route handlers, and JavaScript truthiness. */
module Values {

  datatype Option<+T> = None | Some(value: T)

  /** A parsed JSON request body (express.json). `Undefined` is an absent key. */
  datatype Json =
    | Undefined
    | Null
    | Bool(b: bool)
    | Num(x: real)
    | Str(s: string)
    | Arr(items: seq<Json>)
    | Obj(fields: map<string, Json>)

  /** Reading `body.key`: absent keys and non-objects give `undefined`. */
  function Field(body: Json, key: string): Json {
    if body.Obj? && key in body.fields then body.fields[key] else Undefined
  }

  /** JavaScript truthiness (NaN cannot occur in a JSON body). */
  predicate Truthy(v: Json) {
    match v
    case Undefined => false
    case Null => false
    case Bool(b) => b
    case Num(x) => x != 0.0
    case Str(s) => s != ""
    case Arr(_) => true
    case Obj(_) => true
  }

  /** Truthiness of a nullable numeric column. */
  predicate TruthyNum(x: Option<real>) {
    x.Some? && x.value != 0.0
  }
}
