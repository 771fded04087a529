/**
 * JSON-like values as the request pipeline sees them (query objects, header
 * objects, bodies, error payloads). Arrays are objects keyed by their indices,
 * which is also what the object spread `{...array}` turns them into.
 */
module Json {
  datatype Val =
    | Null
    | Bool(b: bool)
    | Num(n: int)
    | Str(s: string)
    | Obj(fields: map<string, Val>)

  /** JavaScript truthiness: `null`, `false`, `0` and `""` are falsy; every object is truthy. */
  predicate Truthy(v: Val) {
    match v
    case Null => false
    case Bool(b) => b
    case Num(n) => n != 0
    case Str(s) => s != ""
    case Obj(_) => true
  }
}
