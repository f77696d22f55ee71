/** The configuration document: Vert.x's `JsonObject` restricted to what the
    tree builder puts in it — strings, `null`, and nested objects. */
module JsonTree {
  import opened Results

  /** A JSON value. `Obj` is a `JsonObject`; key order is not kept. */
  datatype Json = Null | Str(s: string) | Obj(fields: map<string, Json>)

  /** The value reached from `j` by following the object keys in `path`,
      or `None` when some key is missing or a non-object is met before the
      path ends. */
  function Lookup(j: Json, path: seq<string>): Option<Json>
    decreases |path|
  {
    if path == [] then Some(j)
    else match j
      case Obj(m) => if path[0] in m then Lookup(m[path[0]], path[1..]) else None
      case _ => None
  }
}
