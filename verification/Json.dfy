/** Decoded JSON: what encoding/json leaves in an `interface{}`. Parsing and printing JSON text are
    not part of this model. */
module Json {
  import opened Wrappers

  datatype Json =
    | Null
    | Bool(b: bool)
    | Number(n: real)
    | Str(s: string)
    | Arr(elems: seq<Json>)
    | Obj(members: Members)

  type Members = map<string, Json>

  /** The value stored under `key`, as Go's `v, ok := m[key]`. */
  function Lookup(m: Members, key: string): Option<Json> {
    if key in m then Some(m[key]) else None
  }

  /** The `name` of an object when it is a string, as the list-merge code reads it. */
  function NameOf(el: Json): Option<string> {
    if el.Obj? && "name" in el.members && el.members["name"].Str? then Some(el.members["name"].s) else None
  }

  predicate IsContainer(v: Json) {
    v.Obj? || v.Arr?
  }
}
