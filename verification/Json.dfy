/**
 JSON values as `serde_json::Value` presents them to the modelled code.
 An object lists its fields in the map's iteration order; keys are unique in
 every value the parser builds, and `Get` is a lookup by key.
*/
module Json {
  import opened Wrappers

  datatype Number = Int(n: int) | Float(r: real)

  datatype Json =
    | Null
    | Bool(b: bool)
    | Num(number: Number)
    | Str(s: string)
    | Arr(items: seq<Json>)
    | Obj(fields: seq<Field>)

  datatype Field = Field(name: string, value: Json)

  function Lookup(fields: seq<Field>, name: string): (r: Option<Json>)
    ensures r.Some? ==> exists i :: 0 <= i < |fields| && fields[i] == Field(name, r.value)
    ensures r.None? ==> forall i :: 0 <= i < |fields| ==> fields[i].name != name
  {
    if fields == [] then None
    else if fields[0].name == name then Some(fields[0].value)
    else Lookup(fields[1..], name)
  }

  /** `Value::get` with a string key: `None` on anything but an object. */
  function Get(value: Json, name: string): Option<Json> {
    if value.Obj? then Lookup(value.fields, name) else None
  }

  /** `Value::pointer` along object keys. */
  function Pointer(value: Json, path: seq<string>): Option<Json> {
    if path == [] then Some(value)
    else
      match Get(value, path[0])
      case None => None
      case Some(inner) => Pointer(inner, path[1..])
  }

  function AsStr(value: Option<Json>): Option<string> {
    if value.Some? && value.value.Str? then Some(value.value.s) else None
  }

  function AsArray(value: Option<Json>): Option<seq<Json>> {
    if value.Some? && value.value.Arr? then Some(value.value.items) else None
  }
}
