// Parsed JSON values. Numbers are finite; a field that is `undefined` in TypeScript is absent here.
module Json {
  import opened Prelude

  datatype Json =
    | Null
    | Bool(b: bool)
    | Num(n: real)
    | Str(s: string)
    | Arr(items: seq<Json>)
    | Obj(fields: map<string, Json>)

  type Fields = map<string, Json>

  function Get(fields: Fields, name: string): Option<Json> {
    if name in fields then Some(fields[name]) else None
  }

  /** `object(value)` in TypeScript, `as_object` in Rust. */
  function AsObject(value: Option<Json>): Option<Fields> {
    if value.Some? && value.value.Obj? then Some(value.value.fields) else None
  }

  function AsString(value: Option<Json>): Option<string> {
    if value.Some? && value.value.Str? then Some(value.value.s) else None
  }

  function AsNumber(value: Option<Json>): Option<real> {
    if value.Some? && value.value.Num? then Some(value.value.n) else None
  }

  function AsInteger(value: Option<Json>): Option<int> {
    var n := AsNumber(value);
    if n.Some? && n.value == n.value.Floor as real then Some(n.value.Floor) else None
  }

  function Point(x: real, y: real): Json {
    Obj(map["x" := Num(x), "y" := Num(y)])
  }
}
