/** The document shape that serde produces from the builders, and the bytes
    the encoder stack writes. JSON objects are unordered, so an object is a
    map from field name to value. Numbers keep serde_json's distinction
    between integers (`u8`, `u32`) and floats (`f32`). */
module Json {

  datatype Value =
    | Int(i: int)
    | Float(f: real)
    | Str(s: string)
    | Array(items: seq<Value>)
    | Object(fields: map<string, Value>)

  type byte = b: int | 0 <= b < 0x100

  /** The format-version marker, ASCII '0'. */
  const MARKER: byte := 0x30

  /** An object with exactly one field: the shape of the `HashMap` that
      `render` and `add_blueprint` build from a single `(key, value)` pair. */
  function Singleton(key: string, v: Value): (r: Value)
    ensures r.Object? && r.fields.Keys == {key} && r.fields[key] == v
  {
    Object(map[key := v])
  }
}
