/** Values that cross the HTTP boundary: optional values and the JavaScript
    values a request body is made of. */
module Values {

  datatype Option<+T> = None | Some(value: T)

  /** A JavaScript value as it appears in a parsed request body. `Undefined`
      is kept apart from `Null` because the authentication gate can store
      an object whose properties are all `undefined`. */
  datatype Value =
    | Undefined
    | Null
    | Bool(b: bool)
    | Num(n: int)
    | Str(s: string)
    | Obj(fields: map<string, Value>)

  /** A request body that is a JSON object: its properties by name. */
  type Body = map<string, Value>

  /** Property access `o.key` on an object; `undefined` when absent. */
  function Get(fields: Body, key: string): Value {
    if key in fields then fields[key] else Undefined
  }

  /** `zod`'s `z.string()` on one property: the string, or a parse failure. */
  function AsString(v: Value): (r: Option<string>)
    ensures r.Some? <==> v.Str?
    ensures r.Some? ==> v == Str(r.value)
  {
    if v.Str? then Some(v.s) else None
  }

  /** `zod`'s `z.boolean()` on one property. */
  function AsBool(v: Value): (r: Option<bool>)
    ensures r.Some? <==> v.Bool?
    ensures r.Some? ==> v == Bool(r.value)
  {
    if v.Bool? then Some(v.b) else None
  }
}
