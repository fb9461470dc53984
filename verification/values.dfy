/** JavaScript values as they travel through request and response bodies,
    with the two JavaScript idioms the pipeline leans on: truthiness and
    property access that yields `undefined` for a missing property. */
module Values {

  datatype Option<T> = None | Some(value: T)

  datatype Result<T, E> = Ok(value: T) | Err(error: E)

  /** A JSON-like JavaScript value. `JUndefined` stands for a missing
      property; numbers keep only what matters here (zero or not), so they
      are integers. Objects are maps from property name to value. */
  datatype Json =
    | JUndefined
    | JNull
    | JBool(b: bool)
    | JNum(n: int)
    | JStr(s: string)
    | JArr(items: seq<Json>)
    | JObj(fields: map<string, Json>)

  /** JavaScript truthiness: undefined, null, false, 0 and "" are falsy. */
  predicate Truthy(v: Json) {
    match v
    case JUndefined => false
    case JNull => false
    case JBool(b) => b
    case JNum(n) => n != 0
    case JStr(s) => s != ""
    case JArr(_) => true
    case JObj(_) => true
  }

  /** `a || b`: the first operand when it is truthy, the second otherwise. */
  function Or(a: Json, b: Json): Json {
    if Truthy(a) then a else b
  }

  /** `v.key` (and `v?.key`) for the property names the pipeline reads:
      only objects carry them, every other value yields undefined. */
  function Get(v: Json, key: string): Json {
    if v.JObj? && key in v.fields then v.fields[key] else JUndefined
  }

  /** `v?.[0]`: the first element of an array, the property "0" of an
      object, the first character of a string, undefined otherwise. */
  function At0(v: Json): Json {
    match v
    case JArr(items) => if |items| > 0 then items[0] else JUndefined
    case JObj(fields) => if "0" in fields then fields["0"] else JUndefined
    case JStr(s) => if |s| > 0 then JStr(s[..1]) else JUndefined
    case _ => JUndefined
  }

  /** `o || fallback` for an optional string field such as `t.title`. */
  function OrElse(o: Option<string>, fallback: string): string {
    if o.Some? && o.value != "" then o.value else fallback
  }
}
