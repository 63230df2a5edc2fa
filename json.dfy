/** JavaScript values as the relay meets them: what `JSON.parse` produces,
    `undefined` (an absent property, written `None`), truthiness, the `||`
    operator and reading a property. */
module JsValue {
  import opened Wrappers

  /** A parsed JSON value. Numbers are kept as exact decimals. */
  datatype Json =
    | Null
    | Bool(b: bool)
    | Number(n: real)
    | Str(s: string)
    | Array(items: seq<Json>)
    | Object(fields: map<string, Json>)

  /** JavaScript truthiness: `undefined`, `null`, `false`, `0` and `""` are
      falsy; every other value, empty arrays and objects included, is truthy. */
  predicate Truthy(v: Option<Json>) {
    match v
    case None => false
    case Some(j) =>
      match j
      case Null => false
      case Bool(b) => b
      case Number(n) => n != 0.0
      case Str(s) => s != ""
      case Array(_) => true
      case Object(_) => true
  }

  /** `a || b`: the left operand when it is truthy, otherwise the right one. */
  function Or(a: Option<Json>, b: Option<Json>): (r: Option<Json>)
    ensures Truthy(r) <==> Truthy(a) || Truthy(b)
    ensures r == a || r == b
    ensures Truthy(a) ==> r == a
    ensures !Truthy(a) ==> r == b
  {
    if Truthy(a) then a else b
  }

  /** The error JavaScript throws when a property of `null` or `undefined` is read. */
  datatype JsError = TypeError(property: string)

  /** `v[key]` on a value that is not `null` or `undefined`: an own member of
      an object, and `undefined` on every other kind of value. The relay
      reads only keys that no built-in prototype defines (`text`, `message`,
      `output`, `json`, `sessionId`, `attachments`, `timestamp`, `content`). */
  function Field(v: Json, key: string): (r: Option<Json>)
    ensures r.Some? <==> v.Object? && key in v.fields
  {
    if v.Object? && key in v.fields then Some(v.fields[key]) else None
  }

  /** `v.key` on any value: throws exactly on `null` and `undefined`. */
  function Get(v: Option<Json>, key: string): (r: Result<Option<Json>, JsError>)
    ensures r.Failure? <==> v == None || v == Some(Null)
    ensures r.Success? ==> r.value == Field(v.value, key)
  {
    match v
    case None => Failure(TypeError(key))
    case Some(Null) => Failure(TypeError(key))
    case Some(j) => Success(Field(j, key))
  }

  /** `a || d` where the right operand is a value written in place (a
      literal string, `[]`): the left operand when it is truthy, else `d`. */
  function OrElse(a: Option<Json>, d: Json): (r: Json)
    ensures Truthy(a) ==> Some(r) == a
    ensures !Truthy(a) ==> r == d
  {
    if Truthy(a) then a.value else d
  }
}
