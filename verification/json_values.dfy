/** JSON values as the Python server handles them after `json.load` or
    `request.get_json()`, with the Python operations the server applies to
    them: truthiness, the `in` operator and subscripting by a string key. An
    exception is the `Err` case of a `Result`. */
module JsonValues {
  import opened Outcomes
  import opened Text

  /** A parsed JSON value: `None`, a boolean, a number (integers only here),
      a string, a list or a dict. */
  datatype Json =
    | JNull
    | JBool(b: bool)
    | JNum(n: int)
    | JStr(s: string)
    | JArr(items: seq<Json>)
    | JObj(fields: map<string, Json>)

  /** The Python exceptions the server's JSON handling can raise. */
  datatype PyError = TypeError | KeyError | AttributeError

  /** `not value`: `None`, `False`, zero and empty containers are falsy. */
  predicate Falsy(value: Json)
  {
    match value
    case JNull => true
    case JBool(b) => !b
    case JNum(n) => n == 0
    case JStr(s) => s == []
    case JArr(items) => items == []
    case JObj(fields) => fields == map[]
  }

  /** `key in value`: a dict tests its keys, a list its elements, a string its
      substrings; any other value raises `TypeError`. */
  function PyIn(key: string, value: Json): (r: Result<bool, PyError>)
    ensures value.JObj? ==> r == Ok(key in value.fields)
    ensures value.JArr? ==> r == Ok(JStr(key) in value.items)
    ensures value.JStr? ==> r == Ok(Contains(value.s, key))
    ensures r.Err? <==> !(value.JObj? || value.JArr? || value.JStr?)
  {
    match value
    case JObj(fields) => Ok(key in fields)
    case JArr(items) => Ok(JStr(key) in items)
    case JStr(s) => Ok(Contains(s, key))
    case _ => Err(TypeError)
  }

  /** `value[key]` for a string key: a dict yields the entry or raises
      `KeyError`; a list or a string needs an integer index and raises
      `TypeError`, as does every other value. */
  function PySubscript(value: Json, key: string): (r: Result<Json, PyError>)
    ensures r.Ok? <==> value.JObj? && key in value.fields
    ensures r.Ok? ==> r.value == value.fields[key]
  {
    match value
    case JObj(fields) => if key in fields then Ok(fields[key]) else Err(KeyError)
    case _ => Err(TypeError)
  }

  /** `value.get(key, default)` on a dict; any other value has no `get` and
      raises `AttributeError`. */
  function PyGet(value: Json, key: string, default: Json): (r: Result<Json, PyError>)
    ensures r.Ok? <==> value.JObj?
    ensures r.Ok? && key in value.fields ==> r.value == value.fields[key]
    ensures r.Ok? && key !in value.fields ==> r.value == default
  {
    match value
    case JObj(fields) => Ok(if key in fields then fields[key] else default)
    case _ => Err(AttributeError)
  }

  /** `len(value)`: characters of a string, elements of a list, keys of a
      dict; `None`, booleans and numbers raise `TypeError`. */
  function PyLen(value: Json): (r: Result<nat, PyError>)
    ensures r.Ok? <==> value.JStr? || value.JArr? || value.JObj?
    ensures value.JArr? ==> r == Ok(|value.items|)
  {
    match value
    case JStr(s) => Ok(|s|)
    case JArr(items) => Ok(|items|)
    case JObj(fields) => Ok(|fields.Keys|)
    case _ => Err(TypeError)
  }
}
