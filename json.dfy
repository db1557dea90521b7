/**
 * Parsed JSON values as the services receive them from `json.loads`, and
 * the Python operations the code applies to them (`in`, `[key]`, `[0]`,
 * truth value, `dict.get`), each with the exception Python raises.
 */
module Json {
  import opened Wrappers
  import opened Text

  datatype Json =
    | JNull
    | JBool(b: bool)
    | JNum(n: real)
    | JStr(s: string)
    | JArr(items: seq<Json>)
    | JObj(fields: map<string, Json>)

  /** The Python exception an operation on a parsed value raises. */
  datatype PyError = KeyError(key: string) | IndexError | TypeError | AttributeError

  /** `key in container`: a dict tests its keys, a list its items, a str its substrings. */
  function In(key: string, container: Json): Result<bool, PyError> {
    match container
    case JObj(m) => Ok(key in m)
    case JArr(xs) => Ok(JStr(key) in xs)
    case JStr(s) => Ok(Contains(s, key))
    case _ => Err(TypeError)
  }

  /** `container[key]` with a str key: only a dict can be indexed by it. */
  function GetItem(container: Json, key: string): Result<Json, PyError> {
    match container
    case JObj(m) => if key in m then Ok(m[key]) else Err(KeyError(key))
    case _ => Err(TypeError)
  }

  /** `container[0]`: the first item of a list or character of a str; a dict has no int keys. */
  function First(container: Json): Result<Json, PyError> {
    match container
    case JArr(xs) => if |xs| > 0 then Ok(xs[0]) else Err(IndexError)
    case JStr(s) => if |s| > 0 then Ok(JStr([s[0]])) else Err(IndexError)
    case JObj(_) => Err(KeyError("0"))
    case _ => Err(TypeError)
  }

  /** Python's truth value of a parsed value. */
  predicate Truthy(j: Json) {
    match j
    case JNull => false
    case JBool(b) => b
    case JNum(n) => n != 0.0
    case JStr(s) => s != ""
    case JArr(xs) => |xs| > 0
    case JObj(m) => |m| > 0
  }

  /** `d.get(key, default)` on a dict. */
  function Get(fields: map<string, Json>, key: string, default: Json): Json {
    if key in fields then fields[key] else default
  }
}
