/**
 * The JSON values a decoded job record can hold, seen as the Python
 * objects both scripts work on, with Python's truthiness and `str()`.
 */
module PyValues {
  import opened Text

  /**
   * A JSON scalar as Python holds it after decoding. A float carries its
   * exact value and the text Python's `str()` prints for it (its repr),
   * which this model takes as given rather than computing it.
   */
  datatype Value =
    | Null
    | Bool(b: bool)
    | Int(n: int)
    | Float(x: real, text: string)
    | Str(s: string)

  /** A job record: a JSON object from the search API. */
  type Job = map<string, Value>

  /** Python's `job.get(key)`: None when the key is absent. */
  function Get(job: Job, key: string): Value {
    if key in job then job[key] else Null
  }

  /** Python's `job.get(key, default)`. */
  function GetOr(job: Job, key: string, default: Value): Value {
    if key in job then job[key] else default
  }

  /** Python's `bool(v)`: None, False, 0, 0.0 and "" are falsy, everything else truthy. */
  predicate Truthy(v: Value) {
    match v
    case Null => false
    case Bool(b) => b
    case Int(n) => n != 0
    case Float(x, _) => x != 0.0
    case Str(s) => s != ""
  }

  /** Python's `str(v)`, which is also what an f-string inserts for `{v}`. */
  function PyStr(v: Value): string {
    match v
    case Null => "None"
    case Bool(b) => if b then "True" else "False"
    case Int(n) => IntToString(n)
    case Float(_, text) => text
    case Str(s) => s
  }
}
