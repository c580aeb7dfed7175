/** Field values of the documents the backend keeps: Firestore documents,
    JSON files and the dictionaries handed between functions. Timestamps are
    integer seconds in one time zone. */
module Documents {

  datatype Option<+T> = None | Some(value: T)

  /** What a call produced: a value, or an exception that reached the caller. */
  datatype Outcome<+T> = Returned(value: T) | Raised

  datatype Value =
    | VNone
    | VBool(b: bool)
    | VInt(i: int)
    | VStr(s: string)
    | VTime(seconds: int)
    | VMap(fields: map<string, Value>)

  /** A document or dictionary: field name to value. */
  type Doc = map<string, Value>

  /** Python's truth value of a field value (`if x:`). */
  predicate Truthy(v: Value) {
    match v
    case VNone => false
    case VBool(b) => b
    case VInt(i) => i != 0
    case VStr(s) => s != ""
    case VTime(_) => true
    case VMap(m) => m != map[]
  }

  /** `d.get(k)`: the value under `k`, or `None` when the key is absent. */
  function Get(d: Doc, k: string): Value {
    if k in d then d[k] else VNone
  }

  /** The field `k` holds the boolean `True` (Firestore's `where(k, '==', True)`). */
  predicate IsTrue(d: Doc, k: string) {
    k in d && d[k] == VBool(true)
  }
}
