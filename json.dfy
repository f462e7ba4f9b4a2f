/**
 * The Python values that a management reply can decode to (`socket.recv_json()`),
 * and Python's notion of truthiness on them, which `fever.py` relies on in every
 * `if not x` and in the `and`-chain of `reply_is_success`.
 */
module Json {
  /** A decoded JSON document as Python sees it. `Null` is Python's `None`. */
  datatype Value =
    | Null
    | Bool(b: bool)
    | Int(i: int)
    | Float(f: real)
    | Str(s: string)
    | List(items: seq<Value>)
    | Dict(fields: map<string, Value>)

  /** `bool(v)` in Python: None, False, 0, 0.0, "", [] and {} are false. */
  predicate Truthy(v: Value) {
    match v
    case Null => false
    case Bool(b) => b
    case Int(i) => i != 0
    case Float(f) => f != 0.0
    case Str(s) => s != ""
    case List(items) => items != []
    case Dict(fields) => fields != map[]
  }

  /**
   * The falsy values, listed as Python's documentation lists them: None, False, zero,
   * the empty string and the empty containers; every other value is truthy.
   */
  lemma FalsyValues(v: Value)
    ensures !Truthy(v) <==>
      v in {Null, Bool(false), Int(0), Float(0.0), Str(""), List([]), Dict(map[])}
  {
  }

  /** `d.get(key, None)`. */
  function Get(fields: map<string, Value>, key: string): (v: Value)
    ensures key !in fields ==> v == Null
    ensures key in fields ==> v == fields[key]
  {
    if key in fields then fields[key] else Null
  }

  /** The key is present and its value is truthy: what `if not d.get(key)` rejects the negation of. */
  predicate Present(fields: map<string, Value>, key: string) {
    key in fields && Truthy(fields[key])
  }
}
