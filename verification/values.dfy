/** Dynamic values as they reach the backend (Python, from request JSON) and
    the front end (JavaScript objects), with the two languages' notions of
    truthiness. */
module Values {

  datatype Option<+T> = None | Some(value: T)

  /** A JSON-like dynamic value. `Undefined` stands for a missing key
      (Python's `dict.get` default `None`, JavaScript's `undefined`).
      Composite values only record how many entries they hold. */
  datatype Value =
    | Undefined
    | Null
    | Bool(b: bool)
    | Num(n: int)
    | Str(s: string)
    | Array(size: nat)
    | Object(size: nat)

  /** Python's `bool(v)`: empty containers, zero, "" and None are false. */
  predicate PyTruthy(v: Value) {
    match v
    case Undefined => false
    case Null => false
    case Bool(b) => b
    case Num(n) => n != 0
    case Str(s) => s != ""
    case Array(k) => k > 0
    case Object(k) => k > 0
  }

  /** JavaScript's `!!v`: every array and object is true, even an empty one. */
  predicate JsTruthy(v: Value) {
    match v
    case Undefined => false
    case Null => false
    case Bool(b) => b
    case Num(n) => n != 0
    case Str(s) => s != ""
    case Array(_) => true
    case Object(_) => true
  }

  /** Property lookup on a JavaScript object modelled as a map of own keys. */
  function Prop(obj: map<string, Value>, key: string): Value
  {
    if key in obj then obj[key] else Undefined
  }
}
