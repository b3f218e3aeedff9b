/** Values that flow through a Binary record: the optional wrapper and the
    dynamically typed values a JSON payload (or a keyword argument) carries. */
module Values {

  datatype Option<+T> = None | Some(value: T)

  /** A dynamically typed attribute value. `Null` is Python's `None`;
      `Time` is a `datetime`, kept as an integer instant. */
  datatype Value =
    | Null
    | Bool(b: bool)
    | Int(i: int)
    | Str(s: string)
    | Time(t: int)

  /** Python truthiness: `None`, `False`, `0` and `""` are falsy; every
      other value, a `datetime` included, is truthy. */
  predicate Truthy(v: Value)
  {
    match v
    case Null => false
    case Bool(b) => b
    case Int(i) => i != 0
    case Str(s) => s != ""
    case Time(_) => true
  }
}
