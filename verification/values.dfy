/** The slice of Python's value domain that flows through the parser: lexemes are
    strings, reducers build values of these five shapes, and failure is the
    value `False`. */
module Values {

  datatype Value =
    | NoneValue
    | Bool(b: bool)
    | Int(i: int)
    | Str(s: string)
    | List(items: seq<Value>)

  /** Python truthiness: `None`, `False`, `0`, `""` and `[]` are false. */
  predicate Truthy(v: Value)
    ensures !Truthy(v) <==> v in {NoneValue, Bool(false), Int(0), Str(""), List([])}
  {
    match v
    case NoneValue => false
    case Bool(b) => b
    case Int(i) => i != 0
    case Str(s) => s != []
    case List(items) => items != []
  }

  /** The marker `parse` returns when no production matches. */
  const FailureMarker: Value := Bool(false)
}
