/** The dynamically typed values that flow through the control plane: decoded JSON, step
    results and step arguments.  A Go string is a sequence of bytes; here it is a `string`
    whose characters stand for those bytes. */
module Values {

  datatype Option<+T> = None | Some(value: T)

  /** `Float` is Go's float64 (what the JSON decoder produces), `Int` its int64 (what argument
      coercion produces). */
  datatype Value =
    | Nil
    | Bool(b: bool)
    | Float(r: real)
    | Int(n: int)
    | Str(s: string)
    | List(items: seq<Value>)
    | Dict(fields: map<string, Value>)

  function SeqToSet<T>(xs: seq<T>): set<T> {
    set x | x in xs
  }

  ghost predicate Distinct<T>(xs: seq<T>) {
    forall i, j | 0 <= i < j < |xs| :: xs[i] != xs[j]
  }

  /** An order in which Go may visit the keys of a map: every key once, in any order. */
  ghost predicate VisitOrder<K, V>(m: map<K, V>, order: seq<K>) {
    Distinct(order) && SeqToSet(order) == m.Keys
  }
}
