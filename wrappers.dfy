/** Optional values: `None` stands for JavaScript's `null` / `undefined` results. */
module Wrappers {
  datatype Option<+T> = None | Some(value: T) {
    function GetOr(default: T): T {
      match this
      case Some(v) => v
      case None => default
    }
  }

  /** The outcome of an operation that JavaScript ends by throwing: `Err` carries the reason. */
  datatype Result<+T, +E> = Ok(value: T) | Err(error: E)

  /** Concatenation regrouped; stated once for any element type, where the solver finds it cheaply. */
  lemma AppendAssoc<T>(a: seq<T>, b: seq<T>, c: seq<T>)
    ensures (a + b) + c == a + (b + c)
  {
  }
}
