/** Failure-compatible wrappers: the converter's Python exceptions become `Err` values. */
module Results {

  /** A value that may be absent, as returned by the token parsers. */
  datatype Option<+T> = None | Some(value: T)

  /** The outcome of a stage that can raise: `Ok` carries the result, `Err` the reason. */
  datatype Result<+T, +E> = Ok(value: T) | Err(error: E) {

    predicate IsFailure() {
      Err?
    }

    function PropagateFailure<U>(): Result<U, E>
      requires Err?
    {
      Err(error)
    }

    function Extract(): T
      requires Ok?
    {
      value
    }
  }
}
