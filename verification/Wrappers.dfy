/** Failure-compatible result types shared by the protocol modules. */
module Wrappers {

  datatype Option<+T> = None | Some(value: T)

  /** Success carrying a value, or the kind of error the caller sees. */
  datatype Result<+T, +E> = Ok(value: T) | Err(error: E) {
    predicate IsFailure() {
      Err?
    }

    function PropagateFailure<U>(): Result<U, E>
      requires Err?
    {
      Err(error)
    }

    function Extract(): T
      requires Ok?
    {
      value
    }
  }
}
