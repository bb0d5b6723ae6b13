/** Failure-carrying values: Python raises, the model returns. */
module Wrappers {

  datatype Option<+T> = None | Some(value: T)

  /** The value of an expression, or the exception it raised; `:-` propagates the exception. */
  datatype Result<+T, +E> = Ok(value: T) | Err(error: E) {
    predicate IsFailure() { Err? }

    function PropagateFailure<U>(): Result<U, E>
      requires Err?
    {
      Err(error)
    }

    function Extract(): T
      requires Ok?
    {
      value
    }
  }

  /** A statement that either completed or raised. */
  datatype Outcome<+E> = Pass | Fail(error: E)
}
