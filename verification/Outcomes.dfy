/** The two result shapes the code returns: an optional value and a value or an error. */
module Outcomes {
  datatype Option<+T> = None | Some(value: T)

  /** A value or an error; `:-` on it is the code's `?`. */
  datatype Result<+T, +E> = Ok(value: T) | Err(error: E) {
    predicate IsFailure() { Err? }

    function PropagateFailure<U>(): Result<U, E>
      requires Err?
    {
      Err(error)
    }

    function Extract(): T
      requires Ok?
    {
      value
    }
  }
}
