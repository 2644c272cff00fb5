/** The result shapes the model uses for Python's `None`, for refused requests and for single checks. */
module Wrappers {

  datatype Option<+T> = None | Some(value: T)

  datatype Result<+T, +E> = Ok(value: T) | Err(error: E) {
    predicate IsFailure() {
      Err?
    }

    function PropagateFailure<U>(): Result<U, E>
      requires Err?
    {
      Err(error)
    }

    function Extract(): T
      requires Ok?
    {
      value
    }
  }

  /** The outcome of one guard. */
  datatype Check<+E> = Pass | Refuse(error: E) {
    predicate IsFailure() {
      Refuse?
    }

    function PropagateFailure<U>(): Result<U, E>
      requires Refuse?
    {
      Err(error)
    }
  }

  function Need<E>(condition: bool, error: E): Check<E> {
    if condition then Pass else Refuse(error)
  }
}
