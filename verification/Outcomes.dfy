/** Result types shared by every component of the model. */
module Outcomes {

  datatype Option<+T> = None | Some(value: T)

  /** A value, or the exception the service raises instead. */
  datatype Result<+T, +E> = Ok(value: T) | Err(error: E) {

    predicate IsFailure() { Err? }

    function PropagateFailure<U>(): Result<U, E>
      requires Err?
    {
      Err(error)
    }

    function Extract(): T
      requires Ok?
    {
      value
    }
  }

  /** The outcome of a check: nothing, or the exception raised. */
  datatype Verdict<+E> = Pass | Fail(error: E) {

    predicate IsFailure() { Fail? }

    function PropagateFailure<U>(): Result<U, E>
      requires Fail?
    {
      Err(error)
    }
  }
}
