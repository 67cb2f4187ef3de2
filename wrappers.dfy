/** Option and Result values used for the handler's "nothing found" and
    "exception raised" outcomes. Result is failure-compatible, so `:-`
    stops a method at the first failing step, as a raised exception does. */
module Wrappers {

  datatype Option<+T> = None | Some(value: T)

  datatype Result<+R, +E> = Ok(value: R) | Err(error: E) {

    predicate IsFailure() {
      Err?
    }

    function PropagateFailure<U>(): Result<U, E>
      requires Err?
    {
      Err(error)
    }

    function Extract(): R
      requires Ok?
    {
      value
    }
  }
}
