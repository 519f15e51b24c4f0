/** Option and Result values used for the error paths of the model: where the
    Python code raises (IndexError, KeyError, ZeroDivisionError, ValueError,
    struct.error, AssertionError) the model returns a Failure. */
module Wrappers {

  datatype Option<+T> = None | Some(value: T)

  datatype Result<+T, +E> = Success(value: T) | Failure(error: E) {
    predicate IsFailure() {
      Failure?
    }

    function PropagateFailure<U>(): Result<U, E>
      requires Failure?
    {
      Failure(error)
    }

    function Extract(): T
      requires Success?
    {
      value
    }
  }
}
