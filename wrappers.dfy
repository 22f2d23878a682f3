/** Option and Result: how the model states the Python code's None values and exceptions. */
module Wrappers {

  datatype Option<+T> = None | Some(value: T)

  /** An operation that either returns a value or raises an error of kind E. */
  datatype Result<+T, +E> = Success(value: T) | Failure(error: E) {

    predicate IsFailure() {
      Failure?
    }

    function PropagateFailure<U>(): Result<U, E>
      requires Failure?
    {
      Failure(error)
    }

    function Extract(): T
      requires Success?
    {
      value
    }
  }
}
