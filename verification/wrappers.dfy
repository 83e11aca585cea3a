/** Failure-carrying results shared by every module of the model. */
module Wrappers {

  /** An optional value: `None` stands for Go's nil or "not found". */
  datatype Option<+T> = None | Some(value: T)

  /** A value or an error, standing for Go's `(T, error)` return pairs. */
  datatype Result<+R, +E> = Success(value: R) | Failure(error: E) {
    predicate IsFailure() {
      Failure?
    }

    function PropagateFailure<U>(): Result<U, E>
      requires Failure?
    {
      Failure(error)
    }

    function Extract(): R
      requires Success?
    {
      value
    }
  }
}
