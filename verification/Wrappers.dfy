/** Failure-compatible wrappers used throughout the model: `Option` for values
    that may be absent and `Result` for computations that may raise. */
module Wrappers {

  datatype Option<+T> = None | Some(value: T)

  /** `Failure` stands for a Python exception that propagates to the caller. */
  datatype Result<+R, +E> = Success(value: R) | Failure(error: E) {

    predicate IsFailure() {
      Failure?
    }

    function PropagateFailure<U>(): Result<U, E>
      requires Failure?
    {
      Failure(error)
    }

    function Extract(): R
      requires Success?
    {
      value
    }
  }
}
