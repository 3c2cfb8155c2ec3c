/** Failure-compatible wrappers used across the model.
    - Option<T> stands for a Python value that may be missing (None) or NaN.
    - Result<R, E> stands for a computation that may raise: Failure carries the
      reason the source would have raised for.
    Result supports the `:-` operator, so a step that can fail reads as a chain
    of `var x :- F(...);` lets.
 */
module Wrappers {

  datatype Option<+T> = None | Some(value: T)

  datatype Result<+R, +E> = Success(value: R) | Failure(error: E) {

    predicate IsFailure() {
      Failure?
    }

    function PropagateFailure<U>(): Result<U, E>
      requires Failure?
    {
      Failure(error)
    }

    function Extract(): R
      requires Success?
    {
      value
    }

    /** Keeps a success and rewraps a failure into another error type. */
    function MapFailure<F>(wrap: E -> F): Result<R, F>
    {
      match this
      case Success(v) => Success(v)
      case Failure(e) => Failure(wrap(e))
    }
  }
}
