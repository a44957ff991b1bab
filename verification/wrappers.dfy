/** Failure-compatible wrappers used with `:-` throughout the model. */
module Wrappers {

  /** An optional value: `None` where the source has no value (Python's `None`). */
  datatype Option<+T> = None | Some(value: T) {

    predicate IsFailure() {
      None?
    }

    function PropagateFailure<U>(): Option<U>
      requires None?
    {
      None
    }

    function Extract(): T
      requires Some?
    {
      value
    }

    /** Turns a missing value into the given error. */
    function ToResult<E>(error: E): Result<T, E>
    {
      match this
      case Some(v) => Success(v)
      case None => Failure(error)
    }
  }

  /** A computation that either yields a value or stops with an error, the way
      a Python function either returns or raises. */
  datatype Result<+T, +E> = Success(value: T) | Failure(error: E) {

    predicate IsFailure() {
      Failure?
    }

    function PropagateFailure<U>(): Result<U, E>
      requires Failure?
    {
      Failure(error)
    }

    function Extract(): T
      requires Success?
    {
      value
    }
  }
}
