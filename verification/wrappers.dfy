/** Two small sum types. `Option` stands for a lookup that may come back
    null or undefined; `Result` for a computation that may throw, and it
    supports the `:-` early-exit operator. */
module Wrappers {

  /** An optional value; `None` plays the part of JavaScript's null or undefined. */
  datatype Option<+T> = None | Some(value: T) {

    /** The value as a sequence of zero or one elements. */
    function ToSeq(): seq<T> {
      match this
      case None => []
      case Some(v) => [v]
    }
  }

  /** Either a value or the error that interrupted the computation. */
  datatype Result<+T, +E> = Success(value: T) | Failure(error: E) {

    predicate IsFailure() {
      Failure?
    }

    function PropagateFailure<U>(): Result<U, E>
      requires Failure?
    {
      Failure(error)
    }

    function Extract(): T
      requires Success?
    {
      value
    }
  }
}
