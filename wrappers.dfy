/** Failure-carrying results shared by every module of the model: an exception
    raised by the modelled code becomes a `Failure`. */
module Wrappers {

  datatype Option<+T> = None | Some(value: T)

  datatype Result<+T, +E> = Success(value: T) | Failure(error: E) {
    predicate IsFailure() { Failure? }

    function PropagateFailure<U>(): Result<U, E>
      requires Failure?
    {
      Failure(error)
    }

    function Extract(): T
      requires Success?
    {
      value
    }
  }

  /** An operation that either completes or raises. */
  datatype Outcome<+E> = Pass | Fail(error: E)
}
