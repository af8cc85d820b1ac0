/** Failure-compatible wrappers shared by the modules of this model. */
module Wrappers {

  /** An optional value: a stat result that may be missing, a heap pop that may find nothing. */
  datatype Option<+T> = None | Some(value: T)

  /** A value or the exception that the modelled code raises instead. */
  datatype Result<+T, +E> = Success(value: T) | Failure(error: E) {
    predicate IsFailure() { Failure? }

    function PropagateFailure<U>(): Result<U, E>
      requires Failure?
    {
      Failure(error)
    }

    function Extract(): T
      requires Success?
    {
      value
    }
  }
}
