/** Failure-compatible wrappers: Option stands for a Java reference that may be
    null, Result and Outcome for a call that may end in an exception. */
module Wrappers {

  datatype Option<+T> = None | Some(value: T)

  datatype Result<+T, +E> = Success(value: T) | Failure(error: E) {

    predicate IsFailure() {
      Failure?
    }

    function PropagateFailure<U>(): Result<U, E>
      requires Failure?
    {
      Failure(error)
    }

    function Extract(): T
      requires Success?
    {
      value
    }
  }

  /** The result of a call that returns nothing (Java `void`) but may throw. */
  datatype Outcome<+E> = Pass | Fail(error: E)
}
