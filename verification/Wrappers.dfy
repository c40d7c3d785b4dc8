/** The two failure-compatible datatypes the models share. */
module Wrappers {

  datatype Option<+T> = None | Some(value: T)

  /** A Go `(value, error)` pair. Error texts are not part of the models: which input fails is,
      the wording is not. */
  datatype Result<+T> = Success(value: T) | Failure {
    predicate IsFailure() {
      Failure?
    }

    function PropagateFailure<U>(): Result<U>
      requires Failure?
    {
      Failure
    }

    function Extract(): T
      requires Success?
    {
      value
    }
  }
}
