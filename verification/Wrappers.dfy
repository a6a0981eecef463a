/** Failure-compatible results shared by the other modules. */
module Wrappers {
  datatype Option<+T> = None | Some(value: T)

  /** Success with a value, or the reason of a refusal: a thrown error of the program. */
  datatype Result<+T, +E> = Success(value: T) | Failure(error: E) {
    predicate IsFailure() {
      Failure?
    }

    function PropagateFailure<U>(): Result<U, E>
      requires Failure?
    {
      Failure(error)
    }

    function Extract(): T
      requires Success?
    {
      value
    }
  }
}
