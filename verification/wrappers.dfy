/** Failure-compatible wrappers shared by every module of the model. */
module Wrappers {

  /** An optional value: `None` stands for Python's "nothing came back". */
  datatype Option<+T> = None | Some(value: T)

  /** Either a value or the reason the run stopped; usable with `:-`. */
  datatype Result<+R, +E> = Success(value: R) | Failure(error: E) {

    predicate IsFailure() {
      Failure?
    }

    function PropagateFailure<U>(): Result<U, E>
      requires Failure?
    {
      Failure(error)
    }

    function Extract(): R
      requires Success?
    {
      value
    }
  }
}
