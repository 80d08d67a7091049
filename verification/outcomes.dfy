/** Failure-compatible values shared by every part of the group model. */
module Outcomes {

  /** An optional value: the model's stand-in for a nullable column or a nil result. */
  datatype Option<+T> = None | Some(value: T)

  /** Either the value an operation produced or the error it raised. */
  datatype Result<+T, +E> = Success(value: T) | Failure(error: E)
}
