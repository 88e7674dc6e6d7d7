/** Failure-carrying datatypes shared by the model. */
module Outcomes {

  /** An optional value: the outcome of a conversion that may fail. */
  datatype Option<+T> = None | Some(value: T)

  /** A value or the reason it could not be produced. */
  datatype Result<+T, +E> = Success(value: T) | Failure(error: E)
}
