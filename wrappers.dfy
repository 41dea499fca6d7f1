/** Failure-carrying wrappers shared by every module of the model. */
module Wrappers {

  datatype Option<+T> = None | Some(value: T)

  /** A value or the error the source would throw instead. */
  datatype Result<+T, +E> = Success(value: T) | Failure(error: E)

  /** Completion without a value, or the error the source would throw. */
  datatype Outcome<+E> = Pass | Fail(error: E)
}
