/** Failure-carrying result types used in place of the source's panics. */
module Wrappers {

  /** An optional value: `None` when absent. */
  datatype Option<+T> = None | Some(value: T)

  /** Either a value or a failure describing what went wrong. */
  datatype Result<+T, +E> = Success(value: T) | Failure(error: E)
}
