/** Failure-carrying result types shared by the parsers of this model. */
module Wrappers {

  /** A value that may be absent, used where the source returns `None`. */
  datatype Option<+T> = None | Some(value: T)

  /** A value or the error the source raises instead of returning it. */
  datatype Result<+R, +E> = Success(value: R) | Failure(error: E)
}
