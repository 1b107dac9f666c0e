/** The two wrappers the model needs: an optional value, for a syntax slot
    that may be null, and the outcome of an operation that either produces a
    value or stops with an error. */
module Wrappers {

  /** A value that may be absent, as a nullable syntax node is. */
  datatype Option<+T> = None | Some(value: T)

  /** Either a computed value or the error that stopped the computation. */
  datatype Result<+R, +E> = Success(value: R) | Failure(error: E)
}
