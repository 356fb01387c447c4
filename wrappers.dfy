/** Result carriers for the source's checked results and thrown error codes. */
module Wrappers {

  datatype Option<+T> = None | Some(value: T)

  /** A value, or the error code an operation throws instead of returning. */
  datatype Result<+R, +E> = Success(value: R) | Failure(error: E)

  /** The outcome of an operation that returns nothing (Java `void`) but may throw. */
  datatype Outcome<+E> = Pass | Fail(error: E)
}
