/** Option and Result: the absent argument and the thrown exception, as values. */
module Wrappers {

  /** A value that may be absent, as a Java reference may be null. */
  datatype Option<+T> = None | Some(value: T)

  /** What a Java method that returns a value or throws ends with. */
  datatype Result<+R, +E> = Success(value: R) | Failure(error: E)
}
