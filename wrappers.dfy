/** Option and Result: the null returns and exceptions of the Java code. */
module Wrappers {

  /** `None` stands for Java's `null`. */
  datatype Option<+T> = None | Some(value: T)

  /** `Failure` stands for an exception that escapes the modelled operation. */
  datatype Result<+R, +E> = Success(value: R) | Failure(error: E)
}
