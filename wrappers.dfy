/** Failure-compatible helper datatypes used across the model. */
module Wrappers {

  /** A Java reference that may be null: `None` stands for null. */
  datatype Option<+T> = None | Some(value: T)

  /** The outcome of a Java call that returns a value or throws. */
  datatype Result<+R, +E> = Success(value: R) | Failure(error: E)

  /** The outcome of a `void` Java call: it returns normally or throws. */
  datatype Outcome<+E> = Pass | Fail(error: E)
}
