/** Option, Result and Outcome: the values that stand for Java's null and for a thrown exception. */
module Wrappers {

  /** A reference that may be null. */
  datatype Option<+T> = None | Some(value: T)

  /** A computation that either yields a value or fails with an error. */
  datatype Result<+T, +E> = Ok(value: T) | Err(error: E)

  /** A check that either passes or fails with an error (a void method that may throw). */
  datatype Outcome<+E> = Pass | Fail(error: E)
}
