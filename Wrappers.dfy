/** Failure-compatible values used in place of Java's null references and exceptions. */
module Wrappers {

  /** A value that may be absent: Java's nullable reference. */
  datatype Option<+T> = None | Some(value: T)

  /** A computation that returns a value or raises an error. */
  datatype Result<+R, +E> = Success(value: R) | Failure(error: E)

  /** A computation that returns nothing or raises an error (a Java `void` method that may throw). */
  datatype Outcome<+E> = Pass | Fail(error: E)
}
