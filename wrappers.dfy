/** Failure-carrying results used across the model in place of Java's null
    references and thrown exceptions. */
module Wrappers {

  /** A nullable reference: `None` stands for Java's `null`. */
  datatype Option<+T> = None | Some(value: T)

  /** A computation that yields a value or fails with an error. */
  datatype Result<+R, +E> = Success(value: R) | Failure(error: E)

  /** A `void` call that either returns normally or throws `error`. */
  datatype Outcome<+E> = Pass | Fail(error: E)
}
