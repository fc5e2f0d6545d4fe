/** Failure-carrying result types shared by the other modules. */
module Wrappers {

  /** Swift's `Optional`: `None` plays the role of `nil`. */
  datatype Option<+T> = None | Some(value: T)

  /** The outcome of an operation that either yields a value or stops the program. */
  datatype Result<+T, +E> = Ok(value: T) | Err(error: E)
}
