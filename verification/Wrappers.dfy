/** The two stock result types used throughout. */
module Wrappers {

  /** A value that may be missing: a JavaScript null field, a map lookup, an SQL row. */
  datatype Option<+T> = None | Some(value: T)

  /** The outcome of an operation that can raise. */
  datatype Result<+T, +E> = Ok(value: T) | Err(error: E)
}
