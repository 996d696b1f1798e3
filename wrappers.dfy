/** Option and Result values used for the lookups and conversions of the model. */
module Wrappers {

  /** An optional value: Rust's `Option<T>`. */
  datatype Option<+T> = None | Some(value: T)

  /** The outcome of a fallible step: a value, or the reason it failed. */
  datatype Result<+T, +E> = Success(value: T) | Failure(error: E)
}
