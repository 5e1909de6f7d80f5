/** Failure-carrying datatypes shared by every module of the model. */
module Wrappers {

  /** An optional value, the model of Rust's `Option<T>`. */
  datatype Option<+T> = None | Some(value: T)

  /** A value or an error, the model of Rust's `Result<T, E>`. */
  datatype Result<+T, +E> = Success(value: T) | Failure(error: E)
}
