/** Failure-compatible wrappers shared by every module of the model. */
module Wrappers {

  /** An optional value: Rust's `Option<T>`, and `Result<T, ()>` where the error carries nothing. */
  datatype Option<+T> = None | Some(value: T)

  /** A value or an error: Rust's `Result<T, E>`, and a panic when `E` names the panic site. */
  datatype Result<+T, +E> = Success(value: T) | Failure(error: E)
}
