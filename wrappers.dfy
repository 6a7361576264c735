/** Failure-carrying datatypes shared by the modules of this model. */
module Wrappers {

  /** An optional value (Rust's `Option`). */
  datatype Option<+T> = None | Some(value: T)

  /** A value or an error (Rust's `Result`). */
  datatype Result<+R, +E> = Success(value: R) | Failure(error: E)
}
