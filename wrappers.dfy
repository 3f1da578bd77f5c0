/** Option and Result, the two failure-carrying shapes the contract's code uses. */
module Wrappers {

  datatype Option<+T> = None | Some(value: T)

  /** Rust's `Result<T, E>`: a handler either answers `Ok` or fails with an error. */
  datatype Result<+T, +E> = Ok(value: T) | Err(error: E)
}
