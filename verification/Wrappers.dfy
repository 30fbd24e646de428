/** Results of partial operations: Rust's Option and Result, and the exceptions of the frontend. */
module Wrappers {

  datatype Option<+T> = None | Some(value: T)

  datatype Result<+T, +E> = Success(value: T) | Failure(error: E)
}
