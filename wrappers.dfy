/** Option and Result, the two wrappers the backend's commands use:
    Rust's `Option<T>` and the `Result<T, String>` every command returns. */
module Wrappers {

  datatype Option<+T> = None | Some(value: T)

  datatype Result<+T, +E> = Ok(value: T) | Err(error: E)
}
