/** Option and Result, the two failure-carrying types the model uses for Rust's
    `Option` and for operations that panic or return `Err` in the source. */
module Wrappers {

  datatype Option<+T> = None | Some(value: T)

  datatype Result<+T, +E> = Ok(value: T) | Err(error: E)
}
