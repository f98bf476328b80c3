/** Option and Result values, as Rust's `Option<T>` and `Result<T, &'static str>`. */
module Wrappers {

  datatype Option<+T> = None | Some(value: T)

  /** A result whose error is a fixed message, as the library's `&'static str` errors. */
  datatype Result<+T> = Ok(value: T) | Err(error: string)
}
