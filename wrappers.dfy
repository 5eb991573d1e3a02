/** Option and Result, the shapes the Rust and TypeScript sources return. */
module Wrappers {

  /** Rust's Option, and TypeScript's `T | null`. */
  datatype Option<+T> = None | Some(value: T)

  /** Rust's Result<T, String>: errors are carried as their message. */
  datatype Result<+T> = Ok(value: T) | Err(error: string)
}
