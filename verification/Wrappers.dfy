/** Optional values and results: the Rust `Option` and `Result` of the modelled code. */
module Wrappers {

  datatype Option<+T> = None | Some(value: T)

  datatype Result<+T, +E> = Ok(value: T) | Err(error: E)
}
