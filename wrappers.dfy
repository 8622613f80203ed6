/** The `Result` shape that Rust code returns: a value or an error. */
module Wrappers {

  datatype Result<T, E> = Ok(value: T) | Err(error: E)
}
