// Option and Result, used wherever the Python code returns None or a
// (success, message) pair instead of a value.
module Wrappers {
  datatype Option<T> = None | Some(value: T)

  datatype Result<T, E> = Ok(value: T) | Err(error: E)
}
