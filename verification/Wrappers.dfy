/** Result shapes for the JavaScript sources, whose operations return a value or throw a coded error. */
module Wrappers {
  datatype Option<+T> = None | Some(value: T)

  datatype Result<+T, +E> = Ok(value: T) | Err(error: E)
}
