/** Option and Result values used for the program's "maybe absent" and
    "value or error code" results. */
module Wrappers {

  datatype Option<+T> = None | Some(value: T)

  datatype Result<+T, +E> = Ok(value: T) | Err(error: E)
}
