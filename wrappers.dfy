/** Option and Result, used where the JavaScript code has `null`, a thrown
    error or an HTTP error status. */
module Wrappers {

  datatype Option<+T> = None | Some(value: T)

  datatype Result<+T, +E> = Ok(value: T) | Err(error: E)
}
