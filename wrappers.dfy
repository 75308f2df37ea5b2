/** Option and Result, used for the buffers that may be null and for the
    error exits of the command-line parser. */
module Wrappers {

  datatype Option<+T> = None | Some(value: T)

  datatype Result<+T, +E> = Ok(value: T) | Err(error: E)
}
