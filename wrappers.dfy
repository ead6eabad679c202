/** Option and Result values standing in for Python's `None` and for the
    exceptions / `sys.exit` calls of the script. */
module Wrappers {

  datatype Option<+T> = None | Some(value: T)

  datatype Result<+R, +E> = Ok(value: R) | Err(error: E)
}
