/** Option and Result types shared by the modules of this model. */
module Wrappers {

  /** Python's `None` or a value. */
  datatype Option<+T> = None | Some(value: T)

  /** The value of a call or the exception it raises. */
  datatype Result<+T, +E> = Ok(value: T) | Err(error: E)
}
