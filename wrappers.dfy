/** Option and Result datatypes shared by the other modules. */
module Wrappers {

  /** A value that may be absent; the model's stand-in for Python's `False`/`None` sentinels. */
  datatype Option<+T> = None | Some(value: T)

  /** Either a value or the error that a Python function would raise instead. */
  datatype Result<+T, +E> = Ok(value: T) | Err(error: E)
}
