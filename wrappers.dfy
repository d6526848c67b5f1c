/** Optional values, and the Python exceptions raised by the modelled code
    as values. */
module Wrappers {

  /** A value that may be absent (Python's None). */
  datatype Option<T> = None | Some(value: T)

  /** The exception kinds that the modelled operations can raise. */
  datatype PyError =
    | ValueError(message: string)
    | IndexError
    | UnboundLocalError
    | ZeroDivisionError

  /** A value, or the exception raised instead of returning it. */
  datatype Result<T> = Ok(value: T) | Err(error: PyError)
}
