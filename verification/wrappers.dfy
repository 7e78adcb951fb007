/** Optional values and results with an error, used for Python's `None` and for the
    exceptions and error strings the modelled code produces. */
module Wrappers {

  datatype Option<+T> = None | Some(value: T)

  datatype Result<+R, +E> = Ok(value: R) | Err(error: E)
}
