/** Optional values and results with an error, used by every module of the model
    wherever the source returns None/undefined/null or raises. */
module Wrappers {

  datatype Option<+T> = None | Some(value: T)

  datatype Result<+T, +E> = Ok(value: T) | Err(error: E)
}
