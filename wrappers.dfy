/** Optional values and results with an error message, used wherever the
    tools either produce nothing or raise an exception. */
module Wrappers {

  datatype Option<+T> = None | Some(value: T)

  datatype Result<+T> = Ok(value: T) | Err(message: string)
}
