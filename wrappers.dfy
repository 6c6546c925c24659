/** Optional values and results with an error, as the Python code signals
    "nothing here" with None and failures with a raised exception. */
module Wrappers {

  datatype Option<+T> = None | Some(value: T)

  datatype Result<+T, +E> = Ok(value: T) | Err(error: E)
}
