/** Optional values and results with an error alternative, used for the
    script's failure paths (exceptions) instead of preconditions. */
module Wrappers {

  datatype Option<+T> = None | Some(value: T)

  datatype Result<+T, +E> = Ok(value: T) | Err(error: E)
}
