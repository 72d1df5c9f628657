/** Optional values and error returns.  A C++ exception is modelled as `Err`. */
module Wrappers {
  datatype Option<+T> = None | Some(value: T)

  datatype Result<+T> = Ok(value: T) | Err
}
