/** Optional values and answers that may be refused. */
module Wrappers {

  datatype Option<+T> = None | Some(value: T)

  /** A value, or the source's ValueError. */
  datatype Result<+T> = Ok(value: T) | Rejected
}
