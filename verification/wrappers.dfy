/** Optional values and results shared by the model's modules. */
module Wrappers {

  /** A value that may be missing: a NaN cell, a loop that ran out of answers. */
  datatype Option<T> = None | Some(value: T)

  /** The outcome of an operation that can raise. */
  datatype Result<T, E> = Ok(value: T) | Err(error: E)
}
