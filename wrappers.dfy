/** Option and Result, the failure-carrying values the rest of the model returns. */
module Wrappers {

  datatype Option<+T> = None | Some(value: T)

  /** `Err` stands for a Python exception escaping the call. */
  datatype Result<+T, +E> = Ok(value: T) | Err(error: E)
}
