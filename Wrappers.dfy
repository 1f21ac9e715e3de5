/** Option and Result, the two failure-carrying wrappers the model uses for
    "no value" (JavaScript null, a missing dictionary key) and for raised errors. */
module Wrappers {

  datatype Option<+T> = None | Some(value: T)

  datatype Result<+R, +E> = Ok(value: R) | Err(error: E)
}
