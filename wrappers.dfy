/** Failure-carrying values shared by every module of the model. A C++
    exception thrown by the source becomes an `Err`, a value it returns an `Ok`. */
module Wrappers {

  datatype Option<+T> = None | Some(value: T)

  datatype Result<+T, +E> = Ok(value: T) | Err(error: E)
}
