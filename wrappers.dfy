/** Failure-carrying values shared by every module of the model: the Python
    source signals failure by raising, the model returns one of these. */
module Wrappers {

  datatype Option<+T> = None | Some(value: T)

  datatype Result<+T, +E> = Ok(value: T) | Err(error: E)
}
