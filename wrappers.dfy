/** Failure-carrying wrappers: Option for a value that may be absent (a nil
    error, a nil child pointer, a listing that could not be fetched) and Result
    for the (value, error) pairs the reviewer package returns. */
module Wrappers {

  datatype Option<+T> = None | Some(value: T)

  datatype Result<+T, +E> = Ok(value: T) | Err(error: E)
}
