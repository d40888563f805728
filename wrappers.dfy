/** The outcome of an operation that either returns a value or throws. */
module Wrappers {

  datatype Result<+T, +E> = Ok(value: T) | Err(error: E)
}
