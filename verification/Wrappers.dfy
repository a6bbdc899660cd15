/** The two failure types the other modules share. */
module Wrappers {

  /** A value that may be absent; also the outcome of a parser whose error text is not modelled. */
  datatype Option<+T> = None | Some(value: T)

  /** The outcome of a host function that answers with a value or a negative return code. */
  datatype Result<+T, +E> = Ok(value: T) | Err(error: E)
}
