/** Failure-carrying values shared by the queue and the expression model. */
module Wrappers {

  /** A value that may be absent: the model of a nullable C pointer. */
  datatype Option<+T> = None | Some(value: T)

  /** The outcome of an operation that can fail with an error value. */
  datatype Result<+T, +E> = Ok(value: T) | Err(error: E)

  function Min(a: int, b: int): int
  {
    if a <= b then a else b
  }
}
