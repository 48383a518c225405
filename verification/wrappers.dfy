/** Failure-carrying values shared by the queue and the engine. */
module Wrappers {

  /** A value that may be absent; stands for Python's `None`. */
  datatype Option<+T> = None | Some(value: T)

  /** The outcome of an engine transition: the next state, or the way the program stops. */
  datatype Result<+T, +E> = Ok(value: T) | Err(error: E)
}
