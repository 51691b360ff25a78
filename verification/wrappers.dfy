/** Failure-carrying datatypes used where the Python code returns None or raises. */
module Wrappers {

  /** A value that may be absent; Python's `None` is `None` here too. */
  datatype Option<+T> = None | Some(value: T)

  /** The outcome of a step that either yields a value or raises an exception. */
  datatype Result<+T, +E> = Success(value: T) | Failure(error: E)
}
