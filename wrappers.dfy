/** Option and Result values shared by the modules of the statsd-agent model.
    Python's `None` and its exceptions become these two datatypes. */
module Wrappers {

  /** A value that may be missing (a JSON field that is absent, a Python `None`). */
  datatype Option<+T> = None | Some(value: T)

  /** The outcome of an operation that the source can abort with an exception. */
  datatype Result<+T, +E> = Ok(value: T) | Err(error: E)
}
