/** Option and Result, the two failure-carrying wrappers the model uses for nullable columns and
    for operations that either succeed or return an error. */
module Wrappers {

  /** A nullable value: `None` stands for SQL NULL / Python `None`. */
  datatype Option<+T> = None | Some(value: T)

  /** The outcome of an operation that can fail with an error of type `E`. */
  datatype Result<+T, +E> = Ok(value: T) | Err(error: E)
}
