/**
 * The two wrappers the model uses: Option for a dictionary lookup that may
 * find nothing, and Result for an operation that may raise a Python exception.
 */
module Basics {

  datatype Option<T> = None | Some(value: T)

  datatype Result<T, E> = Ok(value: T) | Err(error: E)
}
