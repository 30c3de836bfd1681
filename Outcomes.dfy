/** Optional values and the outcome of operations that can raise a Python exception. */
module Outcomes {

  datatype Option<T> = None | Some(value: T)

  /** The exceptions the modelled code can raise on malformed input. */
  datatype PyError = KeyError | AttributeError | ValueError

  /** Either the value an operation returns or the exception it raises. */
  datatype Result<T> = Ok(value: T) | Err(error: PyError)
}
