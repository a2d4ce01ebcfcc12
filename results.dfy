// Option and Result wrappers shared by every module of the model.
// `Err` carries the Python exception class the source raises.
module Results {

  datatype Option<T> = None | Some(value: T)

  /** The exception classes the modelled code raises on purpose. */
  datatype PyError =
    | KeyError
    | ValueError(message: string)
    | TypeError(message: string)
    | IndexError
    | AttributeError
    | NotImplementedError
    | StructError

  datatype Result<T> = Ok(value: T) | Err(error: PyError)
}
