/** Option and Result values standing in for Python's `None` and for the
    exceptions the modelled code raises. */
module Wrappers {

  datatype Option<+T> = None | Some(value: T)

  /** The Python exceptions that the modelled code can raise. */
  datatype Failure =
    | KeyError
    | IndexError
    | ZeroDivisionError
    | FileNotFound(path: string)
    | NotADirectory(path: string)
    | IsADirectory(path: string)

  datatype Result<+T> = Ok(value: T) | Err(error: Failure)
}
