/** The exceptions the modelled functions raise, and a result type that carries
    either a value or the exception that was raised instead. */
module Failures {

  /** The Python exception classes that the modelled code can raise. */
  datatype Error =
    | ValueError(message: string)
    | IndexError
    | ZeroDivisionError

  /** Either the value a call returns or the exception it raises. */
  datatype Result<+T> = Ok(value: T) | Err(error: Error)
}
