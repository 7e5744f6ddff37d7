/** Optional values and results that carry the Python exception a call raises. */
module Wrappers {

  datatype Option<+T> = None | Some(value: T)

  /** The exceptions the modelled code raises, by Python class name. */
  datatype Exception =
    | ValueError(message: string)
    | GradeBinsError(message: string)
    | ZeroDivisionError
    | TypeError(message: string)
    | AttributeError(message: string)

  /** The value a call returns, or the exception it raises. */
  datatype Result<+T> = Ok(value: T) | Err(error: Exception)

  /** A call that returns nothing, or raises. */
  datatype Outcome = Pass | Fail(error: Exception)
}
