/** Failure-carrying results shared by the modules of the model. */
module Wrappers {

  /** Python's `None` or a present value. */
  datatype Option<+T> = None | Some(value: T)

  /** The outcome of an operation that may raise: `Ok(v)` or the exception it raised. */
  datatype Result<+T> = Ok(value: T) | Raised(error: Exception)

  /** The Python exceptions the modelled code can raise. */
  datatype Exception =
    | ValueError   // float() on a string that is not a number; PCHIP with mismatched lengths
    | IndexError   // a list subscript past the end
}
