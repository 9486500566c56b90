/** Option and result types used for Python's `None`, for exceptions and for error returns. */
module Wrappers {

  /** A value that may be absent, as Python's `dict.get` returning `None`. */
  datatype Option<+T> = None | Some(value: T)

  /** A computed value, or the text of the exception that stopped the computation. */
  datatype Result<+T> = Ok(value: T) | Err(error: string)

  /** A side effect that either happened or raised an exception with the given text. */
  datatype Outcome = Pass | Fail(error: string)
}
