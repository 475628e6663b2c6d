/** Failure values standing in for the exceptions the kernel throws. */
module Outcomes {

  /** The exception classes thrown by the source, plus the NaN that a 0/0 division yields. */
  datatype Error = InvalidArgument | LogicError | NotANumber

  /** The value of a call that either returns normally or throws. */
  datatype Result<T> = Ok(value: T) | Err(error: Error)

  /** The value of a call that returns nothing or throws. */
  datatype Outcome = Pass | Fail(error: Error)

  /** std::optional. */
  datatype Option<T> = None | Some(value: T)
}
