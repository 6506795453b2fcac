/** Failure-carrying wrappers shared by the reader and the evaluator. */
module Wrappers {

  datatype Option<+T> = None | Some(value: T)

  /** The outcome of a stage that can raise: a value, or the error it raised. */
  datatype Result<+T, +E> = Ok(value: T) | Err(error: E)
}
