/** Failure-carrying results shared by every module of the model. */
module Wrappers {

  /** A value that may be absent: Python's `None` or a `-1` "not found" marker. */
  datatype Option<+T> = None | Some(value: T)

  /** The outcome of a step that may raise: `Err` carries the exception text. */
  datatype Result<+T> = Ok(value: T) | Err(error: string)
}
