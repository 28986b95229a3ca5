/** Failure-carrying datatypes shared by the driver model. */
module Wrappers {

  /** An optional value: Go's "nil or a value" and "absent or present". */
  datatype Option<+T> = None | Some(value: T)

  /** A value or an error message, for operations that return `(T, error)`
      and never give a meaningful value alongside the error. */
  datatype Result<+T> = Ok(value: T) | Err(msg: string)
}
