/** The error values the vehicle core passes between its layers, and the
    small wrappers used to return them alongside a result. */
module Errors {

  /** The three sentinel errors of the repository package. */
  datatype ErrorKind = AlreadyExists | VehiclesNotFound | VehicleNotFound

  /** A Go `error` return: `nil`, or one of the sentinel kinds. */
  datatype Outcome = Nil | Fail(kind: ErrorKind)

  /** A Go `(value, error)` pair in which the value is meaningful only when
      the error is `nil`. */
  datatype Result<+T> = Ok(value: T) | Err(kind: ErrorKind)

  datatype Option<+T> = None | Some(value: T)
}
