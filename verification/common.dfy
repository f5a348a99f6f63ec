/** Shared wrappers for the backend and client models: optional values, the
    backend's `AppError` (a message plus an HTTP status) and a result type
    that either carries a value or such an error. */
module Common {

  datatype Option<+T> = None | Some(value: T)
  {
    function GetOr(default: T): T
    {
      match this
      case Some(v) => v
      case None => default
    }
  }

  /** An error thrown by a service and turned into an HTTP response by the
      error handler: the message the client sees and the status code. */
  datatype AppError = AppError(message: string, status: int)

  datatype Result<+T> = Ok(value: T) | Err(error: AppError)
}
