/** Optional values and results that carry the error a caller would see. */
module Wrappers {

  datatype Option<+T> = None | Some(value: T)

  /** The error returns of the tenant store, by the reason the API machinery reports. */
  datatype Error =
    | Unauthorized
    | Forbidden
    | MethodNotSupported
    | BadRequest
    | Invalid
    | NotFound
    | AlreadyExists
    | Conflict
    | Internal
    | Panic
    | Remote(code: nat)

  datatype Result<+T> = Ok(value: T) | Err(error: Error)
}
