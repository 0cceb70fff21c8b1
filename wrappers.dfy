/** Optional values and the outcome of a service call. */
module Wrappers {

  datatype Option<T> = None | Some(value: T)

  /** What a service operation returns: a value, or the HTTP error it raises.
      Each error carries the `detail` text the service puts in its exception. */
  datatype Result<T> =
    | Ok(value: T)
    | NotFound(detail: string)      // HTTP 404
    | Forbidden(detail: string)     // HTTP 403
    | BadRequest(detail: string)    // HTTP 400
    | ServerError(detail: string)   // an exception the service does not catch (HTTP 500)
}
