/**
  Optional values and the outcome of a request handler: either a value or
  the HTTP error that the handler raises.
 */
module Outcomes {

  /** A nullable column or parameter. */
  datatype Option<+T> = None | Some(value: T)

  /** The HTTP errors raised by the handlers, each with its `detail` text. */
  datatype HttpError =
    | Unauthorized(detail: string)   // 401
    | Forbidden(detail: string)      // 403
    | NotFound(detail: string)       // 404
    | BadRequest(detail: string)     // 400
    | Internal(detail: string)       // 500: an exception that nobody catches

  datatype Result<+T> = Ok(value: T) | Err(error: HttpError)
}
