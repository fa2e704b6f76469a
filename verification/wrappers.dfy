/** Optional values and success-or-error results shared by every module. */
module Wrappers {

  /** A value that may be absent: JavaScript's `null`/`undefined`. */
  datatype Option<+T> = None | Some(value: T) {
    function GetOr(default: T): T {
      match this
      case Some(v) => v
      case None => default
    }
  }

  /** The outcome of a request handler: a new state, or an HTTP status code. */
  datatype Result<+R> = Ok(value: R) | Err(status: nat)

  /** The HTTP status codes the handlers answer with. */
  const BadRequest: nat := 400
  const NotFound: nat := 404
}
