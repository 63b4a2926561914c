/** HTTP status codes and the shape of a handler's result. */
module Http {

  const OK: int := 200
  const CREATED: int := 201
  const BAD_REQUEST: int := 400
  const UNAUTHORIZED: int := 401
  const FORBIDDEN: int := 403
  const NOT_FOUND: int := 404
  const CONFLICT: int := 409
  const SERVER_ERROR: int := 500

  /** What one request did: the status Flask answers with, the store after
      the request, and whether the view function raised (an `abort`, a
      marshmallow `ValidationError`, an `AttributeError`) instead of
      returning. A raised view is invisible to the audit decorator. */
  datatype Reply<S> = Reply(status: int, state: S, raised: bool)

  /** A normal return. */
  function Returned<S>(status: int, state: S): Reply<S> {
    Reply(status, state, false)
  }

  /** An exception turned into an error status; nothing was committed. */
  function Raised<S>(status: int, state: S): Reply<S> {
    Reply(status, state, true)
  }
}
