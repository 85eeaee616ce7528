/** Shared vocabulary: optional values, and the HTTP failures the handlers raise. */
module Common {

  datatype Option<+T> = None | Some(value: T)

  /** The HTTP statuses the modelled handlers fail with. */
  datatype Status = BadRequest | Unauthorized | NotFound | InternalError

  function StatusCode(s: Status): (code: nat)
    ensures 400 <= code < 600
    ensures code < 500 <==> !s.InternalError?
  {
    match s
    case BadRequest => 400
    case Unauthorized => 401
    case NotFound => 404
    case InternalError => 500
  }

  /** An HTTPException (or an uncaught error, reported as 500) with its detail text. */
  datatype Failure = Failure(status: Status, detail: string)

  datatype Result<+T> = Ok(value: T) | Err(failure: Failure)
}
