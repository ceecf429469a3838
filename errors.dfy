/**
 * Python exceptions as values, and what a FastAPI endpoint answers.
 */
module Errors {
  import opened PyStr

  datatype Exception =
    /** FastAPI's HTTPException(status_code, detail). */
    | HTTPException(status: nat, detail: string)
    /**
     * Any other exception, by its `str()`. For exceptions raised by Python
     * built-ins on malformed data (TypeError, AttributeError,
     * JSONDecodeError) the model carries the class name only.
     */
    | Raised(message: string)

  /** `str(e)`; an HTTPException prints as "<status>: <detail>". */
  function Str(e: Exception): (r: string)
    ensures e.Raised? ==> r == e.message
    ensures e.HTTPException? ==> EndsWith(r, ": " + e.detail)
  {
    match e
    case HTTPException(status, detail) => NatToString(status) + ": " + detail
    case Raised(message) => message
  }

  /** The answer of an endpoint: a JSON body, or an HTTP error status with its detail. */
  datatype Response<+T> = Ok(body: T) | HttpError(status: nat, detail: string)

  /**
   * What `except Exception as e: raise HTTPException(status_code=500,
   * detail=f"{prefix}{str(e)}")` makes of any exception, including an
   * HTTPException raised earlier in the same `try`.
   */
  function Rewrapped<T>(prefix: string, e: Exception): (r: Response<T>)
    ensures r.HttpError? && r.status == 500
    ensures StartsWith(r.detail, prefix)
  {
    ConcatStartsWith(prefix, Str(e));
    HttpError(500, prefix + Str(e))
  }
}
