/** Python-level vocabulary shared by the model: optional values, the
    exceptions the modelled code can raise, and the outcome of a call that
    either returns a value or raises. */
module Wrappers {

  /** `None` or a present value, as Python's `Optional`. */
  datatype Option<+T> = None | Some(value: T)

  /** The exceptions that can leave the modelled methods.
      `AttributeError` is calling `.encode` on `None`; `TypeError` is what
      `hmac.compare_digest` raises for a `None` or non-ASCII argument;
      `BoxAPIError` is a failed remote call carrying its HTTP status. */
  datatype Exception = AttributeError | TypeError | BoxAPIError(status: int)

  /** A Python call either returns a value or raises an exception. */
  datatype Outcome<+T> = Returned(value: T) | Raised(exception: Exception)

  /** The answer of a remote call: success with a payload, or a
      `BoxAPIError` carrying an HTTP status. */
  datatype Response<+T> = Ok(payload: T) | Err(status: int)

  /** HTTP status the remote system uses for "not found". */
  const NotFound: int := 404
  /** HTTP status the remote system uses for "already exists". */
  const Conflict: int := 409
}
