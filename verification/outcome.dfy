/** Outcomes of the account controllers: an optional value, the error taxonomy
    the controllers answer with, and the result wrapper that carries either. */
module Outcome {

  /** A value that may be absent; stands for JavaScript's `null`. */
  datatype Option<+T> = None | Some(value: T)

  /** The ways a controller call can fail, one per family of HTTP replies. */
  datatype Error =
    | ValidationError   // 400: a request schema rejected the body or the filename
    | Conflict          // 409: the email is already in use
    | NotFound          // 404: no account holds the email or verification token
    | AlreadyVerified   // 400: re-verification of an account that is verified
    | Unauthorized      // 401: login refused
    | Internal          // handed on with `next(e)`: a library or storage call threw

  /** Either the value a controller answers with, or the error it fails with. */
  datatype Result<+T> = Ok(value: T) | Fail(error: Error)
}
