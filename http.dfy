/** The error half of every handler's response: an HTTP status with the JSON
    body `{ error, alreadySubmitted? }`, and a result that is either the
    success body or such an error. */
module Http {

  datatype ApiError = ApiError(status: nat, error: string, alreadySubmitted: bool)

  datatype Result<+T> = Ok(value: T) | Err(err: ApiError)
}
