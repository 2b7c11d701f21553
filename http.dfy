/** HTTP outcomes of the API: a handler either returns a value or raises an `HTTPException`
    with a status code and a detail text. */
module Http {

  datatype HttpError = HttpError(status: nat, detail: string)

  datatype Result<+T> = Ok(value: T) | Err(error: HttpError) {
    predicate IsStatus(code: nat) {
      Err? && error.status == code
    }
  }

  const CREATED: nat := 201
  const NO_CONTENT: nat := 204
  const BAD_REQUEST: nat := 400
  const UNAUTHORIZED: nat := 401
  const FORBIDDEN: nat := 403
  const NOT_FOUND: nat := 404
  const UNPROCESSABLE: nat := 422
  const SERVER_ERROR: nat := 500

  /** The body a successful request produces, with its status code
      (204 carries no body). */
  datatype Reply<+T> = Body(code: nat, body: T) | NoContent
}
