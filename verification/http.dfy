/** The results the minimal-API endpoints return. */
module Http {
  /** `Results.Ok`, `Results.BadRequest` and `Results.Problem` (status 500). */
  datatype HttpResult<T> = Ok(value: T) | BadRequest(message: string) | Problem(detail: string)
}
