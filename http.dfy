/** The HTTP status codes and the FastAPI `HTTPException` the sources raise and inspect. */
module Http {

  const StatusOk := 200
  const StatusUnauthorized := 401
  const StatusInternalServerError := 500

  /** `fastapi.HTTPException(status_code, detail)`. */
  datatype HttpError = HttpError(status: int, detail: string)
}
