/** The error a route answers with: FastAPI's `HTTPException(status_code, detail)`. */
module Http {
  datatype HttpError = HttpError(status: int, detail: string)
}
