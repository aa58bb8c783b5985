/** Option and Result values, used for nullable fields and for the error paths
    of the routers (HTTPException) and of the form handlers (toast errors). */
module Wrappers {

  datatype Option<+T> = None | Some(value: T)

  datatype Result<+T, +E> = Ok(value: T) | Err(error: E)

  /** An HTTPException raised by a FastAPI router: a status code and a detail message. */
  datatype HttpError = HttpError(code: int, detail: string)

  type Response<+T> = Result<T, HttpError>
}
