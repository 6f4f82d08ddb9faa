/** Failure-compatible result types and the HTTP errors the handlers raise. */
module Wrappers {

  datatype Option<+T> = None | Some(value: T)

  datatype Result<+T, +E> = Ok(value: T) | Err(error: E) {
    predicate IsFailure() { Err? }

    function PropagateFailure<U>(): Result<U, E>
      requires Err?
    {
      Err(error)
    }

    function Extract(): T
      requires Ok?
    {
      value
    }
  }
}

/** The `HTTPException`s of the handlers, and the 500 that an uncaught Python exception becomes. */
module Http {

  datatype HttpError = HttpError(status: int, detail: string)

  const BadRequest := 400
  const Unauthorized := 401
  const Forbidden := 403
  const NotFound := 404
  const Unprocessable := 422
  const InternalError := 500

  /** An exception the handler does not catch (KeyError, AttributeError, ValueError, a store error). */
  const ServerError := HttpError(InternalError, "Internal Server Error")
}
