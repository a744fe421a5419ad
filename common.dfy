/** Values shared by the middleware, the schemas and the request handlers. */
module Common {

  /** A field that may be absent: `undefined` in a request body or a document. */
  datatype Option<T> = None | Some(value: T)

  /** `new HttpError(message, code)`: the error a handler passes to `next`; the
      error middleware answers with status `code` and `{ message }`. */
  datatype HttpError = HttpError(message: string, code: nat)

  /** What a handler ends with: `res.status(status).json(body)` or `next(error)`. */
  datatype Reply<T> = Ok(status: nat, body: T) | Err(error: HttpError)

  /** What an awaited collaborator gives back: a value, or the error it threw. */
  datatype Result<T> = Success(value: T) | Failure(error: HttpError)

  /** A `String` path declared `required: true` in a Mongoose schema accepts a
      value only when it is there and is not the empty string. */
  predicate Present(field: Option<string>)
  {
    field.Some? && field.value != ""
  }
}
