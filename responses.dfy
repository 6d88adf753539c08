/** Outcomes of the request handlers: a value, or an HTTP error status with its detail text. */
module Responses {

  /** A handler either returns a value or raises an HTTP error with a status code and a detail message. */
  datatype Response<T> = Ok(value: T) | Err(status: int, detail: string)

  /** An optional value. */
  datatype Option<T> = None | Some(value: T)

  /** HTTP 400: a semantically invalid value (negative calories). */
  const BadRequest: int := 400

  /** HTTP 404: a referenced activity or ingredient does not exist. */
  const NotFound: int := 404
}
