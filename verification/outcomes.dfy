/** Failure-carrying results shared by the route handlers of the model. */
module Outcomes {

  /** A lookup result: a value, or nothing. */
  datatype Option<+T> = None | Some(value: T)

  /** The error responses the handlers raise: a 404 for a missing document, a 400 for a
      catalog name already taken, a schema validation error, and a unique-index violation
      reported by the document store. */
  datatype Failure = NotFound | AlreadyExists | Invalid | DuplicateKey

  /** What a handler responds with: a value, or one of the failures above. */
  datatype Result<+T> = Ok(value: T) | Err(error: Failure)

  /** One request against a store `S`: the store afterwards, and the response. A failed
      request may still have changed the store. */
  datatype Step<+S, +T> = Step(next: S, result: Result<T>)
}
