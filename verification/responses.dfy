/**
 * The error side of the use cases: a ResponseErrorDomain carries a message
 * key from the use case's response table and an HTTP status code.
 */
module Responses {
  const Ok: nat := 200
  const Created: nat := 201
  const BadRequest: nat := 400
  const Unauthorized: nat := 401
  const Forbidden: nat := 403
  const NotFound: nat := 404
  const Conflict: nat := 409
  const TooManyRequests: nat := 429
  const InternalServerError: nat := 500

  datatype Failure = Failure(message: string, status: nat)
}
