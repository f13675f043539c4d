/** Identifiers, optional values and the error results every handler of the
    backend answers with (the HTTP status is carried by the constructor). */
module Common {

  /** A document id (a MongoDB ObjectId); fresh ids come from a counter. */
  type Id = nat

  datatype Option<T> = None | Some(value: T)

  /** The error responses of the handlers, one constructor per HTTP status. */
  datatype Error =
    | BadRequest(message: string)    // 400: a guard on the input or on the lifecycle stage failed
    | Unauthorized(message: string)  // 401: bad credentials
    | Forbidden(message: string)     // 403: wrong role or not the owner
    | NotFound(message: string)      // 404: the addressed document does not exist
    | ServerError(message: string)   // 500: a schema validation error or a duplicate key, caught and reported
  {
    function StatusCode(): (code: int)
      ensures BadRequest? <==> code == 400
      ensures Unauthorized? <==> code == 401
      ensures Forbidden? <==> code == 403
      ensures NotFound? <==> code == 404
      ensures ServerError? <==> code == 500
    {
      match this
      case BadRequest(_) => 400
      case Unauthorized(_) => 401
      case Forbidden(_) => 403
      case NotFound(_) => 404
      case ServerError(_) => 500
    }
  }

  datatype Result<T> = Ok(value: T) | Err(error: Error)

  /** A query answer: `count` is the number of documents in `data`. */
  datatype Listing<T> = Listing(count: nat, data: map<Id, T>)

  /** The message a Mongoose validation error reports; its text is the library's. */
  const ValidationFailed := "validation failed"

  /** Messages several handlers answer with. */
  const FoodNotFound := "Food not found"
  const FoodNotAvailable := "Food not available"
  const RequestNotFound := "Request not found"
  const NotAuthorized := "Not authorized"
  const OnlyReceivers := "Only receivers can request food"
  const AlreadySent := "Request already sent"
}
