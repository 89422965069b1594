/** The error envelope every endpoint answers with: `{"error": message}` and an HTTP status. */
module Http {

  datatype ApiError =
    | BadRequest(message: string)     // 400: validation failure
    | Unauthorized(message: string)   // 401: admin token missing or wrong
    | NotFound(message: string)       // 404
    | Conflict(message: string)       // 409: phone already taken
    | ServerError(message: string)    // 500: a database statement failed

  function Status(e: ApiError): (code: int)
    ensures 400 <= code < 600
    ensures code == 500 <==> e.ServerError?
  {
    match e
    case BadRequest(_) => 400
    case Unauthorized(_) => 401
    case NotFound(_) => 404
    case Conflict(_) => 409
    case ServerError(_) => 500
  }
}
