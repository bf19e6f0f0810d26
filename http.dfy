/**
 * The values that cross the Express boundary: JSON bodies, the error objects
 * handed to `next`, and what a handler does with a request (answer it, or
 * pass an error on).
 */
module Http {
  import opened Wrappers

  /** A JSON value, as `res.json` serialises it. */
  datatype Json = JNull | JNum(n: int) | JStr(s: string) | JObj(fields: map<string, Json>)

  /**
   * A JavaScript error object: its `name`, `message`, the HTTP `status` that
   * `http-errors` attaches, the driver's `code`, and the `cause` the register
   * handler attaches. A missing property is `None`.
   */
  datatype Error = Error(name: string, message: string, status: Option<int>, code: Option<int>, cause: Option<Error>)

  /** The statuses the handlers create with `createError`. */
  datatype HttpStatus = BadRequest | Unauthorized | Conflict | InternalServerError {

    function Code(): int {
      match this
      case BadRequest => 400
      case Unauthorized => 401
      case Conflict => 409
      case InternalServerError => 500
    }

    /** The standard reason phrase, which `createError` uses as the message. */
    function ReasonPhrase(): string {
      match this
      case BadRequest => "Bad Request"
      case Unauthorized => "Unauthorized"
      case Conflict => "Conflict"
      case InternalServerError => "Internal Server Error"
    }

    function ErrorName(): string {
      match this
      case BadRequest => "BadRequestError"
      case Unauthorized => "UnauthorizedError"
      case Conflict => "ConflictError"
      case InternalServerError => "InternalServerError"
    }
  }

  /** `createError(status)` from `http-errors`. */
  function CreateError(s: HttpStatus): Error {
    Error(s.ErrorName(), s.ReasonPhrase(), Some(s.Code()), None, None)
  }

  /** A plain `new Error(message)`. */
  function PlainError(message: string): Error {
    Error("Error", message, None, None, None)
  }

  /** What a response carries: nothing (`res.end()`) or a JSON body (`res.json(...)`). */
  datatype Body = NoBody | JsonBody(json: Json)

  /** What a handler does: answer with a status and body, or call `next(err)`. */
  datatype Outcome = Respond(status: int, body: Body) | Next(err: Error)
}
