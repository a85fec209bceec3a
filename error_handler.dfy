/** The Express error middleware (server/middleware/errorHandler.js): every
    error a handler passes on becomes one JSON response. A sequence of checks
    on the error's name and code each replace the pending `{ message,
    statusCode }`, so the last check that matches decides the answer. */
module ErrorHandler {
  import opened Common
  import opened Text

  /** `err.code`: absent, a MongoDB numeric code or a multer string code. */
  datatype ErrorCode = NoCode | NumericCode(n: int) | TextCode(c: string)

  /** The parts of a thrown error the middleware reads. `statusCode` is an
      enumerable `statusCode` property copied by `{ ...err }`;
      `keyValueFields` are the keys of `err.keyValue` in order and
      `fieldMessages` the messages of `err.errors` in order. */
  datatype AppError = AppError(
    name: string, code: ErrorCode, keyValueFields: seq<string>, fieldMessages: seq<string>,
    statusCode: Option<int>, message: string, stack: string)

  datatype ErrorResponse = ErrorResponse(status: int, success: bool, message: string, stack: Option<string>)

  const DuplicateKey := 11000

  /** The `{ message, statusCode }` object a matching check installs. */
  datatype Override = Override(message: string, statusCode: int)

  function DuplicateKeyMessage(fields: seq<string>): string {
    if |fields| > 0 && fields[0] == "email" then "Email address is already registered"
    else if |fields| > 0 && fields[0] == "licenseNumber" then "License number is already registered"
    else "Duplicate field value entered"
  }

  /** The check that decides the answer. Every check overwrites what the
      earlier ones installed, so the deciding one is the first match when the
      checks are read from the last to the first. */
  function Winner(err: AppError): Option<Override> {
    if err.name == "MongoNetworkError" then Some(Override("Database connection error", ServerError))
    else if err.code == TextCode("LIMIT_FILE_COUNT") then Some(Override("Too many files uploaded", BadRequest))
    else if err.code == TextCode("LIMIT_FILE_SIZE") then Some(Override("File size too large", BadRequest))
    else if err.name == "TokenExpiredError" then Some(Override("Token expired", Unauthorized))
    else if err.name == "JsonWebTokenError" then Some(Override("Invalid token", Unauthorized))
    else if err.name == "ValidationError" then Some(Override(Join(err.fieldMessages, ", "), BadRequest))
    else if err.code == NumericCode(DuplicateKey) then Some(Override(DuplicateKeyMessage(err.keyValueFields), BadRequest))
    else if err.name == "CastError" then Some(Override("Resource not found", NotFound))
    else None
  }

  /** `error.statusCode || 500` and `error.message || 'Server Error'`. */
  function Respond(statusCode: Option<int>, message: string, err: AppError, development: bool): ErrorResponse {
    ErrorResponse(
      if statusCode.Some? && statusCode.value != 0 then statusCode.value else ServerError,
      false,
      if message != "" then message else "Server Error",
      if development then Some(err.stack) else None)
  }

  /** What the middleware answers: the last matching check's override, or the
      error's own status code and message when no check matches. */
  function Expected(err: AppError, development: bool): ErrorResponse {
    match Winner(err)
    case Some(o) => Respond(Some(o.statusCode), o.message, err, development)
    case None => Respond(err.statusCode, err.message, err, development)
  }

  /** `errorHandler`, check by check. */
  method HandleError(err: AppError, development: bool) returns (r: ErrorResponse)
    ensures r == Expected(err, development)
    ensures !r.success
    ensures r.stack.Some? <==> development
  {
    var statusCode := err.statusCode;
    var message := err.message;
    if err.name == "CastError" {
      message, statusCode := "Resource not found", Some(NotFound);
    }
    if err.code == NumericCode(DuplicateKey) {
      var m := "Duplicate field value entered";
      var fields := err.keyValueFields;
      if |fields| > 0 && fields[0] == "email" {
        m := "Email address is already registered";
      } else if |fields| > 0 && fields[0] == "licenseNumber" {
        m := "License number is already registered";
      }
      message, statusCode := m, Some(BadRequest);
    }
    if err.name == "ValidationError" {
      message, statusCode := Join(err.fieldMessages, ", "), Some(BadRequest);
    }
    if err.name == "JsonWebTokenError" {
      message, statusCode := "Invalid token", Some(Unauthorized);
    }
    if err.name == "TokenExpiredError" {
      message, statusCode := "Token expired", Some(Unauthorized);
    }
    if err.code == TextCode("LIMIT_FILE_SIZE") {
      message, statusCode := "File size too large", Some(BadRequest);
    }
    if err.code == TextCode("LIMIT_FILE_COUNT") {
      message, statusCode := "Too many files uploaded", Some(BadRequest);
    }
    if err.name == "MongoNetworkError" {
      message, statusCode := "Database connection error", Some(ServerError);
    }
    r := Respond(statusCode, message, err, development);
  }

  /** An error of a name no check knows and with no recognised code keeps its
      own status (500 when it has none) and message ("Server Error" when empty). */
  lemma UnrecognisedErrorFallsBack(err: AppError, development: bool)
    requires err.name !in ["CastError", "ValidationError", "JsonWebTokenError", "TokenExpiredError", "MongoNetworkError"]
    requires err.code !in [NumericCode(DuplicateKey), TextCode("LIMIT_FILE_SIZE"), TextCode("LIMIT_FILE_COUNT")]
    ensures Expected(err, development).status == (if err.statusCode.Some? && err.statusCode.value != 0 then err.statusCode.value else 500)
    ensures Expected(err, development).message == (if err.message != "" then err.message else "Server Error")
  {
  }

  /** A malformed object id is a 404 unless a code-based check overrides it. */
  lemma CastErrorIsNotFound(err: AppError, development: bool)
    requires err.name == "CastError"
    requires err.code !in [NumericCode(DuplicateKey), TextCode("LIMIT_FILE_SIZE"), TextCode("LIMIT_FILE_COUNT")]
    ensures Expected(err, development).status == 404
    ensures Expected(err, development).message == "Resource not found"
  {
  }

  /** A duplicate key is a 400 naming the first duplicated field when it is the
      e-mail address or the licence number. */
  lemma DuplicateKeyIsBadRequest(err: AppError, development: bool)
    requires err.code == NumericCode(DuplicateKey)
    requires err.name !in ["ValidationError", "JsonWebTokenError", "TokenExpiredError", "MongoNetworkError"]
    ensures Expected(err, development).status == 400
    ensures |err.keyValueFields| > 0 && err.keyValueFields[0] == "email" ==>
              Expected(err, development).message == "Email address is already registered"
    ensures |err.keyValueFields| > 0 && err.keyValueFields[0] == "licenseNumber" ==>
              Expected(err, development).message == "License number is already registered"
  {
  }

  /** A validation error is a 400 listing every field message, comma-separated;
      with no field messages the generic message is used. */
  lemma ValidationErrorJoinsMessages(err: AppError, development: bool)
    requires err.name == "ValidationError"
    requires err.code !in [TextCode("LIMIT_FILE_SIZE"), TextCode("LIMIT_FILE_COUNT")]
    ensures Expected(err, development).status == 400
    ensures Expected(err, development).message ==
              (if Join(err.fieldMessages, ", ") != "" then Join(err.fieldMessages, ", ") else "Server Error")
  {
  }

  /** Token failures are a 401 with their own message. */
  lemma TokenErrorsAreUnauthorized(err: AppError, development: bool)
    requires err.name == "JsonWebTokenError" || err.name == "TokenExpiredError"
    requires err.code !in [TextCode("LIMIT_FILE_SIZE"), TextCode("LIMIT_FILE_COUNT")]
    ensures Expected(err, development).status == 401
    ensures Expected(err, development).message == (if err.name == "JsonWebTokenError" then "Invalid token" else "Token expired")
  {
  }

  /** Upload limits are a 400. */
  lemma UploadLimitsAreBadRequest(err: AppError, development: bool)
    requires err.code == TextCode("LIMIT_FILE_SIZE") || err.code == TextCode("LIMIT_FILE_COUNT")
    requires err.name != "MongoNetworkError"
    ensures Expected(err, development).status == 400
    ensures Expected(err, development).message ==
              (if err.code == TextCode("LIMIT_FILE_SIZE") then "File size too large" else "Too many files uploaded")
  {
  }
}
