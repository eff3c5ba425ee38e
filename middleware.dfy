/**
 * The backend's error type, its central error handler and the bearer-token
 * guard that protected routes run first.
 */
module Middleware {
  import opened Wrappers
  import JsText

  /** `class AppError extends Error { message; statusCode = 500 }`. */
  datatype AppError = AppError(message: string, statusCode: int)

  /** `new AppError(message)` or `new AppError(message, statusCode)`. */
  function NewAppError(message: string, statusCode: Option<int>): (e: AppError)
    ensures e.message == message
    ensures statusCode.None? ==> e.statusCode == 500
    ensures statusCode.Some? ==> e.statusCode == statusCode.value
  {
    AppError(message, if statusCode.Some? then statusCode.value else 500)
  }

  /**
   * What a handler passes to `next(error)`: an `AppError`, or any other thrown
   * value, of which the handler looks only at `name` (and, for a zod error,
   * the list of field errors).
   */
  datatype Thrown =
    | App(error: AppError)
    | Named(name: string, issues: seq<string>)

  /** The result of a handler: its data, or what it threw. */
  datatype Outcome<+T> = Ok(value: T) | Fail(thrown: Thrown)

  /** The JSON error envelope `errorHandler` sends, with its HTTP status. */
  datatype ErrorReply = ErrorReply(status: int, success: bool, message: string, errors: Option<seq<string>>)

  const ZodErrorName := "ZodError"

  /** The store refusing a query argument, such as a negative `skip`. */
  const StoreValidationError := Named("PrismaClientValidationError", [])

  /** The store refusing a write, such as a foreign key that names no row. */
  const StoreConstraintError := Named("PrismaClientKnownRequestError", [])

  /** `errorHandler`: a three-way case split on what was thrown. */
  function ErrorHandler(t: Thrown): (r: ErrorReply)
    ensures !r.success
    ensures t.App? ==> r == ErrorReply(t.error.statusCode, false, t.error.message, None)
    ensures t.Named? && t.name == ZodErrorName ==> r == ErrorReply(400, false, "Validation error", Some(t.issues))
    ensures t.Named? && t.name != ZodErrorName ==> r == ErrorReply(500, false, "Server error", None)
  {
    match t
    case App(e) => ErrorReply(e.statusCode, false, e.message, None)
    case Named(name, issues) =>
      if name == ZodErrorName then ErrorReply(400, false, "Validation error", Some(issues))
      else ErrorReply(500, false, "Server error", None)
  }

  /** An unexpected failure tells the caller nothing about itself. */
  lemma ServerErrorsLookAlike(t1: Thrown, t2: Thrown)
    requires t1.Named? && t1.name != ZodErrorName
    requires t2.Named? && t2.name != ZodErrorName
    ensures ErrorHandler(t1) == ErrorHandler(t2)
  {
  }

  /**
   * `req.headers.authorization?.split(' ')[1]`, kept only when truthy: the
   * second space-separated piece of the header, whatever the first piece is.
   */
  function BearerToken(authorization: Option<string>): (token: Option<string>)
    ensures token.Some? <==>
              && authorization.Some?
              && |JsText.Split(authorization.value, ' ')| >= 2
              && JsText.Split(authorization.value, ' ')[1] != []
    ensures token.Some? ==> token.value == JsText.Split(authorization.value, ' ')[1]
    ensures token.Some? ==> token.value != [] && ' ' !in token.value
  {
    if authorization.None? then None
    else
      var parts := JsText.Split(authorization.value, ' ');
      JsText.SplitPiecesFree(authorization.value, ' ');
      if |parts| < 2 || parts[1] == [] then None else Some(parts[1])
  }

  /** `Bearer <token>` yields the token; so does any other one-word scheme. */
  lemma BearerTokenOfHeader(scheme: string, token: string)
    requires ' ' !in scheme && ' ' !in token && token != []
    ensures BearerToken(Some(scheme + " " + token)) == Some(token)
  {
    JsText.SplitJoin([scheme, token], ' ');
    assert JsText.Join([scheme, token], ' ') == scheme + " " + token;
  }

  /** Whatever follows the token after a further space is ignored. */
  lemma BearerTokenIgnoresTail(scheme: string, token: string, rest: string)
    requires ' ' !in scheme && ' ' !in token && token != []
    ensures BearerToken(Some(scheme + " " + token + " " + rest)) == Some(token)
  {
    JsText.SplitOfFree(token, ' ', rest, true);
    JsText.SplitOfFree(scheme, ' ', token + [' '] + rest, true);
    assert scheme + " " + token + " " + rest == scheme + [' '] + (token + [' '] + rest);
  }

  /** A header with a scheme and no token carries none. */
  lemma NoTokenAfterScheme(scheme: string)
    requires ' ' !in scheme
    ensures BearerToken(Some(scheme)) == None
    ensures BearerToken(Some(scheme + " ")) == None
  {
    JsText.SplitJoin([scheme], ' ');
    JsText.SplitJoin([scheme, []], ' ');
    assert JsText.Join([scheme, []], ' ') == scheme + " ";
  }

  const TokenInvalid := AppError("Token invalid", 401)

  /** The request object the guard writes the caller's id into. */
  class AuthRequest {
    const authorization: Option<string>
    var userId: Option<string>

    constructor (authorization: Option<string>)
      ensures this.authorization == authorization && userId == None
    {
      this.authorization := authorization;
      userId := None;
    }
  }

  /**
   * `authMiddleware`. `verify` stands for `jwt.verify` followed by reading the
   * `userId` claim; `None` means verification threw. The result is the
   * argument given to `next`: `None` for `next()`, else the error. A missing
   * token throws inside the `try`, so it ends as the same `Token invalid`.
   */
  method AuthMiddleware(req: AuthRequest, verify: string -> Option<string>) returns (next: Option<AppError>)
    modifies req
    ensures next.None? <==> BearerToken(req.authorization).Some? && verify(BearerToken(req.authorization).value).Some?
    ensures next.None? ==> req.userId == verify(BearerToken(req.authorization).value)
    ensures next.Some? ==> next == Some(TokenInvalid) && req.userId == old(req.userId)
  {
    var token := BearerToken(req.authorization);
    if token.None? {
      return Some(TokenInvalid);
    }
    var decoded := verify(token.value);
    if decoded.None? {
      return Some(TokenInvalid);
    }
    req.userId := decoded;
    return None;
  }
}
