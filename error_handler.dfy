/**
 * The HTTP error path: `AppError` (a message, an HTTP status that defaults to 500 and
 * an optional machine-readable code) and the Express error handler that turns any
 * thrown error into a status and a JSON body `{ error: { message, code } }`.
 */
module ErrorHandler {
  import opened Common

  /** Something thrown inside a request handler. */
  datatype Failure =
    | AppError(message: string, statusCode: int, code: Option<string>)
    | OtherError(message: string)

  /** `new AppError(message, statusCode?, code?)`: an omitted status is 500. */
  function MakeAppError(message: string, statusCode: Option<int>, code: Option<string>): (e: Failure)
    ensures e.AppError? && e.message == message && e.code == code
    ensures statusCode.None? ==> e.statusCode == 500
    ensures statusCode.Some? ==> e.statusCode == statusCode.value
  {
    AppError(message, statusCode.GetOr(500), code)
  }

  /** The `error` object of the JSON body; a missing code is left out of the JSON. */
  datatype ErrorBody = ErrorBody(message: string, code: Option<string>)

  /** The HTTP answer: status and body. */
  datatype Reply = Reply(status: int, body: ErrorBody)

  /** `isDev`: NODE_ENV, defaulting to "development" when unset or empty, is "development". */
  function IsDev(nodeEnv: Option<string>): (r: bool)
    ensures r <==> nodeEnv in {None, Some(""), Some("development")}
  {
    var env := if nodeEnv.None? || nodeEnv.value == "" then "development" else nodeEnv.value;
    env == "development"
  }

  /** `errorHandler`: an AppError answers with its own status, message and code; anything
      else is a 500 INTERNAL_ERROR whose message is only revealed in development. */
  function Handle(err: Failure, isDev: bool): (r: Reply)
    ensures err.AppError? ==> r.status == err.statusCode && r.body == ErrorBody(err.message, err.code)
    ensures err.OtherError? ==> r.status == 500 && r.body.code == Some("INTERNAL_ERROR")
    ensures err.OtherError? && isDev ==> r.body.message == err.message
    ensures err.OtherError? && !isDev ==> r.body.message == "Internal server error"
  {
    match err
    case AppError(m, s, c) => Reply(s, ErrorBody(m, c))
    case OtherError(m) => Reply(500, ErrorBody(if isDev then m else "Internal server error", Some("INTERNAL_ERROR")))
  }

  /** Building an AppError and handling it gives back exactly what it was built from,
      with 500 standing in for an omitted status; development mode plays no part. */
  lemma AppErrorRoundTrip(message: string, statusCode: Option<int>, code: Option<string>, isDev: bool)
    ensures Handle(MakeAppError(message, statusCode, code), isDev)
         == Reply(statusCode.GetOr(500), ErrorBody(message, code))
    ensures Handle(MakeAppError(message, statusCode, code), isDev)
         == Handle(MakeAppError(message, statusCode, code), !isDev)
  {
  }

  /** Outside development the body of an unexpected error carries nothing from the error
      itself: two unexpected errors give the same reply. */
  lemma ProductionHidesMessages(a: Failure, b: Failure)
    requires a.OtherError? && b.OtherError?
    ensures Handle(a, false) == Handle(b, false) == Reply(500, ErrorBody("Internal server error", Some("INTERNAL_ERROR")))
  {
  }
}
