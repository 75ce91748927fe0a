/** The two exception handlers (app_python/app.py, lines 78-97): every error
    that escapes a route becomes one JSON response `{error, message}`. */
module ErrorHandlers {

  /** What can escape a route: an HTTP exception raised by the framework or a
      route (404 for a path no route matches), or any other exception. */
  datatype Fault =
    | HttpFault(statusCode: int, detail: string)
    | Unhandled(description: string)

  datatype ErrorBody = ErrorBody(error: string, message: string)

  datatype ErrorResponse = ErrorResponse(statusCode: int, body: ErrorBody)

  const NOT_FOUND_BODY := ErrorBody("Not Found", "Endpoint does not exist")
  const INTERNAL_ERROR_BODY := ErrorBody("Internal Server Error", "An unexpected error occurred")

  /** `http_exception_handler`. */
  function HttpExceptionHandler(statusCode: int, detail: string): (r: ErrorResponse)
    ensures r.statusCode == statusCode
    ensures statusCode == 404 ==> r.body == NOT_FOUND_BODY
    ensures statusCode != 404 ==> r.body.error == "HTTP Error" && r.body.message == detail
  {
    if statusCode == 404 then ErrorResponse(404, NOT_FOUND_BODY)
    else ErrorResponse(statusCode, ErrorBody("HTTP Error", detail))
  }

  /** `unhandled_exception_handler`; the description goes only to the log. */
  function UnhandledExceptionHandler(description: string): (r: ErrorResponse)
    ensures r.statusCode == 500 && r.body == INTERNAL_ERROR_BODY
  {
    ErrorResponse(500, INTERNAL_ERROR_BODY)
  }

  /** The handler the framework dispatches each fault to. An HTTP error keeps
      its status code, even one of 500: only an unhandled exception is forced
      to 500, and its description never reaches the client. */
  function Handle(f: Fault): (r: ErrorResponse)
    ensures f.HttpFault? ==> r == HttpExceptionHandler(f.statusCode, f.detail)
    ensures f.Unhandled? ==> r == UnhandledExceptionHandler(f.description)
    ensures f.HttpFault? ==> r.statusCode == f.statusCode
    ensures f.Unhandled? ==> r == ErrorResponse(500, INTERNAL_ERROR_BODY)
  {
    match f
    case HttpFault(code, detail) => HttpExceptionHandler(code, detail)
    case Unhandled(description) => UnhandledExceptionHandler(description)
  }

  /** A 404 always gets the fixed not-found body, whatever its detail. */
  lemma NotFoundIgnoresDetail(d1: string, d2: string)
    ensures Handle(HttpFault(404, d1)) == Handle(HttpFault(404, d2))
      == ErrorResponse(404, NOT_FOUND_BODY)
  {
  }

  /** No part of an unhandled exception reaches the client. */
  lemma UnhandledLeaksNothing(d1: string, d2: string)
    ensures Handle(Unhandled(d1)) == Handle(Unhandled(d2)) == ErrorResponse(500, INTERNAL_ERROR_BODY)
  {
  }

  /** The `error` label tells the three kinds of fault apart. */
  lemma ErrorLabelIdentifiesKind(f: Fault)
    ensures Handle(f).body.error == "Not Found" <==> f.HttpFault? && f.statusCode == 404
    ensures Handle(f).body.error == "HTTP Error" <==> f.HttpFault? && f.statusCode != 404
    ensures Handle(f).body.error == "Internal Server Error" <==> f.Unhandled?
  {
  }

  /** Any other HTTP error is passed through: its response determines the
      status and the detail, so no two such errors share a response. */
  lemma HttpErrorPassThrough(f: Fault, g: Fault)
    requires f.HttpFault? && f.statusCode != 404
    requires g.HttpFault? && g.statusCode != 404
    ensures Handle(f) == Handle(g) <==> f == g
  {
  }
}
