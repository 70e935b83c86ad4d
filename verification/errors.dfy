/** Error values and their mapping to HTTP responses (src/middleware/errors.ts). */
module Errors {
  import opened Wrappers
  import Json

  /** A thrown error. `httpError` sets a status and possibly a code; a plain `new Error(m)` has neither. */
  datatype Err = Err(status: Option<int>, message: string, code: Option<string>)

  /** An HTTP response: its status and JSON body. */
  datatype Response = Response(status: int, body: Json.Value)

  /** `httpError(status, message, code?)`: the code is attached only when one is given. */
  function HttpError(status: int, message: string, code: Option<string> := None): (e: Err)
    ensures e.status == Some(status) && e.message == message
    ensures e.code.Some? <==> code.Some? && code.value != ""
    ensures e.code.Some? ==> e.code == code
  {
    Err(Some(status), message, if code.Some? && code.value != "" then code else None)
  }

  /** `new Error(message)`: no status and no code. */
  function PlainError(message: string): Err
  {
    Err(None, message, None)
  }

  const Unauthorized: Err := HttpError(401, "Unauthorized")
  const Forbidden: Err := HttpError(403, "Forbidden")

  /** `notFound`: every unmatched request gets 404 with its path. */
  function NotFound(path: string): (r: Response)
    ensures r.status == 404
    ensures r.body == Json.Obj([("error", Json.Str("Not Found")), ("path", Json.Str(path))])
  {
    Response(404, Json.Obj([("error", Json.Str("Not Found")), ("path", Json.Str(path))]))
  }

  /** `errorHandler`: status, code and message fall back to 500, "error" and "Server Error". */
  function ErrorResponse(err: Err): (r: Response)
    ensures err.status.Some? && err.status.value != 0 ==> r.status == err.status.value
    ensures err.status.None? || err.status.value == 0 ==> r.status == 500
    ensures exists msg: string, code: string ::
              r.body == Json.Obj([("error", Json.Str(msg)), ("code", Json.Str(code))])
              && (msg == if err.message != "" then err.message else "Server Error")
              && (code == if err.code.Some? && err.code.value != "" then err.code.value else "error")
  {
    var status := if err.status.Some? && err.status.value != 0 then err.status.value else 500;
    var code := if err.code.Some? && err.code.value != "" then err.code.value else "error";
    var msg := if err.message != "" then err.message else "Server Error";
    Response(status, Json.Obj([("error", Json.Str(msg)), ("code", Json.Str(code))]))
  }

  /** An error made by `httpError` reaches the client with its own status, message and code. */
  lemma HttpErrorRoundTrip(status: int, message: string, code: string)
    requires status != 0 && message != "" && code != ""
    ensures ErrorResponse(HttpError(status, message, Some(code)))
            == Response(status, Json.Obj([("error", Json.Str(message)), ("code", Json.Str(code))]))
    ensures ErrorResponse(HttpError(status, message))
            == Response(status, Json.Obj([("error", Json.Str(message)), ("code", Json.Str("error"))]))
  {
  }
}
