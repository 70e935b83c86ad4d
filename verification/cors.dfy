/** The origin allow-list (src/middleware/strictCors.ts) for HTTP requests and websocket upgrades. */
module Cors {
  import opened Wrappers
  import Json
  import opened Errors

  /** `ALLOW`: the only origins the backend answers. */
  const Allow: set<string> := {"https://opslinkcad.com", "https://safe.opslinksystems.xyz"}

  /** An `Origin` header as Node hands it over: missing, one value, or an array of values. */
  datatype OriginHeader = Absent | One(value: string) | Many(values: seq<string>)

  /** `wsOriginAllowed`: only the first value of an array counts; a missing or empty origin is refused. */
  function WsOriginAllowed(origin: OriginHeader): (ok: bool)
    ensures origin.Absent? ==> !ok
    ensures origin.One? ==> (ok <==> origin.value in Allow)
    ensures origin.Many? ==> (ok <==> |origin.values| > 0 && origin.values[0] in Allow)
  {
    var o: Option<string> := match origin
      case Absent => None
      case One(v) => Some(v)
      case Many(vs) => if |vs| > 0 then Some(vs[0]) else None;
    if o.None? || o.value == "" then false else o.value in Allow
  }

  /** The empty-origin test is subsumed by the allow-list: every allowed origin is non-empty. */
  lemma AllowedOriginsNonEmpty(origin: OriginHeader)
    ensures WsOriginAllowed(origin) ==> origin != One("") && (origin.Many? ==> origin.values[0] != "")
    ensures "" !in Allow
  {
  }

  const AllowHeaders: string := "Content-Type, Authorization, X-Community-Id, X-Request-Id"
  const AllowMethods: string := "GET,POST,PUT,PATCH,DELETE,OPTIONS"

  /** The five headers an allowed origin receives, echoing the origin itself. */
  function CorsHeaders(origin: string): (h: map<string, string>)
    ensures h.Keys == {"Access-Control-Allow-Origin", "Vary", "Access-Control-Allow-Credentials",
                       "Access-Control-Allow-Headers", "Access-Control-Allow-Methods"}
    ensures h["Access-Control-Allow-Origin"] == origin && h["Access-Control-Allow-Credentials"] == "true"
    ensures h["Vary"] == "Origin"
  {
    map["Access-Control-Allow-Origin" := origin,
        "Vary" := "Origin",
        "Access-Control-Allow-Credentials" := "true",
        "Access-Control-Allow-Headers" := AllowHeaders,
        "Access-Control-Allow-Methods" := AllowMethods]
  }

  /** How `strictCors` ends: a 403 answer, a 204 preflight answer, or `next()`; each with the headers set. */
  datatype CorsOutcome =
    | Refuse(response: Response)
    | NoContent(headers: map<string, string>)
    | Pass(headers: map<string, string>)

  const OriginRefused: Response := Response(403, Json.Obj([("error", Json.Str("Origin not allowed"))]))

  /** `strictCors` on a request with origin header `origin` (None when missing) and method `httpMethod`. */
  function StrictCors(origin: Option<string>, httpMethod: string): (r: CorsOutcome)
    ensures r.Refuse? <==> origin.Some? && origin.value != "" && origin.value !in Allow
    ensures r.Refuse? ==> r.response == OriginRefused
    ensures r.NoContent? <==> !r.Refuse? && httpMethod == "OPTIONS"
    ensures !r.Refuse? && (origin.None? || origin.value == "") ==> r.headers == map[]
    ensures !r.Refuse? && origin.Some? && origin.value != "" ==> r.headers == CorsHeaders(origin.value)
  {
    if origin.Some? && origin.value != "" && origin.value !in Allow then Refuse(OriginRefused)
    else
      var headers := if origin.Some? && origin.value != "" then CorsHeaders(origin.value) else map[];
      if httpMethod == "OPTIONS" then NoContent(headers) else Pass(headers)
  }

  /**
   * The HTTP gate and the websocket gate agree on single-valued origins: a request carrying an
   * origin gets CORS headers exactly when a websocket upgrade from that origin is allowed, and
   * an allowed origin is echoed with credentials.
   */
  lemma GatesAgree(origin: string, httpMethod: string)
    requires origin != ""
    ensures !StrictCors(Some(origin), httpMethod).Refuse? <==> WsOriginAllowed(One(origin))
    ensures WsOriginAllowed(One(origin)) ==>
              && StrictCors(Some(origin), httpMethod).headers["Access-Control-Allow-Origin"] == origin
              && StrictCors(Some(origin), httpMethod).headers["Access-Control-Allow-Credentials"] == "true"
  {
  }
}
