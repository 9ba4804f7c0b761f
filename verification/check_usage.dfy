/**
 * `GET /api/check-usage`: report whether the caller, identified by the
 * `santa_user_id` cookie (issued here when missing), may start a call today.
 */
module CheckUsage {
  import opened Wrappers
  import opened Http
  import opened UriCodec
  import opened CookieUtils
  import opened UsageStorage

  /**
   * The origin to allow: the `Origin` header, else `FRONTEND_URL`, else (for
   * a same-origin request with a `Host`) the origin rebuilt from the
   * forwarded protocol (default `http`) and the host.
   */
  function SelectOrigin(req: Request, env: Env): (r: Option<string>)
    ensures Truthy(Header(req, "origin")) ==> r == Header(req, "origin")
    ensures !Truthy(Header(req, "origin")) && Truthy(env.frontendUrl) ==> r == env.frontendUrl
    ensures !Truthy(Header(req, "origin")) && !Truthy(env.frontendUrl) && Truthy(Header(req, "host")) ==>
      r == Some(FirstTruthy([Header(req, "x-forwarded-proto")], "http") + "://" + Header(req, "host").value)
    ensures Truthy(r) <==> Truthy(Header(req, "origin")) || Truthy(env.frontendUrl) || Truthy(Header(req, "host"))
  {
    var origin := Or(Header(req, "origin"), env.frontendUrl);
    if !Truthy(origin) && Truthy(Header(req, "host")) then
      var protocol := OrElse(Header(req, "x-forwarded-proto"), "http");
      Some(protocol + "://" + Header(req, "host").value)
    else origin
  }

  /**
   * The CORS headers: with an origin, that origin with credentials and the
   * exposed cookie headers; without one, `*` and no credentials (a wildcard
   * may not be combined with credentials, section 3.2.5 of the WHATWG Fetch
   * Standard).
   */
  function CorsHeaders(origin: Option<string>): (h: map<string, string>)
    ensures {"Access-Control-Allow-Origin", "Access-Control-Allow-Methods", "Access-Control-Allow-Headers", "Cache-Control"} <= h.Keys
    ensures Truthy(origin) ==> (
      && h["Access-Control-Allow-Origin"] == origin.value
      && h.Keys == {"Access-Control-Allow-Origin", "Access-Control-Allow-Credentials", "Access-Control-Expose-Headers",
                    "Access-Control-Allow-Methods", "Access-Control-Allow-Headers", "Cache-Control"}
      && h["Access-Control-Allow-Credentials"] == "true"
      && h["Access-Control-Expose-Headers"] == "Set-Cookie, X-Cookie-Set, X-User-ID")
    ensures !Truthy(origin) ==> (
      && h["Access-Control-Allow-Origin"] == "*"
      && h.Keys == {"Access-Control-Allow-Origin", "Access-Control-Allow-Methods", "Access-Control-Allow-Headers", "Cache-Control"})
    ensures h["Access-Control-Allow-Methods"] == "GET, OPTIONS"
    ensures h["Access-Control-Allow-Headers"] == "Content-Type, Authorization"
    ensures h["Cache-Control"] == "no-store"
  {
    var common := map[
      "Access-Control-Allow-Methods" := "GET, OPTIONS",
      "Access-Control-Allow-Headers" := "Content-Type, Authorization",
      "Cache-Control" := "no-store"];
    if Truthy(origin) then
      common["Access-Control-Allow-Origin" := origin.value]
            ["Access-Control-Allow-Credentials" := "true"]
            ["Access-Control-Expose-Headers" := "Set-Cookie, X-Cookie-Set, X-User-ID"]
    else common["Access-Control-Allow-Origin" := "*"]
  }

  /**
   * Unlike the routes with fixed headers (`Http.WildcardWithCredentials`),
   * this route allows credentials only for the origin it echoes, so it never
   * pairs `*` with credentials unless the chosen origin is itself `*`.
   */
  lemma CredentialsOnlyWithOrigin(origin: Option<string>)
    ensures var h := CorsHeaders(origin);
      && ("Access-Control-Allow-Credentials" in h <==> Truthy(origin))
      && ("Access-Control-Allow-Credentials" in h ==> h["Access-Control-Allow-Origin"] == origin.value)
      && (h["Access-Control-Allow-Origin"] == "*" && "Access-Control-Allow-Credentials" in h ==> origin == Some("*"))
  {
  }

  /** The eligibility body. */
  function EligibilityBody(canStart: bool, usage: Usage): Json {
    JObj([("canStart", JBool(canStart)), ("remainingSeconds", JNum(usage.remainingSeconds)),
          ("usedSeconds", JNum(usage.usedSeconds)), ("maxDailySeconds", JNum(MAX_DAILY_SECONDS))])
  }

  /**
   * The handler. A preflight gets an empty 200 and any method but `GET` a
   * 405. A `GET` reads today's usage of the cookie's identifier, issuing the
   * cookie first when there is none; a cookie header that does not decode
   * makes the lookup throw, which becomes a 500. Nothing is written to the
   * ledger. `generatedId` is the identifier `generateUserId` would produce.
   */
  method Handle(store: UsageStore, req: Request, env: Env, generatedId: string, isoNow: string) returns (resp: Response)
    ensures var cors := CorsHeaders(SelectOrigin(req, env));
      && (req.httpMethod == "OPTIONS" ==> resp == Response(200, cors, None))
      && (req.httpMethod != "OPTIONS" && req.httpMethod != "GET" ==>
            resp == Response(405, cors, Some(ErrorBody("Method not allowed"))))
    ensures req.httpMethod == "GET" ==>
      var outcome := GetOrCreateUserId(Header(req, "cookie"), generatedId, env.nodeEnv);
      var cors := CorsHeaders(SelectOrigin(req, env));
      if outcome.Err? then
        resp == Response(500, cors, Some(InternalError(URI_MALFORMED)))
      else
        var usage := View(Lookup(store.entries, TodayKey(outcome.value.userId, isoNow)));
        && resp.status == 200
        && resp.body == Some(EligibilityBody(usage.remainingSeconds > 0.0, usage))
        && (outcome.value.setCookie.None? ==> resp.headers == cors)
        && (outcome.value.setCookie.Some? ==> resp.headers == cors["Set-Cookie" := outcome.value.setCookie.value])
  {
    var cors := CorsHeaders(SelectOrigin(req, env));
    if req.httpMethod == "OPTIONS" {
      return Response(200, cors, None);
    }
    if req.httpMethod != "GET" {
      return Response(405, cors, Some(ErrorBody("Method not allowed")));
    }
    var outcome := GetOrCreateUserId(Header(req, "cookie"), generatedId, env.nodeEnv);
    if outcome.Err? {
      return Response(500, cors, Some(InternalError(outcome.message)));
    }
    var headers := cors;
    if outcome.value.setCookie.Some? {
      headers := headers["Set-Cookie" := outcome.value.setCookie.value];
    }
    var identifier := outcome.value.userId;
    var usage := store.GetUsage(identifier, isoNow);
    var canStart := store.CanStartSession(identifier, isoNow);
    resp := Response(200, headers, Some(EligibilityBody(canStart, usage)));
  }
}
