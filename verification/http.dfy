/**
 * The request and response shapes the serverless handlers share, and the
 * JavaScript `||` fallback they use to pick a value.
 *
 * A request carries its method, its headers (lower-case names, as Node
 * presents them), its query parameters, its parsed body and the socket's
 * remote address. A response is a status, the headers written with
 * `res.setHeader`, and either a JSON body (`res.json`) or none (`res.end()`).
 */
module Http {
  import opened Wrappers
  import opened JsStrings

  /** The JavaScript values a parsed request body can hold, as far as the handlers look at them. */
  datatype JsValue = Num(n: real) | Str(s: string) | OtherValue

  datatype Request = Request(
    httpMethod: string,
    headers: map<string, string>,
    query: map<string, string>,
    body: Option<map<string, JsValue>>,
    remoteAddress: Option<string>)

  /** The environment variables the handlers read; `None` when unset. */
  datatype Env = Env(
    frontendUrl: Option<string>,
    nodeEnv: Option<string>,
    blockedCountries: Option<string>,
    testBlockedCountries: Option<string>)

  /** The JSON a handler sends, with object members in the order they are written. */
  datatype Json =
    | JBool(b: bool)
    | JNum(n: real)
    | JStr(s: string)
    | JArr(items: seq<Json>)
    | JObj(members: seq<(string, Json)>)

  datatype Response = Response(status: int, headers: map<string, string>, body: Option<Json>)

  /** `{ error: message }`. */
  function ErrorBody(message: string): Json {
    JObj([("error", JStr(message))])
  }

  /** `{ error: 'Internal server error', message }`: what every handler's `catch` sends. */
  function InternalError(message: string): Json {
    JObj([("error", JStr("Internal server error")), ("message", JStr(message))])
  }

  /** `req.headers[name]`: `None` when the header is absent. */
  function Header(req: Request, name: string): Option<string> {
    if name in req.headers then Some(req.headers[name]) else None
  }

  /** `req.query[name]`: `None` when the parameter is absent. */
  function Query(req: Request, name: string): Option<string> {
    if name in req.query then Some(req.query[name]) else None
  }

  /** A string value is truthy when it is present and not empty. */
  predicate Truthy(v: Option<string>) {
    v.Some? && v.value != []
  }

  /** `a || b` on optional strings: `a` when truthy, otherwise `b`. */
  function Or(a: Option<string>, b: Option<string>): (r: Option<string>)
    ensures Truthy(a) ==> r == a
    ensures !Truthy(a) ==> r == b
    ensures Truthy(r) <==> Truthy(a) || Truthy(b)
  {
    if Truthy(a) then a else b
  }

  /** `a || 'fallback'`: never empty when the fallback is not. */
  function OrElse(a: Option<string>, fallback: string): (r: string)
    ensures Truthy(a) ==> r == a.value
    ensures !Truthy(a) ==> r == fallback
    ensures fallback != [] ==> r != []
  {
    if Truthy(a) then a.value else fallback
  }

  /**
   * The CORS headers the recording, test and geoblock routes write before any
   * routing: `FRONTEND_URL` or `*` as the allowed origin, credentials always
   * allowed, and the route's own list of methods.
   */
  function FixedCorsHeaders(env: Env, methods: string): map<string, string> {
    map[
      "Access-Control-Allow-Origin" := OrElse(env.frontendUrl, "*"),
      "Access-Control-Allow-Credentials" := "true",
      "Access-Control-Allow-Methods" := methods,
      "Access-Control-Allow-Headers" := "Content-Type, Authorization",
      "Cache-Control" := "no-store"]
  }

  /**
   * These routes pair the wildcard origin with allowed credentials exactly
   * when `FRONTEND_URL` is unset, empty or itself `*`: a response that a
   * browser refuses for a credentialed request (section 3.2.5 of the WHATWG
   * Fetch Standard). Otherwise the allowed origin is `FRONTEND_URL` itself.
   */
  lemma WildcardWithCredentials(env: Env, methods: string)
    ensures var h := FixedCorsHeaders(env, methods);
      && h["Access-Control-Allow-Credentials"] == "true"
      && (h["Access-Control-Allow-Origin"] == "*" <==> !Truthy(env.frontendUrl) || env.frontendUrl.value == "*")
      && (Truthy(env.frontendUrl) ==> h["Access-Control-Allow-Origin"] == env.frontendUrl.value)
  {
  }

  /** No candidate before position `i` is truthy. */
  predicate NoneTruthyBefore(candidates: seq<Option<string>>, i: int)
    requires i <= |candidates|
  {
    forall j :: 0 <= j < i ==> !Truthy(candidates[j])
  }

  /**
   * The value of the first truthy candidate, or `fallback` when none is:
   * what a chain `c0 || c1 || ... || fallback` evaluates to.
   */
  function FirstTruthy(candidates: seq<Option<string>>, fallback: string): (r: string)
    ensures NoneTruthyBefore(candidates, |candidates|) ==> r == fallback
    ensures forall i :: (0 <= i < |candidates| && Truthy(candidates[i]) && NoneTruthyBefore(candidates, i)
      ==> r == candidates[i].value)
    ensures fallback != [] ==> r != []
    decreases |candidates|
  {
    if candidates == [] then fallback
    else if Truthy(candidates[0]) then candidates[0].value
    else
      var tail := candidates[1..];
      var r := FirstTruthy(tail, fallback);
      assert forall i :: 1 <= i <= |candidates| && NoneTruthyBefore(candidates, i) ==> NoneTruthyBefore(tail, i - 1);
      r
  }

  /** A chain of three candidates and a fallback is `FirstTruthy` over them. */
  lemma FirstTruthyOfThree(a: Option<string>, b: Option<string>, c: Option<string>, fallback: string)
    ensures OrElse(Or(Or(a, b), c), fallback) == FirstTruthy([a, b, c], fallback)
  {
    assert [c][1..] == [];
    assert FirstTruthy([c], fallback) == OrElse(c, fallback);
    assert [b, c][1..] == [c];
    assert FirstTruthy([b, c], fallback) == OrElse(Or(b, c), fallback);
    assert [a, b, c][1..] == [b, c];
  }

  /**
   * `req.headers['x-forwarded-for']?.split(',')[0]?.trim()`: the first
   * address of the proxy chain, trimmed; `None` without the header.
   */
  function FirstForwarded(req: Request): (r: Option<string>)
    ensures Header(req, "x-forwarded-for").None? <==> r.None?
    ensures r.Some? ==> ',' !in r.value
  {
    var h := Header(req, "x-forwarded-for");
    if h.None? then None
    else
      var first := FirstField(h.value, ',');
      TrimAdmitsNothingNew(first, ',');
      Some(Trim(first))
  }
}
