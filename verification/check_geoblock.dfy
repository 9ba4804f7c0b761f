/**
 * `GET /api/check-geoblock`: refuse service to the countries listed in
 * `BLOCKED_COUNTRIES`, with a `testCountry` query parameter that simulates a
 * country against `TEST_BLOCKED_COUNTRIES` (by default China, Russia and
 * North Korea).
 */
module CheckGeoblock {
  import opened Wrappers
  import opened JsStrings
  import opened Http

  /** The methods this route lists in `Access-Control-Allow-Methods`. */
  const ALLOWED_METHODS: string := "GET, OPTIONS"

  /** The list used when `TEST_BLOCKED_COUNTRIES` is unset or empty. */
  const DEFAULT_TEST_COUNTRIES: seq<string> := ["CN", "RU", "KP"]

  /** The country to check: `testCountry`, then `x-vercel-ip-country`, then `x-vercel-ip-country-code`. */
  function CountryCode(req: Request): (r: Option<string>)
    ensures Truthy(Query(req, "testCountry")) ==> r == Query(req, "testCountry")
    ensures Truthy(r) <==> Truthy(Query(req, "testCountry")) || Truthy(Header(req, "x-vercel-ip-country"))
                           || Truthy(Header(req, "x-vercel-ip-country-code"))
    ensures Truthy(r) ==> r.value == FirstTruthy([Query(req, "testCountry"), Header(req, "x-vercel-ip-country"),
                                                 Header(req, "x-vercel-ip-country-code")], [])
  {
    FirstTruthyOfThree(Query(req, "testCountry"), Header(req, "x-vercel-ip-country"),
                       Header(req, "x-vercel-ip-country-code"), []);
    Or(Or(Query(req, "testCountry"), Header(req, "x-vercel-ip-country")), Header(req, "x-vercel-ip-country-code"))
  }

  /** One list entry as compared: trimmed and upper-cased. */
  function Entry(c: string): string {
    ToUpper(Trim(c))
  }

  /** `parts.map(f)`. */
  function MapEach(parts: seq<string>, f: string -> string): (r: seq<string>)
    ensures |r| == |parts|
    ensures forall i :: 0 <= i < |parts| ==> r[i] == f(parts[i])
  {
    if parts == [] then []
    else
      var rest := MapEach(parts[1..], f);
      assert forall i :: 1 <= i < |parts| ==> parts[i] == parts[1..][i - 1];
      [f(parts[0])] + rest
  }

  /** `parts.map(c => c.trim().toUpperCase())`. */
  function Normalize(parts: seq<string>): (r: seq<string>)
    ensures |r| == |parts|
    ensures forall i :: 0 <= i < |parts| ==> r[i] == Entry(parts[i])
  {
    MapEach(parts, Entry)
  }

  /** Each comma-separated entry of `s`, trimmed and upper-cased; never an empty list. */
  function Entries(s: string): (r: seq<string>)
    ensures |r| >= 1
  {
    Normalize(Split(s, ','))
  }

  /** A country-list variable: its entries when set and non-empty, otherwise `fallback`. */
  function CountryList(v: Option<string>, fallback: seq<string>): (r: seq<string>)
    ensures Truthy(v) ==> r == Entries(v.value)
    ensures !Truthy(v) ==> r == fallback
  {
    if Truthy(v) then Entries(v.value) else fallback
  }

  /** The list to check against: the test list exactly when `testCountry` is given. */
  function CountriesToCheck(req: Request, env: Env): seq<string> {
    if Truthy(Query(req, "testCountry"))
    then CountryList(env.testBlockedCountries, DEFAULT_TEST_COUNTRIES)
    else CountryList(env.blockedCountries, [])
  }

  /** The block decision: a country code is known, the list is not empty, and it holds the upper-cased code. */
  predicate Blocked(req: Request, env: Env) {
    var code := CountryCode(req);
    var list := CountriesToCheck(req, env);
    Truthy(code) && |list| > 0 && ToUpper(code.value) in list
  }

  const GEOBLOCKED: Json := JObj([("error", JStr("geoblocked")), ("message", JStr("Service not available in your region"))])
  const NOT_GEOBLOCKED: Json := JObj([("geoblocked", JBool(false))])

  /** The handler: preflight, method check, then the decision. */
  function Handle(req: Request, env: Env): (resp: Response)
    ensures resp.headers == FixedCorsHeaders(env, ALLOWED_METHODS)
    ensures req.httpMethod == "OPTIONS" ==> resp.status == 200 && resp.body.None?
    ensures req.httpMethod != "OPTIONS" && req.httpMethod != "GET" ==>
      resp.status == 405 && resp.body == Some(ErrorBody("Method not allowed"))
    ensures req.httpMethod == "GET" ==> (resp.status == 403 <==> Blocked(req, env))
    ensures req.httpMethod == "GET" ==> resp.status in {200, 403}
    ensures resp.status == 403 ==> resp.body == Some(GEOBLOCKED)
    ensures req.httpMethod == "GET" && resp.status == 200 ==> resp.body == Some(NOT_GEOBLOCKED)
  {
    var headers := FixedCorsHeaders(env, ALLOWED_METHODS);
    if req.httpMethod == "OPTIONS" then Response(200, headers, None)
    else if req.httpMethod != "GET" then Response(405, headers, Some(ErrorBody("Method not allowed")))
    else if Blocked(req, env) then Response(403, headers, Some(GEOBLOCKED))
    else Response(200, headers, Some(NOT_GEOBLOCKED))
  }

  /** With `BLOCKED_COUNTRIES` unset and no `testCountry`, nothing is blocked, whatever the headers say. */
  lemma UnconfiguredNeverBlocks(req: Request, env: Env)
    requires !Truthy(env.blockedCountries) && !Truthy(Query(req, "testCountry"))
    ensures Handle(req, env).status != 403
  {
    assert CountriesToCheck(req, env) == [];
  }

  /**
   * In test mode the decision depends on the simulated country alone: the
   * real location headers are ignored.
   */
  lemma TestModeIgnoresHeaders(req: Request, env: Env)
    requires Truthy(Query(req, "testCountry"))
    ensures Blocked(req, env) <==>
      ToUpper(Query(req, "testCountry").value) in CountryList(env.testBlockedCountries, DEFAULT_TEST_COUNTRIES)
  {
    assert CountryList(env.testBlockedCountries, DEFAULT_TEST_COUNTRIES) != [] by {
      if Truthy(env.testBlockedCountries) {
        assert |Entries(env.testBlockedCountries.value)| >= 1;
      }
    }
  }

  /**
   * A configured entry blocks the code it names, whatever the spacing and
   * the case of the letters in either: `BLOCKED_COUNTRIES=" cn, ru"` blocks a
   * request whose location header is `CN` or `ru`.
   */
  lemma ListedCountryBlocked(req: Request, env: Env, i: nat)
    requires req.httpMethod == "GET" && !Truthy(Query(req, "testCountry"))
    requires Truthy(env.blockedCountries) && i < |Split(env.blockedCountries.value, ',')|
    requires Truthy(CountryCode(req))
    requires ToUpper(CountryCode(req).value) == ToUpper(Trim(Split(env.blockedCountries.value, ',')[i]))
    ensures Handle(req, env).status == 403
  {
    var list := Entries(env.blockedCountries.value);
    assert list[i] == ToUpper(Trim(Split(env.blockedCountries.value, ',')[i]));
  }

  /** The default test list blocks `cn` in any case, and lets `US` through. */
  lemma DefaultTestList(req: Request, env: Env)
    requires req.httpMethod == "GET" && !Truthy(env.testBlockedCountries)
    ensures Query(req, "testCountry") == Some("cn") ==> Handle(req, env).status == 403
    ensures Query(req, "testCountry") == Some("US") ==> Handle(req, env).status == 200
  {
    assert ToUpper("cn") == "CN";
    assert ToUpper("US") == "US";
  }
}
