/**
 * `POST /api/record-usage`: charge a finished call's duration to today's
 * allowance of the caller, identified by client address.
 */
module RecordUsage {
  import opened Wrappers
  import opened Http
  import opened UsageStorage

  /** The methods this route lists in `Access-Control-Allow-Methods`. */
  const ALLOWED_METHODS: string := "POST, OPTIONS"

  /**
   * The `TypeError` message V8 gives when `const { durationSeconds } = req.body`
   * runs on a request without a parsed body.
   */
  const MISSING_BODY: string := "Cannot destructure property 'durationSeconds' of 'req.body' as it is undefined."


  /**
   * The caller's identifier: the first address of `x-forwarded-for`, then
   * `x-vercel-ip`, then the socket's remote address, then `unknown`; an
   * empty value falls through to the next.
   */
  function ClientIdentifier(req: Request): (r: string)
    ensures r == FirstTruthy([FirstForwarded(req), Header(req, "x-vercel-ip"), req.remoteAddress], "unknown")
    ensures r != []
  {
    FirstTruthyOfThree(FirstForwarded(req), Header(req, "x-vercel-ip"), req.remoteAddress, "unknown");
    OrElse(Or(Or(FirstForwarded(req), Header(req, "x-vercel-ip")), req.remoteAddress), "unknown")
  }

  /** `durationSeconds` when the body holds a number that is not negative; `None` otherwise. */
  function ValidDuration(body: map<string, JsValue>): (d: Option<real>)
    ensures d.Some? <==> "durationSeconds" in body && body["durationSeconds"].Num? && body["durationSeconds"].n >= 0.0
    ensures d.Some? ==> d.value == body["durationSeconds"].n && d.value >= 0.0
  {
    if "durationSeconds" in body && body["durationSeconds"].Num? && body["durationSeconds"].n >= 0.0
    then Some(body["durationSeconds"].n)
    else None
  }

  /** The success body: the new total and remainder and the daily allowance. */
  function SuccessBody(t: Totals): Json {
    JObj([("success", JBool(true)), ("usedSeconds", JNum(t.usedSeconds)),
          ("remainingSeconds", JNum(t.remainingSeconds)), ("maxDailySeconds", JNum(MAX_DAILY_SECONDS))])
  }

  /**
   * The handler. A preflight gets an empty 200, any method but `POST` a 405,
   * a missing body the 500 of the thrown `TypeError`, a missing, non-numeric
   * or negative duration a 400; only a valid `POST` charges the ledger, and
   * then only today's key of the caller.
   */
  method Handle(store: UsageStore, req: Request, env: Env, isoNow: string) returns (resp: Response)
    requires store.Valid()
    modifies store
    ensures store.Valid()
    ensures resp.headers == FixedCorsHeaders(env, ALLOWED_METHODS)
    ensures req.httpMethod == "OPTIONS" ==> resp.status == 200 && resp.body.None?
    ensures req.httpMethod != "OPTIONS" && req.httpMethod != "POST" ==>
      resp.status == 405 && resp.body == Some(ErrorBody("Method not allowed"))
    ensures req.httpMethod == "POST" && req.body.None? ==>
      resp.status == 500 && resp.body == Some(InternalError(MISSING_BODY))
    ensures req.httpMethod == "POST" && req.body.Some? && ValidDuration(req.body.value).None? ==>
      resp.status == 400 && resp.body == Some(ErrorBody("Invalid durationSeconds"))
    ensures req.httpMethod != "POST" || req.body.None? || ValidDuration(req.body.value).None? ==>
      store.entries == old(store.entries)
    ensures req.httpMethod == "POST" && req.body.Some? && ValidDuration(req.body.value).Some? ==>
      var key := TodayKey(ClientIdentifier(req), isoNow);
      var rec := Charge(Lookup(old(store.entries), key), ValidDuration(req.body.value).value, isoNow);
      && store.entries == old(store.entries)[key := rec]
      && resp.status == 200
      && resp.body == Some(SuccessBody(Totals(rec.usedSeconds, Remaining(rec.usedSeconds))))
      && rec.usedSeconds + Remaining(rec.usedSeconds) == MAX_DAILY_SECONDS
  {
    var headers := FixedCorsHeaders(env, ALLOWED_METHODS);
    if req.httpMethod == "OPTIONS" {
      return Response(200, headers, None);
    }
    if req.httpMethod != "POST" {
      return Response(405, headers, Some(ErrorBody("Method not allowed")));
    }
    if req.body.None? {
      return Response(500, headers, Some(InternalError(MISSING_BODY)));
    }
    var duration := ValidDuration(req.body.value);
    if duration.None? {
      return Response(400, headers, Some(ErrorBody("Invalid durationSeconds")));
    }
    var identifier := ClientIdentifier(req);
    var totals := store.RecordSession(identifier, duration.value, isoNow);
    resp := Response(200, headers, Some(SuccessBody(totals)));
  }
}
