/**
 * `/api/test-bypass?action=clear|status&identifier=...`: the administrative
 * route that clears or reports today's usage of an identifier.
 */
module TestBypass {
  import opened Wrappers
  import opened Http
  import opened IsoDates
  import opened UsageStorage

  /** The methods this route lists in `Access-Control-Allow-Methods`. */
  const ALLOWED_METHODS: string := "GET, POST, OPTIONS"

  /**
   * The identifier acted on: the `identifier` query parameter, then the first
   * address of `x-forwarded-for`, then `x-vercel-ip`, then `unknown`. Unlike
   * the recording route, the socket address is not consulted.
   */
  function UserIdentifier(req: Request): (r: string)
    ensures r == FirstTruthy([Query(req, "identifier"), FirstForwarded(req), Header(req, "x-vercel-ip")], "unknown")
    ensures r != []
  {
    FirstTruthyOfThree(Query(req, "identifier"), FirstForwarded(req), Header(req, "x-vercel-ip"), "unknown");
    OrElse(Or(Or(Query(req, "identifier"), FirstForwarded(req)), Header(req, "x-vercel-ip")), "unknown")
  }

  /** A session as JSON. */
  function SessionJson(s: Session): Json {
    JObj([("duration", JNum(s.duration)), ("timestamp", JStr(s.timestamp))])
  }

  /** The status body: the identifier, then the fields of `getUsage`, then the allowance. */
  function StatusBody(identifier: string, u: Usage): (j: Json)
    ensures j.JObj? && |j.members| == 5
    ensures j.members[0] == ("identifier", JStr(identifier))
    ensures j.members[1] == ("usedSeconds", JNum(u.usedSeconds))
    ensures j.members[2] == ("remainingSeconds", JNum(u.remainingSeconds))
    ensures j.members[3].0 == "sessions" && j.members[3].1.JArr? && |j.members[3].1.items| == |u.sessions|
    ensures forall i :: 0 <= i < |u.sessions| ==> j.members[3].1.items[i] == SessionJson(u.sessions[i])
    ensures j.members[4] == ("maxDailySeconds", JNum(MAX_DAILY_SECONDS))
  {
    JObj([("identifier", JStr(identifier)), ("usedSeconds", JNum(u.usedSeconds)),
          ("remainingSeconds", JNum(u.remainingSeconds)),
          ("sessions", JArr(seq(|u.sessions|, i requires 0 <= i < |u.sessions| => SessionJson(u.sessions[i])))),
          ("maxDailySeconds", JNum(MAX_DAILY_SECONDS))])
  }

  /** The confirmation of a clear. */
  function ClearedBody(identifier: string, today: string): Json {
    JObj([("success", JBool(true)), ("message", JStr("Cleared usage for " + identifier + " on " + today))])
  }

  /** The rejection of an unknown or missing action. */
  const INVALID_ACTION: Json := JObj([("error", JStr("Invalid action")),
                                      ("availableActions", JArr([JStr("clear"), JStr("status")]))])

  /**
   * The handler. Only a preflight is special-cased; every other method is
   * routed on `action`. `clear` deletes exactly today's key of the
   * identifier; `status` and an unknown action leave the ledger as it was.
   */
  method Handle(store: UsageStore, req: Request, env: Env, isoNow: string) returns (resp: Response)
    requires store.Valid()
    modifies store
    ensures store.Valid()
    ensures resp.headers == FixedCorsHeaders(env, ALLOWED_METHODS)
    ensures req.httpMethod == "OPTIONS" ==> resp.status == 200 && resp.body.None?
    ensures req.httpMethod != "OPTIONS" && Query(req, "action") == Some("clear") ==>
      var id := UserIdentifier(req);
      && store.entries == old(store.entries) - {TodayKey(id, isoNow)}
      && resp.status == 200 && resp.body == Some(ClearedBody(id, DayOf(isoNow)))
    ensures req.httpMethod == "OPTIONS" || Query(req, "action") != Some("clear") ==> store.entries == old(store.entries)
    ensures req.httpMethod != "OPTIONS" && Query(req, "action") == Some("status") ==>
      var id := UserIdentifier(req);
      resp.status == 200 && resp.body == Some(StatusBody(id, View(Lookup(store.entries, TodayKey(id, isoNow)))))
    ensures req.httpMethod != "OPTIONS" && Query(req, "action") != Some("clear") && Query(req, "action") != Some("status") ==>
      resp.status == 400 && resp.body == Some(INVALID_ACTION)
  {
    var headers := FixedCorsHeaders(env, ALLOWED_METHODS);
    if req.httpMethod == "OPTIONS" {
      return Response(200, headers, None);
    }
    var action := Query(req, "action");
    var identifier := UserIdentifier(req);
    if action == Some("clear") {
      var today := DayOf(isoNow);
      var key := identifier + [':'] + today;
      store.Delete(key);
      resp := Response(200, headers, Some(ClearedBody(identifier, today)));
    } else if action == Some("status") {
      var usage := store.GetUsage(identifier, isoNow);
      resp := Response(200, headers, Some(StatusBody(identifier, usage)));
    } else {
      resp := Response(400, headers, Some(INVALID_ACTION));
    }
  }

  /** After a clear, the identifier's usage today reads as a fresh day. */
  method ClearThenStatus(store: UsageStore, req: Request, env: Env, isoNow: string) returns (status: Response)
    requires store.Valid()
    requires req.httpMethod != "OPTIONS" && Query(req, "action") == Some("clear")
    modifies store
    ensures store.Valid()
    ensures status.status == 200
    ensures status.body == Some(StatusBody(UserIdentifier(req), Usage(0.0, MAX_DAILY_SECONDS, [])))
  {
    var cleared := Handle(store, req, env, isoNow);
    var req' := req.(query := req.query["action" := "status"]);
    assert Query(req', "identifier") == Query(req, "identifier");
    status := Handle(store, req', env, isoNow);
  }

  /** Clearing twice leaves the ledger as clearing once does. */
  method ClearTwice(store: UsageStore, req: Request, env: Env, isoNow: string) returns (first: Response, second: Response)
    requires store.Valid()
    requires req.httpMethod != "OPTIONS" && Query(req, "action") == Some("clear")
    modifies store
    ensures store.Valid()
    ensures store.entries == old(store.entries) - {TodayKey(UserIdentifier(req), isoNow)}
    ensures first == second
  {
    first := Handle(store, req, env, isoNow);
    second := Handle(store, req, env, isoNow);
  }
}
