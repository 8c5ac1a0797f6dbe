/** `fetchWithAuth` (src/lib/api-client.ts): one request with the session's
    bearer token and, on a 401 answer, at most one retry with the token of a
    freshly read session. The session store and the network are oracles:
    `session(i)` is the access token the `i`-th `getSession()` call yields
    (`None` for no session or no token), `backend(i, req)` is the answer to
    the `i`-th `fetch`. */
module FetchWithAuth {
  import opened Common

  datatype Request = Request(url: string, headers: Headers)

  /** What `fetch` does with a request: a response of any status, or a
      rejection (network failure) with its message. */
  datatype Reply = Responded(response: Response) | NetworkFailure(message: string)

  /** How the call ends: a thrown error or a returned response. */
  datatype Outcome = Threw(message: string) | Returned(response: Response)

  /** The outcome together with every request sent, in order, and the
      number of session reads. */
  datatype Run = Run(outcome: Outcome, sent: seq<Request>, sessionReads: nat)

  const NoSessionMessage: string := "No hay sesión activa"

  /** The headers of an authenticated request: the caller's headers, with
      `Authorization` and `Content-Type` set over whatever the caller gave. */
  function AuthHeaders(caller: Headers, token: string): (h: Headers)
    ensures h.Keys == caller.Keys + {"Authorization", "Content-Type"}
    ensures h["Authorization"] == "Bearer " + token
    ensures h["Content-Type"] == "application/json"
    ensures forall k :: k in caller && k != "Authorization" && k != "Content-Type" ==> h[k] == caller[k]
  {
    caller["Authorization" := "Bearer " + token]["Content-Type" := "application/json"]
  }

  function Fetch(url: string, caller: Headers, session: nat -> Option<string>,
                 backend: (nat, Request) -> Reply): (run: Run)
    ensures |run.sent| <= 2
    ensures 1 <= run.sessionReads <= 2
    ensures forall i :: 0 <= i < |run.sent| ==> run.sent[i].url == url
    ensures !Truthy(session(0)) <==> run.outcome == Threw(NoSessionMessage) && run.sent == []
    ensures |run.sent| >= 1 ==> run.sent[0].headers == AuthHeaders(caller, session(0).value)
    ensures |run.sent| == 2 ==> Truthy(session(1)) && run.sent[1].headers == AuthHeaders(caller, session(1).value)
  {
    var first := session(0);
    if !Truthy(first) then Run(Threw(NoSessionMessage), [], 1)
    else
      var req := Request(url, AuthHeaders(caller, first.value));
      match backend(0, req)
      case NetworkFailure(m) => Run(Threw(m), [req], 1)
      case Responded(resp) =>
        if resp.status != 401 then Run(Returned(resp), [req], 1)
        else
          (var renewed := session(1);
           if !Truthy(renewed) then Run(Returned(resp), [req], 2)
           else
             var retry := Request(url, AuthHeaders(caller, renewed.value));
             match backend(1, retry)
             case NetworkFailure(m) => Run(Threw(m), [req, retry], 2)
             case Responded(again) => Run(Returned(again), [req, retry], 2))
  }

  /** A first answer other than 401 is returned unchanged after exactly one
      request. */
  lemma FirstAnswerKept(url: string, caller: Headers, session: nat -> Option<string>,
                        backend: (nat, Request) -> Reply)
    requires Truthy(session(0))
    requires var r := backend(0, Request(url, AuthHeaders(caller, session(0).value)));
      r.Responded? && r.response.status != 401
    ensures var run := Fetch(url, caller, session, backend);
      |run.sent| == 1 && run.outcome == Returned(backend(0, run.sent[0]).response)
  {
  }

  /** A rejected first request propagates: its message is thrown after
      exactly one request, and no retry is attempted. */
  lemma FirstRequestFailurePropagates(url: string, caller: Headers, session: nat -> Option<string>,
                                      backend: (nat, Request) -> Reply)
    requires Truthy(session(0))
    requires backend(0, Request(url, AuthHeaders(caller, session(0).value))).NetworkFailure?
    ensures var run := Fetch(url, caller, session, backend);
      |run.sent| == 1 && run.outcome == Threw(backend(0, run.sent[0]).message)
      && run.sessionReads == 1
  {
  }

  /** On a 401 with a token in the re-read session, exactly one retry is
      sent with the new token, and its answer is returned as it is, even if
      it is 401 again. */
  lemma UnauthorizedRetriedOnce(url: string, caller: Headers, session: nat -> Option<string>,
                                backend: (nat, Request) -> Reply)
    requires Truthy(session(0)) && Truthy(session(1))
    requires var r := backend(0, Request(url, AuthHeaders(caller, session(0).value)));
      r.Responded? && r.response.status == 401
    ensures var run := Fetch(url, caller, session, backend);
      && |run.sent| == 2
      && run.sent[1].headers["Authorization"] == "Bearer " + session(1).value
      && match backend(1, run.sent[1])
         case Responded(again) => run.outcome == Returned(again)
         case NetworkFailure(m) => run.outcome == Threw(m)
  {
  }

  /** On a 401 with no token in the re-read session, the original 401 answer
      is returned and nothing more is sent. */
  lemma UnauthorizedWithoutFreshToken(url: string, caller: Headers, session: nat -> Option<string>,
                                      backend: (nat, Request) -> Reply)
    requires Truthy(session(0)) && !Truthy(session(1))
    requires var r := backend(0, Request(url, AuthHeaders(caller, session(0).value)));
      r.Responded? && r.response.status == 401
    ensures var run := Fetch(url, caller, session, backend);
      && |run.sent| == 1
      && run.outcome == Returned(backend(0, run.sent[0]).response)
      && run.outcome.response.status == 401
  {
  }
}
