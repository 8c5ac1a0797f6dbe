/** The axios instance of src/services/apiService.ts as a step machine. The
    request interceptor attaches the session's bearer token; the response
    interceptor passes successes through, rejects every error except a 401,
    and on a 401 with a token in a freshly read session re-issues the
    request through the same instance, hence through both interceptors
    again. Nothing counts the attempts.

    Oracles: `session(i)` is the access token the `i`-th `getSession()` call
    yields (`None` for no session or no token); `backend(n, config)` is what
    the `n`-th request, sent with `config`, comes back with. */
module ApiService {
  import opened Common
  import FetchWithAuth

  datatype Config = Config(url: string, headers: Headers)

  /** What the adapter does with a sent request: a successful response, or
      an axios error (an HTTP error status, or no response at all). */
  datatype AxiosReply = Success(response: Response) | Failure(error: RequestError)

  /** How the promise returned to the caller settles. */
  datatype Settled = Resolved(response: Response) | Rejected(error: RequestError)

  /** A request about to enter the request interceptor, or a settled call;
      both record the requests sent and the sessions read so far. */
  datatype Chain =
    | Pending(config: Config, attempts: nat, lookups: nat)
    | Done(result: Settled, attempts: nat, lookups: nat)

  /** `config.headers.Authorization = Bearer <token>` when the token is
      truthy; otherwise the config is left as it is. */
  function WithBearer(config: Config, token: Option<string>): (r: Config)
    ensures r.url == config.url
    ensures !Truthy(token) ==> r == config
    ensures Truthy(token) ==>
      && r.headers.Keys == config.headers.Keys + {"Authorization"}
      && r.headers["Authorization"] == "Bearer " + token.value
      && forall k :: k in config.headers && k != "Authorization" ==> r.headers[k] == config.headers[k]
  {
    if Truthy(token) then config.(headers := config.headers["Authorization" := "Bearer " + token.value])
    else config
  }

  /** One pass through the chain: the request interceptor reads the session
      and sends; the response interceptor settles the call or, on a 401,
      reads the session again and queues the retry. */
  function Step(c: Chain, session: nat -> Option<string>, backend: (nat, Config) -> AxiosReply): (r: Chain)
    ensures c.Done? ==> r == c
    ensures c.Pending? ==> r.attempts == c.attempts + 1 && c.lookups + 1 <= r.lookups <= c.lookups + 2
  {
    match c
    case Done(_, _, _) => c
    case Pending(config, n, lookups) =>
      var sent := WithBearer(config, session(lookups));
      match backend(n, sent)
      case Success(response) => Done(Resolved(response), n + 1, lookups + 1)
      case Failure(err) =>
        if err.HasStatus(401) then
          var renewed := session(lookups + 1);
          if Truthy(renewed) then Pending(WithBearer(sent, renewed), n + 1, lookups + 2)
          else Done(Rejected(err), n + 1, lookups + 2)
        else Done(Rejected(err), n + 1, lookups + 1)
  }

  /** The chain after at most `fuel` passes; it stops early once settled. */
  function Run(fuel: nat, c: Chain, session: nat -> Option<string>, backend: (nat, Config) -> AxiosReply): (r: Chain)
    ensures r.attempts <= c.attempts + fuel
    ensures c.Done? ==> r == c
    decreases fuel
  {
    if fuel == 0 || c.Done? then c
    else Run(fuel - 1, Step(c, session, backend), session, backend)
  }

  /** A call through `apiService` starts with nothing sent and nothing read. */
  function Start(config: Config): Chain
  {
    Pending(config, 0, 0)
  }

  /** The first request carries the bearer token exactly when the session
      has one, and the caller's headers otherwise. */
  lemma RequestInterceptorAttachesBearer(config: Config, session: nat -> Option<string>)
    ensures Truthy(session(0)) ==>
      WithBearer(config, session(0)).headers["Authorization"] == "Bearer " + session(0).value
    ensures !Truthy(session(0)) ==> WithBearer(config, session(0)).headers == config.headers
  {
  }

  /** A successful first answer resolves the call with that very response. */
  lemma SuccessPassesThrough(config: Config, session: nat -> Option<string>,
                             backend: (nat, Config) -> AxiosReply, fuel: nat)
    requires fuel >= 1
    requires backend(0, WithBearer(config, session(0))).Success?
    ensures Run(fuel, Start(config), session, backend) ==
      Done(Resolved(backend(0, WithBearer(config, session(0))).response), 1, 1)
  {
  }

  /** An error other than 401 (including no response) rejects the call with
      the original error after one request. */
  lemma OtherErrorsRejected(config: Config, session: nat -> Option<string>,
                            backend: (nat, Config) -> AxiosReply, fuel: nat)
    requires fuel >= 1
    requires var r := backend(0, WithBearer(config, session(0)));
      r.Failure? && !r.error.HasStatus(401)
    ensures Run(fuel, Start(config), session, backend) ==
      Done(Rejected(backend(0, WithBearer(config, session(0))).error), 1, 1)
  {
  }

  /** A 401 whose re-read session has no token rejects with the original
      error. */
  lemma UnauthorizedWithoutTokenRejected(config: Config, session: nat -> Option<string>,
                                         backend: (nat, Config) -> AxiosReply, fuel: nat)
    requires fuel >= 1
    requires var r := backend(0, WithBearer(config, session(0)));
      r.Failure? && r.error.HasStatus(401)
    requires !Truthy(session(1))
    ensures Run(fuel, Start(config), session, backend) ==
      Done(Rejected(backend(0, WithBearer(config, session(0))).error), 1, 2)
  {
  }

  /** A 401 whose re-read session has a token queues the same request again
      with that token as bearer. */
  lemma UnauthorizedWithTokenRetried(config: Config, session: nat -> Option<string>,
                                     backend: (nat, Config) -> AxiosReply)
    requires var r := backend(0, WithBearer(config, session(0)));
      r.Failure? && r.error.HasStatus(401)
    requires Truthy(session(1))
    ensures var next := Step(Start(config), session, backend);
      && next.Pending?
      && next.attempts == 1
      && next.config.url == config.url
      && next.config.headers["Authorization"] == "Bearer " + session(1).value
  {
  }

  /** The server answers every request with 401. */
  ghost predicate AlwaysUnauthorized(backend: (nat, Config) -> AxiosReply)
  {
    forall n: nat, config: Config :: backend(n, config).Failure? && backend(n, config).error.HasStatus(401)
  }

  /** Every session read yields a token. */
  ghost predicate AlwaysSignedIn(session: nat -> Option<string>)
  {
    forall i: nat :: Truthy(session(i))
  }

  /** One pass against an always-401 server and an always-signed-in
      session: the call is re-queued with one more attempt and two more
      session reads. */
  lemma UnauthorizedStepRequeues(config: Config, attempts: nat, lookups: nat,
                                 session: nat -> Option<string>,
                                 backend: (nat, Config) -> AxiosReply)
    requires AlwaysUnauthorized(backend) && AlwaysSignedIn(session)
    ensures Step(Pending(config, attempts, lookups), session, backend) ==
      Pending(WithBearer(WithBearer(config, session(lookups)), session(lookups + 1)), attempts + 1, lookups + 2)
  {
    var sent := WithBearer(config, session(lookups));
    assert backend(attempts, sent).Failure? && backend(attempts, sent).error.HasStatus(401);
    assert Truthy(session(lookups + 1));
  }

  /** No attempt counter: while the server keeps answering 401 and the
      session keeps a token, every pass sends one more request and the call
      never settles, however many passes are run. */
  lemma {:induction false} RetriesWithoutBound(fuel: nat, config: Config, attempts: nat, lookups: nat,
                                               session: nat -> Option<string>,
                                               backend: (nat, Config) -> AxiosReply)
    requires AlwaysUnauthorized(backend) && AlwaysSignedIn(session)
    ensures var r := Run(fuel, Pending(config, attempts, lookups), session, backend);
      r.Pending? && r.attempts == attempts + fuel && r.lookups == lookups + 2 * fuel
    decreases fuel
  {
    if fuel > 0 {
      UnauthorizedStepRequeues(config, attempts, lookups, session, backend);
      var retried := WithBearer(WithBearer(config, session(lookups)), session(lookups + 1));
      RetriesWithoutBound(fuel - 1, retried, attempts + 1, lookups + 2, session, backend);
    }
  }

  /** The two policies side by side, against a server that always answers
      401 and a session that always has a token: `fetchWithAuth` stops after
      two requests and hands the second 401 back; the axios chain has sent
      as many requests as it was given passes and is still waiting. */
  lemma BoundedVersusUnboundedRetry(url: string, caller: Headers, fuel: nat,
                                    session: nat -> Option<string>,
                                    fetchBackend: (nat, FetchWithAuth.Request) -> FetchWithAuth.Reply,
                                    axiosBackend: (nat, Config) -> AxiosReply)
    requires AlwaysSignedIn(session) && AlwaysUnauthorized(axiosBackend)
    requires forall n: nat, req: FetchWithAuth.Request ::
      fetchBackend(n, req) == FetchWithAuth.Responded(Response(401, ""))
    ensures var run := FetchWithAuth.Fetch(url, caller, session, fetchBackend);
      |run.sent| == 2 && run.outcome == FetchWithAuth.Returned(Response(401, ""))
    ensures var r := Run(fuel, Start(Config(url, caller)), session, axiosBackend);
      r.Pending? && r.attempts == fuel
  {
    assert Truthy(session(0)) && Truthy(session(1));
    RetriesWithoutBound(fuel, Config(url, caller), 0, 0, session, axiosBackend);
  }
}
