/** The session-history hook (src/hooks/useRefreshHistory.ts): fetch the
    issued sessions, keep them newest first on success, and report an error
    otherwise. Creation and expiry times are integer milliseconds. */
module RefreshHistory {
  import opened Common

  /** One issued session: `fechaCreacion`, which orders the list, and
      `fechaExpiracion`, which the hook passes through to the expiry badge
      untouched (`None` when it does not parse, as in `SessionExpiry`). */
  datatype HistoryEntry = HistoryEntry(createdAt: int, expiresAt: Option<int>)

  /** The body of `GET /refresh/history`. */
  datatype HistoryResponse = HistoryResponse(status: string, message: Option<string>, data: seq<HistoryEntry>)

  /** What the request produced: a body, or a thrown error. */
  datatype HistoryReply = Delivered(body: HistoryResponse) | Thrown(error: RequestError)

  /** What the hook returns. */
  datatype HookState = HookState(history: seq<HistoryEntry>, loading: bool, error: Option<string>)

  const StatusErrorMessage: string := "Error al obtener historial"
  const LoadErrorMessage: string := "Error al cargar el historial"

  /** Newest creation time first. */
  ghost predicate NewestFirst(s: seq<HistoryEntry>)
  {
    forall i, j :: 0 <= i < j < |s| ==> s[i].createdAt >= s[j].createdAt
  }

  /** Places `e` before the first entry created no later than it. */
  function Insert(e: HistoryEntry, s: seq<HistoryEntry>): (r: seq<HistoryEntry>)
    requires NewestFirst(s)
    ensures NewestFirst(r)
    ensures multiset(r) == multiset(s) + multiset{e}
    ensures r[0] == e || (|s| > 0 && r[0] == s[0])
  {
    if |s| == 0 then [e]
    else if e.createdAt >= s[0].createdAt then [e] + s
    else
      var rest := Insert(e, s[1..]);
      assert s == [s[0]] + s[1..];
      assert s[0].createdAt >= rest[0].createdAt;
      [s[0]] + rest
  }

  /** `data.sort((a, b) => b.createdAt - a.createdAt)`: the same entries,
      newest first. */
  function SortNewestFirst(s: seq<HistoryEntry>): (r: seq<HistoryEntry>)
    ensures NewestFirst(r)
    ensures multiset(r) == multiset(s)
    ensures |r| == |s|
  {
    if |s| == 0 then []
    else
      assert s == [s[0]] + s[1..];
      Insert(s[0], SortNewestFirst(s[1..]))
  }

  /** The hook as mounted: empty history, loading, no error. */
  const Mounted: HookState := HookState([], true, None)

  /** The start of `fetchHistory`: loading on, error cleared. */
  function BeginFetch(s: HookState): (r: HookState)
    ensures r.loading && r.error.None? && r.history == s.history
  {
    s.(loading := true, error := None)
  }

  /** The rest of `fetchHistory` once the request has settled. */
  function FinishFetch(s: HookState, reply: HistoryReply): (r: HookState)
    ensures !r.loading
    ensures !(reply.Delivered? && reply.body.status == "success") ==> r.error.Some? && r.error.value != ""
    ensures reply.Delivered? && reply.body.status == "success" ==>
      && NewestFirst(r.history)
      && multiset(r.history) == multiset(reply.body.data)
      && r.error == s.error
    ensures reply.Delivered? && reply.body.status != "success" ==>
      r.history == s.history && r.error == Some(FirstTruthy(reply.body.message, None, StatusErrorMessage))
    ensures reply.Thrown? ==>
      r.history == s.history &&
      r.error == Some(FirstTruthy(reply.error.ServerMessage(), reply.error.message, LoadErrorMessage))
  {
    match reply
    case Delivered(body) =>
      if body.status == "success" then s.(history := SortNewestFirst(body.data), loading := false)
      else s.(error := Some(FirstTruthy(body.message, None, StatusErrorMessage)), loading := false)
    case Thrown(err) =>
      s.(error := Some(FirstTruthy(err.ServerMessage(), err.message, LoadErrorMessage)), loading := false)
  }

  /** A whole fetch: on success the history is the returned entries newest
      first and there is no error; otherwise the history is kept and an error
      is shown. Loading is off at the end on every path. */
  function FetchHistory(s: HookState, reply: HistoryReply): (r: HookState)
    ensures !r.loading
    ensures r.error.None? <==> reply.Delivered? && reply.body.status == "success"
    ensures r.error.None? ==> NewestFirst(r.history) && multiset(r.history) == multiset(reply.body.data)
    ensures r.error.Some? ==> r.history == s.history
  {
    FinishFetch(BeginFetch(s), reply)
  }

  /** The first fetch after mounting ends loading; if it fails, the
      history stays empty. */
  lemma FirstFetchFromMount(reply: HistoryReply)
    ensures !FetchHistory(Mounted, reply).loading
    ensures FetchHistory(Mounted, reply).error.Some? ==> FetchHistory(Mounted, reply).history == []
  {
  }

  /** The status effect: a fetch starts only for an authenticated session;
      otherwise the state is left as it is. */
  function OnStatus(s: HookState, status: SessionStatus): (r: HookState)
    ensures status == Authenticated ==> r == BeginFetch(s)
    ensures status != Authenticated ==> r == s
  {
    if status == Authenticated then BeginFetch(s) else s
  }
}
