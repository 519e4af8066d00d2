/**
 * The browser-side API client: bearer-token attachment, the token fields and
 * their mirror in local storage, and the single-flight refresh protocol that
 * runs when a protected request comes back 401.
 *
 * The asynchronous `request` is cut at its await points into transitions of
 * a `Client` object: `BeginRequest` (send, and on a 401 either start the one
 * refresh, sending the refresh call at once, or join the queue),
 * `FinishRefresh` (the refresh call settles, the queue is drained), and the
 * pure continuations `AfterRefresh` (the caller that started the refresh)
 * and `AfterSettlement` (a queued caller). Any interleaving of concurrent
 * requests is a sequence of these calls.
 */
module ApiClient {
  import opened Wrappers
  import opened Text

  /** Default of `VITE_API_URL`. */
  const ApiBaseUrl: string := "http://localhost:8000/api"

  const AccessTokenKey: string := "access_token"
  const RefreshTokenKey: string := "refresh_token"
  const UserKey: string := "user"

  /** Path fragments of the endpoints sent without a bearer token. */
  const PublicEndpoints: seq<string> := [
    "/auth/login/citizen/",
    "/auth/login/authority/",
    "/auth/logout/",
    "/auth/refresh/",
    "/citizens/",
    "/categories/",
    "/subcategories/"
  ]

  /** `paths.some(ep => endpoint.includes(ep))`. */
  predicate IncludesAny(endpoint: string, paths: seq<string>) {
    |paths| > 0 && (Contains(endpoint, paths[0]) || IncludesAny(endpoint, paths[1..]))
  }

  /** The public-endpoint test: a substring match against the allow-list,
      overridden for every endpoint that mentions `/reports`. Any endpoint
      containing `/citizens/` is public, whatever its method. */
  predicate IsPublicEndpoint(endpoint: string) {
    IncludesAny(endpoint, PublicEndpoints) && !Contains(endpoint, "/reports")
  }

  lemma {:induction false} IncludesAnyIff(endpoint: string, paths: seq<string>)
    ensures IncludesAny(endpoint, paths) <==> exists k :: 0 <= k < |paths| && Contains(endpoint, paths[k])
  {
    if paths != [] {
      IncludesAnyIff(endpoint, paths[1..]);
      assert forall k :: 1 <= k < |paths| ==> paths[k] == paths[1..][k - 1];
    }
  }

  /** An endpoint is public exactly when one of the seven listed paths occurs
      in it at some position and `/reports` occurs nowhere in it. */
  lemma PublicEndpointIff(endpoint: string)
    ensures IsPublicEndpoint(endpoint) <==>
      (exists k: nat, i: nat :: k < |PublicEndpoints| && InfixAt(endpoint, PublicEndpoints[k], i)) &&
      !(exists i: nat :: InfixAt(endpoint, "/reports", i))
  {
    IncludesAnyIff(endpoint, PublicEndpoints);
    ContainsIffInfix(endpoint, "/reports");
    forall k | 0 <= k < |PublicEndpoints| {
      ContainsIffInfix(endpoint, PublicEndpoints[k]);
    }
  }

  /** The detail path of a citizen is public, so `PUT` and `DELETE /citizens/3/`
      are sent without a token. */
  lemma CitizenDetailIsPublic()
    ensures IsPublicEndpoint("/citizens/3/")
  {
    assert StartsWith("/citizens/3/", "/citizens/");
    assert IncludesAny("/citizens/3/", PublicEndpoints[4..]);
    NotContainsReports("/citizens/3/");
  }

  /** The refresh endpoint is public: the refresh call never carries the expired token. */
  lemma RefreshIsPublic()
    ensures IsPublicEndpoint("/auth/refresh/")
  {
    assert StartsWith("/auth/refresh/", "/auth/refresh/");
    assert IncludesAny("/auth/refresh/", PublicEndpoints[3..]);
    NotContainsReports("/auth/refresh/");
  }

  /** A citizen path that mentions reports is protected, as are the report endpoints. */
  lemma ReportPathsAreProtected()
    ensures !IsPublicEndpoint("/citizens/3/reports/")
    ensures !IsPublicEndpoint("/reports/")
  {
    assert "/citizens/3/reports/"[11..19] == "/reports";
    assert InfixAt("/citizens/3/reports/", "/reports", 11);
    ContainsIffInfix("/citizens/3/reports/", "/reports");
    assert StartsWith("/reports/", "/reports");
  }

  /** A string in which the letter 'p' does not occur cannot contain "/reports". */
  lemma NotContainsReports(s: string)
    requires forall i :: 0 <= i < |s| ==> s[i] != 'p'
    ensures !Contains(s, "/reports")
  {
    ContainsIffInfix(s, "/reports");
    forall i: nat ensures !InfixAt(s, "/reports", i) {
      if i + 8 <= |s| {
        assert s[i..i + 8][3] == s[i + 3] != 'p';
      }
    }
  }

  /** The `Authorization` header of an outgoing request, if any. */
  function AuthorizationHeader(accessToken: Option<string>, endpoint: string): Option<string> {
    if Truthy(accessToken) && !IsPublicEndpoint(endpoint) then Some("Bearer " + accessToken.value) else None
  }

  /** A bearer header is attached exactly when a (non-empty) access token is
      held and the endpoint is not public; it carries that token after the
      seven-character scheme `"Bearer "`. Report endpoints always carry a held
      token, public ones never do. */
  lemma AuthorizationHeaderSpec(accessToken: Option<string>, endpoint: string)
    ensures AuthorizationHeader(accessToken, endpoint).Some? <==> Truthy(accessToken) && !IsPublicEndpoint(endpoint)
    ensures AuthorizationHeader(accessToken, endpoint).Some? ==>
      StartsWith(AuthorizationHeader(accessToken, endpoint).value, "Bearer ") &&
      AuthorizationHeader(accessToken, endpoint).value[7..] == accessToken.value
    ensures Contains(endpoint, "/reports") && Truthy(accessToken) ==> AuthorizationHeader(accessToken, endpoint).Some?
    ensures IsPublicEndpoint(endpoint) ==> AuthorizationHeader(accessToken, endpoint) == None
  {
  }

  /** The URL a request goes to: absolute URLs are used as they are. */
  function RequestUrl(endpoint: string): string {
    if StartsWith(endpoint, "http") then endpoint else ApiBaseUrl + endpoint
  }

  // ---------------------------------------------------------------------
  // Replies and errors (the network is a parameter)

  /** What the client can throw to its caller. */
  datatype ClientError =
    | NoRefreshToken                      // 'No refresh token available'
    | RefreshHttpFailed                   // 'Token refresh failed'
    | InvalidRefreshResponse              // 'Invalid refresh response'
    | Transport(reason: string)           // fetch or JSON parsing rejected
    | Api(status: nat, message: string)   // a non-ok response of the endpoint

  /** The parsed JSON body of a response, reduced to what the client reads. */
  datatype Body = Body(message: Option<string>, detail: Option<string>, payload: string)

  datatype HttpReply =
    | TransportFailure(reason: string)
    | HttpResponse(status: nat, statusText: string, body: Body)

  /** The reply of `POST /auth/refresh/`: `success` and `data.access` of its body. */
  datatype RefreshReply =
    | RefreshTransportFailure(reason: string)
    | RefreshResponse(status: nat, success: bool, access: Option<string>)

  predicate IsOk(status: nat) {
    200 <= status <= 299
  }

  /** `data.message || data.detail || 'HTTP <status>: <statusText>'`. */
  function ErrorMessage(status: nat, statusText: string, body: Body): string {
    FirstTruthy([body.message, body.detail]).GetOr("HTTP " + NatToDecimal(status) + ": " + statusText)
  }

  /** The message of a failed request never is empty, and it is the server's
      own message whenever the server sent one. */
  lemma ErrorMessageSpec(status: nat, statusText: string, body: Body)
    ensures ErrorMessage(status, statusText, body) != ""
    ensures Truthy(body.message) ==> ErrorMessage(status, statusText, body) == body.message.value
    ensures !Truthy(body.message) && Truthy(body.detail) ==> ErrorMessage(status, statusText, body) == body.detail.value
  {
    var alts := [body.message, body.detail];
    if Truthy(body.message) {
      assert FirstTruthy(alts) == body.message;
    } else if Truthy(body.detail) {
      assert alts[1..] == [body.detail];
      assert FirstTruthy([body.detail]) == body.detail;
      assert FirstTruthy(alts) == FirstTruthy(alts[1..]);
    } else {
      assert ("HTTP " + NatToDecimal(status) + ": " + statusText)[0] == 'H';
    }
  }

  /** Outcome of a request whose response the refresh protocol does not
      intercept: transport errors and non-ok statuses are thrown. */
  datatype RequestOutcome = Completed(payload: string) | Failed(error: ClientError)

  function PlainOutcome(reply: HttpReply): RequestOutcome {
    match reply
    case TransportFailure(reason) => Failed(Transport(reason))
    case HttpResponse(status, statusText, body) =>
      if IsOk(status) then Completed(body.payload)
      else Failed(Api(status, ErrorMessage(status, statusText, body)))
  }

  /** The refresh call once it has been made: non-ok status, or a body
      without `success` and a non-empty `data.access`, is a failure. */
  function RefreshOutcome(reply: RefreshReply): Result<string, ClientError> {
    match reply
    case RefreshTransportFailure(reason) => Err(Transport(reason))
    case RefreshResponse(status, success, access) =>
      if !IsOk(status) then Err(RefreshHttpFailed)
      else if success && Truthy(access) then Ok(access.value)
      else Err(InvalidRefreshResponse)
  }

  /** A successful refresh yields a non-empty token, the one in the reply. */
  lemma RefreshOutcomeSpec(reply: RefreshReply)
    ensures RefreshOutcome(reply).Ok? <==>
      reply.RefreshResponse? && IsOk(reply.status) && reply.success && Truthy(reply.access)
    ensures RefreshOutcome(reply).Ok? ==> RefreshOutcome(reply).value == reply.access.value != ""
  {
  }

  // ---------------------------------------------------------------------
  // The single-flight protocol as a pure state machine

  type WaiterId = nat

  /** `isRefreshing` and the ids of the callers in `failedQueue`. */
  datatype RefreshState = RefreshState(refreshing: bool, queue: seq<WaiterId>)

  const Idle := RefreshState(false, [])

  /** The protocol's invariant: callers wait only while a refresh is in flight. */
  predicate QueueOnlyWhileRefreshing(s: RefreshState) {
    !s.refreshing ==> s.queue == []
  }

  /** What a request does with its response: a 401 from a protected endpoint
      either joins the queue (a refresh is in flight) or starts the refresh. */
  datatype Reaction = NotIntercepted | Enqueued | StartRefresh

  function On401(s: RefreshState, isPublic: bool, w: WaiterId): (RefreshState, Reaction) {
    if isPublic then (s, NotIntercepted)
    else if s.refreshing then (RefreshState(true, s.queue + [w]), Enqueued)
    else (RefreshState(true, s.queue), StartRefresh)
  }

  /** A 401 keeps the invariant, and after a protected 401 a refresh is in flight. */
  lemma On401Preserves(s: RefreshState, isPublic: bool, w: WaiterId)
    requires QueueOnlyWhileRefreshing(s)
    ensures QueueOnlyWhileRefreshing(On401(s, isPublic, w).0)
    ensures !isPublic ==> On401(s, isPublic, w).0.refreshing
    ensures On401(s, isPublic, w).1 == StartRefresh ==> !s.refreshing && On401(s, isPublic, w).0.queue == []
  {
  }

  /** Several requests receiving a 401 one after the other, before any refresh settles. */
  function Burst(s: RefreshState, ws: seq<WaiterId>): (RefreshState, seq<Reaction>)
    decreases |ws|
  {
    if ws == [] then (s, [])
    else
      var (s1, r) := On401(s, false, ws[0]);
      var (s2, rs) := Burst(s1, ws[1..]);
      (s2, [r] + rs)
  }

  /** While a refresh is in flight, every further 401 only joins the queue, in arrival order. */
  lemma {:induction false} BurstWhileRefreshing(q: seq<WaiterId>, ws: seq<WaiterId>)
    ensures Burst(RefreshState(true, q), ws).0 == RefreshState(true, q + ws)
    ensures |Burst(RefreshState(true, q), ws).1| == |ws|
    ensures forall i :: 0 <= i < |ws| ==> Burst(RefreshState(true, q), ws).1[i] == Enqueued
    decreases |ws|
  {
    if ws != [] {
      BurstWhileRefreshing(q + [ws[0]], ws[1..]);
      assert q + [ws[0]] + ws[1..] == q + ws;
    }
  }

  /** Single flight: when N >= 1 protected requests hit 401 from an idle client,
      exactly one of them, the first, starts a refresh; the other N - 1 wait in
      the queue in arrival order. */
  lemma {:induction false} SingleFlight(ws: seq<WaiterId>)
    requires |ws| >= 1
    ensures |Burst(Idle, ws).1| == |ws|
    ensures Burst(Idle, ws).1[0] == StartRefresh
    ensures forall i :: 1 <= i < |ws| ==> Burst(Idle, ws).1[i] == Enqueued
    ensures Burst(Idle, ws).0 == RefreshState(true, ws[1..])
  {
    BurstWhileRefreshing([], ws[1..]);
    assert [] + ws[1..] == ws[1..];
  }

  /** The refresh state after the initiator's `catch` block: nothing in
      flight and nobody queued, whatever the state was. */
  function AfterCatch(s: RefreshState): RefreshState {
    Idle
  }

  /** The catch block is also reached when the initiator's retry fetch
      rejects, after its own refresh has ended. If by then another caller has
      started a second refresh, that refresh is still in flight, yet the
      flag is cleared: the next protected 401 starts a further refresh
      beside it, and the callers queued behind the second refresh have been
      rejected with the retry's error. */
  lemma RetryRejectionBreaksSingleFlight(b: WaiterId, c: WaiterId, ws: seq<WaiterId>)
    requires |ws| >= 1
    ensures Burst(Idle, [b, c]).0 == RefreshState(true, [c])
    ensures Burst(Idle, [b, c]).1 == [StartRefresh, Enqueued]
    ensures AfterCatch(Burst(Idle, [b, c]).0).queue == []
    ensures Burst(AfterCatch(Burst(Idle, [b, c]).0), ws).1[0] == StartRefresh
  {
    SingleFlight([b, c]);
    assert [b, c][1..] == [c];
    SingleFlight(ws);
  }

  /** The intended handling of a rejected retry: the error belongs to the one
      caller whose retry failed and leaves the shared refresh state alone. */
  function AfterRetryRejected(s: RefreshState): RefreshState {
    s
  }

  /** With the intended handling, a refresh in flight when a retry rejects
      stays the only one: every further 401 joins its queue, in order. */
  lemma RetryRejectionKeepsSingleFlight(q: seq<WaiterId>, ws: seq<WaiterId>)
    ensures AfterRetryRejected(Idle) == Idle
    ensures Burst(AfterRetryRejected(RefreshState(true, q)), ws).0 == RefreshState(true, q + ws)
    ensures |Burst(AfterRetryRejected(RefreshState(true, q)), ws).1| == |ws|
    ensures forall i :: 0 <= i < |ws| ==> Burst(AfterRetryRejected(RefreshState(true, q)), ws).1[i] == Enqueued
  {
    BurstWhileRefreshing(q, ws);
  }

  /** How a queued caller's promise is settled by `processQueue`. */
  datatype Settlement = Resolved(token: Option<string>) | Rejected(error: ClientError)

  /** The settlement every queued caller receives when the refresh ends with `r`. */
  function SettlementOf(r: Result<string, ClientError>): Settlement {
    match r
    case Ok(t) => Resolved(Some(t))
    case Err(e) => Rejected(e)
  }

  /** `processQueue`: each queued caller, in queue order, gets the same settlement. */
  function SettleAll(queue: seq<WaiterId>, s: Settlement): seq<(WaiterId, Settlement)> {
    seq(|queue|, i requires 0 <= i < |queue| => (queue[i], s))
  }

  /** One fetch the client made: where, and with which `Authorization` header. */
  datatype Sent = Sent(url: string, authorization: Option<string>)

  /** The caller that started the refresh: on success it retries once with the
      new token and returns the retry's JSON without checking its status; on
      failure it throws the refresh error. */
  function AfterRefresh(r: Result<string, ClientError>, url: string, retry: HttpReply): (RequestOutcome, Option<Sent>) {
    match r
    case Ok(t) =>
      (if retry.TransportFailure? then Failed(Transport(retry.reason)) else Completed(retry.body.payload),
       Some(Sent(url, Some("Bearer " + t))))
    case Err(e) => (Failed(e), None)
  }

  /** A queued caller once its promise settles: resolved, it retries with the
      token it was given (again without a status check); rejected, it fails. */
  function AfterSettlement(s: Settlement, url: string, retry: HttpReply): (RequestOutcome, Option<Sent>) {
    match s
    case Resolved(t) =>
      (if retry.TransportFailure? then Failed(Transport(retry.reason)) else Completed(retry.body.payload),
       Some(Sent(url, Some("Bearer " + t.GetOr("null")))))
    case Rejected(e) => (Failed(e), None)
  }

  /** No partial resolution: a queued caller ends exactly as the caller that
      started the refresh would with the same retry reply - all of them retry
      once with the same new token, or all fail with the same error. The
      outcomes agree; the side effects do not: when the initiator's retry
      fetch rejects, its `catch` block also resets the shared refresh state
      (`Client.FinishRetry`), which a queued caller's failed retry never does. */
  lemma QueuedLikeInitiator(r: Result<string, ClientError>, url: string, retry: HttpReply)
    ensures AfterSettlement(SettlementOf(r), url, retry) == AfterRefresh(r, url, retry)
    ensures r.Ok? ==> AfterRefresh(r, url, retry).1 == Some(Sent(url, Some("Bearer " + r.value)))
    ensures r.Err? ==> AfterRefresh(r, url, retry) == (Failed(r.error), None)
  {
  }

  /** The `POST /auth/refresh/` call: where, and the refresh token in its body. */
  datatype RefreshCall = RefreshCall(url: string, refresh: string)

  const RefreshCallUrl: string := ApiBaseUrl + "/auth/refresh/"

  /** Where a request stands after its first response. A caller that runs
      the refresh has already made the refresh call, or found no refresh
      token (`None`), by the time it first waits. */
  datatype RequestStep =
    | Finished(outcome: RequestOutcome)
    | WaitingForRefresh                          // joined the queue
    | RefreshStarted(call: Option<RefreshCall>)  // this caller runs the refresh

  // ---------------------------------------------------------------------
  // The client object

  class Client {
    var accessToken: Option<string>
    var refreshToken: Option<string>
    var isRefreshing: bool
    var failedQueue: seq<WaiterId>
    /** The `localStorage` slots. */
    var storage: map<string, string>
    /** Every queued caller settled so far, in order (the promises' resolve/reject calls). */
    var settled: seq<(WaiterId, Settlement)>
    /** Set when the client sends the browser to `/auth`. */
    var redirectedToAuth: bool

    ghost predicate Valid()
      reads this
    {
      QueueOnlyWhileRefreshing(State())
    }

    ghost function State(): RefreshState
      reads this
    {
      RefreshState(isRefreshing, failedQueue)
    }

    /** `new ApiClient()` over the current contents of local storage. */
    constructor (stored: map<string, string>)
      ensures Valid() && !isRefreshing && failedQueue == [] && settled == [] && !redirectedToAuth
      ensures storage == stored
      ensures accessToken == (if Truthy(Lookup(stored, AccessTokenKey)) then Lookup(stored, AccessTokenKey) else None)
      ensures refreshToken == (if Truthy(Lookup(stored, RefreshTokenKey)) then Lookup(stored, RefreshTokenKey) else None)
    {
      accessToken := None;
      refreshToken := None;
      isRefreshing := false;
      failedQueue := [];
      storage := stored;
      settled := [];
      redirectedToAuth := false;
      new;
      RestoreTokens();
    }

    /** Adopt the stored tokens that are present and non-empty; keep the others. */
    method RestoreTokens()
      modifies this
      ensures refreshToken == (if Truthy(Lookup(storage, RefreshTokenKey)) then Lookup(storage, RefreshTokenKey) else old(refreshToken))
      ensures accessToken == (if Truthy(Lookup(storage, AccessTokenKey)) then Lookup(storage, AccessTokenKey) else old(accessToken))
      ensures storage == old(storage) && isRefreshing == old(isRefreshing) && failedQueue == old(failedQueue)
      ensures settled == old(settled) && redirectedToAuth == old(redirectedToAuth)
    {
      var stored := Lookup(storage, RefreshTokenKey);
      if Truthy(stored) {
        refreshToken := stored;
      }
      stored := Lookup(storage, AccessTokenKey);
      if Truthy(stored) {
        accessToken := stored;
      }
    }

    /** Both fields take the arguments; only non-empty arguments are written
        to storage, so an empty or missing one leaves the old stored value. */
    method SetTokens(access: Option<string>, refresh: Option<string>)
      modifies this
      ensures accessToken == access && refreshToken == refresh
      ensures Lookup(storage, AccessTokenKey) == if Truthy(access) then access else Lookup(old(storage), AccessTokenKey)
      ensures Lookup(storage, RefreshTokenKey) == if Truthy(refresh) then refresh else Lookup(old(storage), RefreshTokenKey)
      ensures forall k :: k != AccessTokenKey && k != RefreshTokenKey ==> Lookup(storage, k) == Lookup(old(storage), k)
      ensures isRefreshing == old(isRefreshing) && failedQueue == old(failedQueue)
      ensures settled == old(settled) && redirectedToAuth == old(redirectedToAuth)
    {
      accessToken := access;
      refreshToken := refresh;
      if Truthy(access) {
        storage := storage[AccessTokenKey := access.value];
      }
      if Truthy(refresh) {
        storage := storage[RefreshTokenKey := refresh.value];
      }
    }

    /** Forget both tokens and remove the three session slots from storage. */
    method ClearTokens()
      modifies this
      ensures accessToken == None && refreshToken == None
      ensures storage == old(storage) - {AccessTokenKey, RefreshTokenKey, UserKey}
      ensures isRefreshing == old(isRefreshing) && failedQueue == old(failedQueue)
      ensures settled == old(settled) && redirectedToAuth == old(redirectedToAuth)
    {
      accessToken := None;
      refreshToken := None;
      storage := storage - {AccessTokenKey, RefreshTokenKey, UserKey};
    }

    method GetAccessToken() returns (t: Option<string>)
      ensures t == accessToken
    {
      t := accessToken;
    }

    /** Settle every queued caller - rejected when an error is given, else
        resolved with the token - and empty the queue. */
    method ProcessQueue(error: Option<ClientError>, token: Option<string>)
      modifies this
      ensures failedQueue == []
      ensures settled == old(settled) + SettleAll(old(failedQueue), if error.Some? then Rejected(error.value) else Resolved(token))
      ensures accessToken == old(accessToken) && refreshToken == old(refreshToken) && storage == old(storage)
      ensures isRefreshing == old(isRefreshing) && redirectedToAuth == old(redirectedToAuth)
    {
      var outcome := if error.Some? then Rejected(error.value) else Resolved(token);
      for i := 0 to |failedQueue|
        invariant failedQueue == old(failedQueue)
        invariant settled == old(settled) + SettleAll(failedQueue[..i], outcome)
        invariant accessToken == old(accessToken) && refreshToken == old(refreshToken) && storage == old(storage)
        invariant isRefreshing == old(isRefreshing) && redirectedToAuth == old(redirectedToAuth)
      {
        assert failedQueue[..i + 1] == failedQueue[..i] + [failedQueue[i]];
        settled := settled + [(failedQueue[i], outcome)];
      }
      assert failedQueue[..|failedQueue|] == failedQueue;
      failedQueue := [];
    }

    /** The part of `refreshAccessToken` that runs before its first `await`,
        that is, at once when the refresh starts: without a refresh token it
        throws (`None`, and no call is made); otherwise it sends the refresh
        call carrying the token held now. Nothing changes. */
    method SendRefresh() returns (call: Option<RefreshCall>)
      ensures call == (if Truthy(refreshToken) then Some(RefreshCall(RefreshCallUrl, refreshToken.value)) else None)
      ensures call.Some? ==> call.value.refresh != ""
    {
      if !Truthy(refreshToken) {
        return None;
      }
      call := Some(RefreshCall(RefreshCallUrl, refreshToken.value));
    }

    /** The rest of `refreshAccessToken`, once the call made by `SendRefresh`
        settles: if no call was made it has thrown and nothing changes;
        otherwise, on success it replaces only the in-memory access token
        (storage keeps the old one), and on any failure clears every token,
        whatever tokens are held by then. */
    method RefreshAccessToken(call: Option<RefreshCall>, reply: RefreshReply) returns (r: Result<string, ClientError>)
      modifies this
      ensures r == (if call.Some? then RefreshOutcome(reply) else Err(NoRefreshToken))
      ensures call.None? ==>
        accessToken == old(accessToken) && refreshToken == old(refreshToken) && storage == old(storage)
      ensures call.Some? && r.Ok? ==>
        accessToken == Some(r.value) && refreshToken == old(refreshToken) && storage == old(storage)
      ensures call.Some? && r.Err? ==>
        accessToken == None && refreshToken == None &&
        storage == old(storage) - {AccessTokenKey, RefreshTokenKey, UserKey}
      ensures isRefreshing == old(isRefreshing) && failedQueue == old(failedQueue)
      ensures settled == old(settled) && redirectedToAuth == old(redirectedToAuth)
    {
      if call.None? {
        return Err(NoRefreshToken);
      }
      r := RefreshOutcome(reply);
      if r.Ok? {
        accessToken := Some(r.value);
      } else {
        ClearTokens();
      }
    }

    /** The start of `request`: send with the bearer header the classification
        allows; a 401 from a protected endpoint joins the queue while a refresh
        is in flight and otherwise marks a refresh in flight and sends the
        refresh call with the refresh token held now; every other response
        finishes the request. */
    method BeginRequest(endpoint: string, waiter: WaiterId, first: HttpReply) returns (step: RequestStep, sent: Sent)
      requires Valid()
      modifies this
      ensures Valid()
      ensures sent == Sent(RequestUrl(endpoint), AuthorizationHeader(old(accessToken), endpoint))
      ensures !Intercepted(endpoint, first) ==> step == Finished(PlainOutcome(first)) && State() == old(State())
      ensures Intercepted(endpoint, first) ==>
        State() == On401(old(State()), false, waiter).0 &&
        step == (if On401(old(State()), false, waiter).1 == Enqueued then WaitingForRefresh
                 else RefreshStarted(if Truthy(old(refreshToken)) then Some(RefreshCall(RefreshCallUrl, old(refreshToken).value)) else None))
      ensures accessToken == old(accessToken) && refreshToken == old(refreshToken) && storage == old(storage)
      ensures settled == old(settled) && redirectedToAuth == old(redirectedToAuth)
    {
      sent := Sent(RequestUrl(endpoint), AuthorizationHeader(accessToken, endpoint));
      if Intercepted(endpoint, first) {
        var reaction := OnUnauthorized(endpoint, waiter);
        if reaction == Enqueued {
          step := WaitingForRefresh;
        } else {
          var call := SendRefresh();
          step := RefreshStarted(call);
        }
      } else {
        step := Finished(PlainOutcome(first));
      }
    }

    /** A 401 on `endpoint`: the queue-or-start decision of the protocol. */
    method OnUnauthorized(endpoint: string, waiter: WaiterId) returns (reaction: Reaction)
      requires Valid()
      modifies this
      ensures Valid()
      ensures (State(), reaction) == On401(old(State()), IsPublicEndpoint(endpoint), waiter)
      ensures accessToken == old(accessToken) && refreshToken == old(refreshToken) && storage == old(storage)
      ensures settled == old(settled) && redirectedToAuth == old(redirectedToAuth)
    {
      if IsPublicEndpoint(endpoint) {
        reaction := NotIntercepted;
      } else if isRefreshing {
        failedQueue := failedQueue + [waiter];
        reaction := Enqueued;
      } else {
        isRefreshing := true;
        reaction := StartRefresh;
      }
    }

    /** The refresh succeeded: no longer in flight, and every queued caller is
        resolved with the new token. This runs even when another caller's
        `catch` has already cleared the flag while this refresh was in
        flight; the queue is then empty. */
    method RefreshSucceeded(token: string)
      requires Valid()
      modifies this
      ensures Valid() && State() == Idle
      ensures settled == old(settled) + SettleAll(old(failedQueue), Resolved(Some(token)))
      ensures accessToken == old(accessToken) && refreshToken == old(refreshToken) && storage == old(storage)
      ensures redirectedToAuth == old(redirectedToAuth)
    {
      isRefreshing := false;
      ProcessQueue(None, Some(token));
    }

    /** The `catch` block of the caller that started the refresh, reached when
        the refresh fails or when the retry's fetch rejects: no refresh counts
        as in flight any more, every caller queued by then is rejected with the
        error, and the browser is sent to `/auth`. */
    method CatchRefreshError(error: ClientError)
      requires Valid()
      modifies this
      ensures Valid() && State() == AfterCatch(old(State()))
      ensures settled == old(settled) + SettleAll(old(failedQueue), Rejected(error))
      ensures redirectedToAuth
      ensures accessToken == old(accessToken) && refreshToken == old(refreshToken) && storage == old(storage)
    {
      isRefreshing := false;
      ProcessQueue(Some(error), None);
      redirectedToAuth := true;
    }

    /** The caller that started the refresh awaits it: `call` is what
        `BeginRequest` sent when the refresh started (`None` when no refresh
        token was held then), so the outcome depends on that call and its
        reply, not on the tokens held when it settles. The queue is drained
        exactly once with the outcome, which the caller continues with
        (`AfterRefresh`). The flag need not be set any more when the refresh
        settles: a rejected retry of an earlier initiator may have cleared it. */
    method FinishRefresh(call: Option<RefreshCall>, reply: RefreshReply) returns (r: Result<string, ClientError>)
      requires Valid()
      modifies this
      ensures Valid() && State() == Idle
      ensures r == (if call.Some? then RefreshOutcome(reply) else Err(NoRefreshToken))
      ensures settled == old(settled) + SettleAll(old(failedQueue), SettlementOf(r))
      ensures redirectedToAuth == (old(redirectedToAuth) || r.Err?)
      ensures r.Ok? ==> accessToken == Some(r.value) && refreshToken == old(refreshToken) && storage == old(storage)
      ensures r.Err? && call.Some? ==>
        accessToken == None && refreshToken == None &&
        storage == old(storage) - {AccessTokenKey, RefreshTokenKey, UserKey}
      ensures r.Err? && call.None? ==>
        accessToken == old(accessToken) && refreshToken == old(refreshToken) && storage == old(storage)
    {
      r := RefreshAccessToken(call, reply);
      if r.Ok? {
        RefreshSucceeded(r.value);
      } else {
        CatchRefreshError(r.error);
      }
    }

    /** The retry of the caller that started the refresh, once the refresh
        succeeded with `token`: sent with the new token; a response ends the
        request with its JSON and leaves the client alone, while a rejected
        fetch lands in the same `catch` as a failed refresh, whatever refresh
        other callers have started in the meantime. */
    method FinishRetry(token: string, url: string, retry: HttpReply) returns (outcome: RequestOutcome, sent: Sent)
      requires Valid()
      modifies this
      ensures Valid()
      ensures (outcome, Some(sent)) == AfterRefresh(Ok(token), url, retry)
      ensures retry.TransportFailure? ==>
        State() == AfterCatch(old(State())) && redirectedToAuth &&
        settled == old(settled) + SettleAll(old(failedQueue), Rejected(Transport(retry.reason)))
      ensures retry.HttpResponse? ==>
        State() == old(State()) && settled == old(settled) && redirectedToAuth == old(redirectedToAuth)
      ensures accessToken == old(accessToken) && refreshToken == old(refreshToken) && storage == old(storage)
    {
      sent := Sent(url, Some("Bearer " + token));
      if retry.TransportFailure? {
        outcome := Failed(Transport(retry.reason));
        CatchRefreshError(outcome.error);
      } else {
        outcome := Completed(retry.body.payload);
      }
    }
  }

  /** The refresh call carries the refresh token held when the refresh
      starts: clearing the tokens while it is in flight (a logout, or another
      caller's failed refresh) does not stop a successful reply from
      completing the refresh. */
  method TokensClearedDuringRefresh(refresh: string, endpoint: string, first: HttpReply, access: string)
    returns (r: Result<string, ClientError>, call: Option<RefreshCall>)
    requires refresh != "" && access != ""
    requires Intercepted(endpoint, first)
    ensures call == Some(RefreshCall(RefreshCallUrl, refresh))
    ensures r == Ok(access)
  {
    var c := new Client(map[RefreshTokenKey := refresh]);
    assert Lookup(c.storage, RefreshTokenKey) == Some(refresh);
    var step, _ := c.BeginRequest(endpoint, 0, first);
    assert step.RefreshStarted?;
    call := step.call;
    c.ClearTokens();
    r := c.FinishRefresh(call, RefreshResponse(200, true, Some(access)));
  }

  /** `localStorage.getItem(key)`: the stored string, or null. */
  function Lookup(storage: map<string, string>, key: string): Option<string> {
    if key in storage then Some(storage[key]) else None
  }

  /** The response is a 401 that the refresh protocol handles. */
  predicate Intercepted(endpoint: string, reply: HttpReply) {
    reply.HttpResponse? && reply.status == 401 && !IsPublicEndpoint(endpoint)
  }
}
