/**
 * The OAuth token cache as a state machine over (token, expires_at).
 * `GetToken` is the specification of one `_get_oauth` call: the cache
 * before the call, the two clock readings (before the freshness test and
 * after the reply), and the outcome of the HTTP exchange (used only on a
 * miss) determine the result, the cache after the call and whether a
 * request was sent.
 */
module TokenCache {
  import opened Wrappers
  import opened ClientConfig

  /** Seconds before expiry at which a cached token stops being reused. */
  const SafetyMargin := 30
  /** Lifetime assumed when the reply carries no `expires_in`. */
  const DefaultExpiresIn := 3600

  datatype Cache = Cache(token: Option<string>, expiresAt: int)

  /** The state of a new client: no token, expiry time 0. */
  const Empty := Cache(None, 0)

  /** The fields of the JSON object the token endpoint returns. */
  datatype OAuthBody = OAuthBody(accessToken: Option<string>, expiresIn: Option<int>)

  /**
   * What the GET to the token endpoint produced: no response at all, or a
   * status code with a body that is a JSON object (Some) or not (None).
   */
  datatype OAuthReply = TransportFailure | Response(status: int, body: Option<OAuthBody>)

  datatype Error =
    | MissingCredentials   // the RuntimeError for an unset key or secret
    | Transport            // connection failure or timeout
    | HttpStatus(code: int)  // raise_for_status on a 4xx or 5xx status
    | MalformedBody        // the body is not a JSON object

  datatype Step = Step(result: Result<Option<string>, Error>, cache: Cache, requested: bool)

  /** The cached token may be reused at time `now`. */
  predicate IsFresh(c: Cache, now: int) {
    Truthy(c.token) && now < c.expiresAt - SafetyMargin
  }

  /** `raise_for_status` raises for client and server error statuses. */
  predicate IsErrorStatus(status: int) {
    400 <= status < 600
  }

  function ExpiresIn(b: OAuthBody): (e: int)
    ensures b.expiresIn.None? ==> e == DefaultExpiresIn
    ensures b.expiresIn.Some? ==> e == b.expiresIn.value
  {
    b.expiresIn.GetOr(DefaultExpiresIn)
  }

  /**
   * One `_get_oauth` call: the clock reads `now` at the freshness test and
   * `after` once the reply is in.
   */
  function GetToken(cfg: Config, c: Cache, now: int, reply: OAuthReply, after: int): (s: Step)
    // a request goes out exactly on a miss with both credentials set
    ensures s.requested <==> !IsFresh(c, now) && HasCredentials(cfg)
    // a hit returns the cached token and changes nothing
    ensures IsFresh(c, now) ==> s.result == Success(c.token) && s.cache == c
    // a miss without credentials fails before any request
    ensures !IsFresh(c, now) && !HasCredentials(cfg) ==> s.result == Failure(MissingCredentials)
    // no failure writes the cache
    ensures s.result.Failure? ==> s.cache == c
    // a miss that succeeds stores and returns what the reply carried
    ensures s.requested && s.result.Success? ==>
              && reply.Response? && !IsErrorStatus(reply.status) && reply.body.Some?
              && s.cache == Cache(reply.body.value.accessToken, after + ExpiresIn(reply.body.value))
              && s.result.value == s.cache.token
    // and every well-formed success reply is accepted
    ensures s.requested && reply.Response? && !IsErrorStatus(reply.status) && reply.body.Some? ==>
              s.result.Success?
    // a failed fetch says why: no response, an error status with its code, or no object body
    ensures s.requested && reply.TransportFailure? ==> s.result == Failure(Transport)
    ensures s.requested && reply.Response? && IsErrorStatus(reply.status) ==>
              s.result == Failure(HttpStatus(reply.status))
    ensures s.requested && reply.Response? && !IsErrorStatus(reply.status) && reply.body.None? ==>
              s.result == Failure(MalformedBody)
  {
    if IsFresh(c, now) then
      Step(Success(c.token), c, false)
    else if !HasCredentials(cfg) then
      Step(Failure(MissingCredentials), c, false)
    else
      match reply
      case TransportFailure => Step(Failure(Transport), c, true)
      case Response(status, body) =>
        if IsErrorStatus(status) then Step(Failure(HttpStatus(status)), c, true)
        else if body.None? then Step(Failure(MalformedBody), c, true)
        else
          var token := body.value.accessToken;
          Step(Success(token), Cache(token, after + ExpiresIn(body.value)), true)
  }

  /** A token stored at `after` with lifetime `e` is reused by every call before `after + e - 30`. */
  lemma ReusedWithinLifetime(cfg: Config, c: Cache, now: int, reply: OAuthReply, after: int,
                             later: int, reply': OAuthReply, after': int)
    requires var s := GetToken(cfg, c, now, reply, after);
             s.requested && s.result.Success? && Truthy(s.cache.token)
    requires later < GetToken(cfg, c, now, reply, after).cache.expiresAt - SafetyMargin
    ensures var s := GetToken(cfg, c, now, reply, after);
            GetToken(cfg, s.cache, later, reply', after') == Step(Success(s.cache.token), s.cache, false)
  {
  }

  /**
   * Two calls in the same second send one request: after a successful
   * refresh whose token is non-empty and whose lifetime exceeds the margin,
   * the second call is a hit.
   */
  lemma OneRequestForTwoCalls(cfg: Config, c: Cache, now: int, reply: OAuthReply, reply': OAuthReply)
    requires !IsFresh(c, now) && HasCredentials(cfg)
    requires reply.Response? && !IsErrorStatus(reply.status) && reply.body.Some?
    requires Truthy(reply.body.value.accessToken) && ExpiresIn(reply.body.value) > SafetyMargin
    ensures GetToken(cfg, c, now, reply, now).requested
    ensures !GetToken(cfg, GetToken(cfg, c, now, reply, now).cache, now, reply', now).requested
  {
  }

  /**
   * A refreshed token that is empty or absent, or whose lifetime is at most
   * the margin, is never reused: every later call misses.
   */
  lemma UnusableTokenNeverReused(cfg: Config, c: Cache, now: int, reply: OAuthReply, after: int,
                                 later: int, reply': OAuthReply, after': int)
    requires var s := GetToken(cfg, c, now, reply, after); s.requested && s.result.Success?
    requires reply.Response? && reply.body.Some?
    requires !Truthy(reply.body.value.accessToken) || ExpiresIn(reply.body.value) <= SafetyMargin
    requires after <= later
    ensures var s := GetToken(cfg, c, now, reply, after);
            GetToken(cfg, s.cache, later, reply', after').requested
  {
  }

  /** Inside the margin a stored token is not used: with credentials set, a request is sent. */
  lemma MarginForcesRequest(cfg: Config, token: string, now: int, reply: OAuthReply, after: int)
    requires HasCredentials(cfg)
    ensures var s := GetToken(cfg, Cache(Some(token), now + 10), now, reply, after);
            && s.requested
            && (s.result.Success? ==> reply.Response? && reply.body.Some? && s.result.value == reply.body.value.accessToken)
  {
  }
}
