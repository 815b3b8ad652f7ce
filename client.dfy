/**
 * The Daraja client object: a resolved configuration and a token cache it
 * updates in place. Each gateway operation obtains a token through the
 * cache and, when that succeeds, builds the one POST request it would send.
 * The environment, the clock readings and the token endpoint's reply are
 * parameters.
 */
module Client {
  import opened Wrappers
  import opened ClientConfig
  import opened TokenCache
  import opened Payloads
  import Timestamp
  import Signing
  import Base64
  import Utf8
  import Digits

  /** The outcome of an operation: the request it sends, or why none is sent. */
  type Outcome = Result<Request, Error>

  /** The request an operation sends once `_get_oauth` has produced `result`. */
  function Send(result: Result<Option<string>, Error>, url: string, body: Object): (r: Outcome)
    ensures result.Failure? <==> r.Failure?
    ensures result.Failure? ==> r.error == result.error
    ensures result.Success? ==> r.value.url == url && r.value.body == body
                                && r.value.authorization == Bearer(result.value)
  {
    match result
    case Failure(e) => Failure(e)
    case Success(token) => Success(Request(url, Bearer(token), body))
  }

  class DarajaClient {
    const config: Config
    var token: Option<string>
    var tokenExpiresAt: int

    /** The token cache as a value. */
    function CacheState(): Cache
      reads this
    {
      Cache(token, tokenExpiresAt)
    }

    /** Arguments win when truthy, then the environment, then the sandbox defaults; the cache starts empty. */
    constructor(consumerKey: Option<string>, consumerSecret: Option<string>,
                shortcode: Option<string>, passkey: Option<string>, env: Env)
      ensures config == Resolve(consumerKey, consumerSecret, shortcode, passkey, env)
      ensures CacheState() == TokenCache.Empty
    {
      config := Resolve(consumerKey, consumerSecret, shortcode, passkey, env);
      token := None;
      tokenExpiresAt := 0;
    }

    /** `datetime.utcnow().strftime('%Y%m%d%H%M%S')` for the clock reading `clock`. */
    method GetTimestamp(clock: Timestamp.DateTime) returns (s: string)
      requires Timestamp.Valid(clock)
      ensures |s| == Timestamp.Length && Digits.AllDigits(s)
      ensures Timestamp.Parse(s) == Some(clock)
    {
      s := Timestamp.Format(clock);
      Timestamp.ParseFormat(clock);
    }

    /** The password for `timestamp`; its Base64 decodes to shortcode, passkey and timestamp. */
    method GeneratePassword(timestamp: string) returns (p: string)
      ensures p == Signing.Password(config, timestamp)
      ensures Base64Decodes(p, config.shortcode + config.passkey + timestamp)
    {
      p := Signing.Password(config, timestamp);
      Signing.PasswordDecodes(config, timestamp);
    }

    /**
     * `_get_oauth`: reuse the cached token while it is truthy and more than
     * thirty seconds from expiry; otherwise fail without credentials, or
     * fetch a token and store it with its expiry time.
     */
    method GetOAuth(now: int, reply: OAuthReply, after: int)
      returns (r: Result<Option<string>, Error>, requested: bool)
      modifies this
      ensures Step(r, CacheState(), requested) == GetToken(config, old(CacheState()), now, reply, after)
    {
      if token.Some? && token.value != "" && now < tokenExpiresAt - SafetyMargin {
        return Success(token), false;
      }
      if !(Truthy(config.consumerKey) && Truthy(config.consumerSecret)) {
        return Failure(MissingCredentials), false;
      }
      requested := true;
      match reply {
        case TransportFailure =>
          r := Failure(Transport);
        case Response(status, body) =>
          if 400 <= status < 600 {
            r := Failure(HttpStatus(status));
          } else if body.None? {
            r := Failure(MalformedBody);
          } else {
            var fetched := body.value.accessToken;
            var expiresIn := body.value.expiresIn.GetOr(DefaultExpiresIn);
            token := fetched;
            tokenExpiresAt := after + expiresIn;
            r := Success(fetched);
          }
      }
    }

    /**
     * `simulate_stk_push`: the STK push request, signed with a timestamp from
     * `clock`. An omitted `description` is `None` and stands for "Payment".
     */
    method SimulateStkPush(phone: string, amount: int, description: Option<string>, env: Env,
                           now: int, reply: OAuthReply, after: int, clock: Timestamp.DateTime)
      returns (r: Outcome)
      requires Timestamp.Valid(clock)
      modifies this
      ensures var s := GetToken(config, old(CacheState()), now, reply, after);
              && CacheState() == s.cache
              && r == Send(s.result, config.baseUrl + StkPushPath,
                           StkPushPayload(config, Timestamp.Format(clock), amount, phone,
                                          GetEnvOr(env, CallbackUrlVar, DefaultCallbackUrl),
                                          description.GetOr(DefaultDescription)))
    {
      var tok, _ := GetOAuth(now, reply, after);
      if tok.Failure? {
        return Failure(tok.error);
      }
      var timestamp := GetTimestamp(clock);
      Timestamp.FormatParse(timestamp);
      var callback := GetEnvOr(env, CallbackUrlVar, DefaultCallbackUrl);
      var payload := StkPushPayload(config, timestamp, amount, phone, callback, description.GetOr(DefaultDescription));
      r := Success(Request(config.baseUrl + StkPushPath, Bearer(tok.value), payload));
    }

    /** `query_transaction_status`: the status query for `checkoutRequestId`. */
    method QueryTransactionStatus(checkoutRequestId: string, now: int, reply: OAuthReply, after: int,
                                  clock: Timestamp.DateTime)
      returns (r: Outcome)
      requires Timestamp.Valid(clock)
      modifies this
      ensures var s := GetToken(config, old(CacheState()), now, reply, after);
              && CacheState() == s.cache
              && r == Send(s.result, config.baseUrl + QueryPath,
                           QueryPayload(config, Timestamp.Format(clock), checkoutRequestId))
    {
      var tok, _ := GetOAuth(now, reply, after);
      if tok.Failure? {
        return Failure(tok.error);
      }
      var timestamp := GetTimestamp(clock);
      Timestamp.FormatParse(timestamp);
      var payload := QueryPayload(config, timestamp, checkoutRequestId);
      r := Success(Request(config.baseUrl + QueryPath, Bearer(tok.value), payload));
    }

    /** `register_callback_url`: one URL registered for both confirmation and validation. */
    method RegisterCallbackUrl(url: string, now: int, reply: OAuthReply, after: int)
      returns (r: Outcome)
      modifies this
      ensures var s := GetToken(config, old(CacheState()), now, reply, after);
              && CacheState() == s.cache
              && r == Send(s.result, config.baseUrl + RegisterPath, RegisterPayload(config, url))
    {
      var tok, _ := GetOAuth(now, reply, after);
      if tok.Failure? {
        return Failure(tok.error);
      }
      var payload := RegisterPayload(config, url);
      r := Success(Request(config.baseUrl + RegisterPath, Bearer(tok.value), payload));
    }

    /** `generate_test_credentials`: the sandbox values, whatever this client was configured with. */
    method GenerateTestCredentials() returns (p: Object)
      ensures WellFormed(p) && p.keys == TestCredentialKeys
      ensures Get(p, Shortcode) == Some(Str(DefaultShortcode))
      ensures Get(p, Passkey) == Some(Str(DefaultPasskey))
      ensures Get(p, Notes) == Some(Str(TestNotes))
    {
      p := TestCredentials();
    }
  }

  /** `b64` is the Base64 of the UTF-8 bytes of `text`, and decodes back to it. */
  predicate Base64Decodes(b64: string, text: string) {
    Base64.Decode(b64) == Some(Utf8.Encode(text))
    && Utf8.Decode(Base64.Decode(b64).value) == Some(text)
  }

  /** A new client's first token request goes out whenever both credentials are set. */
  lemma FirstCallRequests(cfg: Config, now: int, reply: OAuthReply, after: int)
    requires HasCredentials(cfg)
    ensures GetToken(cfg, TokenCache.Empty, now, reply, after).requested
  {
  }
}
