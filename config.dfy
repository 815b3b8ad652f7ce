/**
 * The client's credentials and endpoints, resolved once at construction:
 * an explicit argument wins, else the environment, else a sandbox default.
 * The process environment is an explicit map.
 */
module ClientConfig {
  import opened Wrappers

  type Env = map<string, string>

  const ConsumerKeyVar := "DARAJA_CONSUMER_KEY"
  const ConsumerSecretVar := "DARAJA_CONSUMER_SECRET"
  const ShortcodeVar := "DARAJA_SHORTCODE"
  const PasskeyVar := "DARAJA_PASSKEY"
  const BaseUrlVar := "DARAJA_BASE_URL"
  const CallbackUrlVar := "DARAJA_CALLBACK_URL"

  const DefaultShortcode := "174379"
  const DefaultPasskey := "bfb279f9aa9bdbcf1xxxxxxxxxxxxxxxxxxxxxxxxxxxx"
  const DefaultBaseUrl := "https://sandbox.safaricom.co.ke"
  const DefaultCallbackUrl := "https://example.com/mpesa/callback"

  datatype Config = Config(
    consumerKey: Option<string>,
    consumerSecret: Option<string>,
    shortcode: string,
    passkey: string,
    baseUrl: string)

  /** Python truthiness of an optional string: present and non-empty. */
  predicate Truthy(s: Option<string>) {
    s.Some? && s.value != ""
  }

  /** `os.getenv(name)`. */
  function GetEnv(env: Env, name: string): (r: Option<string>)
    ensures r.Some? <==> name in env
    ensures r.Some? ==> r.value == env[name]
  {
    if name in env then Some(env[name]) else None
  }

  /** `os.getenv(name, default)`: the default only when the variable is unset, not when it is empty. */
  function GetEnvOr(env: Env, name: string, default: string): (r: string)
    ensures name in env ==> r == env[name]
    ensures name !in env ==> r == default
  {
    GetEnv(env, name).GetOr(default)
  }

  /** Python's `a or b` on optional strings. */
  function Or(a: Option<string>, b: Option<string>): (r: Option<string>)
    ensures Truthy(a) ==> r == a
    ensures !Truthy(a) ==> r == b
  {
    if Truthy(a) then a else b
  }

  function Resolve(consumerKey: Option<string>, consumerSecret: Option<string>,
                   shortcode: Option<string>, passkey: Option<string>, env: Env): (c: Config)
    ensures c.consumerKey == (if Truthy(consumerKey) then consumerKey else GetEnv(env, ConsumerKeyVar))
    ensures c.consumerSecret == (if Truthy(consumerSecret) then consumerSecret else GetEnv(env, ConsumerSecretVar))
    ensures Truthy(shortcode) ==> c.shortcode == shortcode.value
    ensures !Truthy(shortcode) && ShortcodeVar in env ==> c.shortcode == env[ShortcodeVar]
    ensures !Truthy(shortcode) && ShortcodeVar !in env ==> c.shortcode == DefaultShortcode
    ensures Truthy(passkey) ==> c.passkey == passkey.value
    ensures !Truthy(passkey) && PasskeyVar in env ==> c.passkey == env[PasskeyVar]
    ensures !Truthy(passkey) && PasskeyVar !in env ==> c.passkey == DefaultPasskey
    ensures c.baseUrl == (if BaseUrlVar in env then env[BaseUrlVar] else DefaultBaseUrl)
  {
    Config(
      Or(consumerKey, GetEnv(env, ConsumerKeyVar)),
      Or(consumerSecret, GetEnv(env, ConsumerSecretVar)),
      Or(shortcode, Some(GetEnvOr(env, ShortcodeVar, DefaultShortcode))).value,
      Or(passkey, Some(GetEnvOr(env, PasskeyVar, DefaultPasskey))).value,
      GetEnvOr(env, BaseUrlVar, DefaultBaseUrl))
  }

  /** Both OAuth credentials are present and non-empty. */
  predicate HasCredentials(c: Config) {
    Truthy(c.consumerKey) && Truthy(c.consumerSecret)
  }
}
