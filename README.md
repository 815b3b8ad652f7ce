# Daraja sandbox client, modelled in Dafny

The repository wraps Safaricom's Daraja (M-Pesa) sandbox API. Its client
object resolves its credentials from arguments, the environment and sandbox
defaults, and caches an OAuth token with a 30-second safety margin. It signs
each STK request with `Base64(shortcode ++ passkey ++ timestamp)`, and builds
the JSON bodies for three calls:

- STK push
- STK status query
- C2B URL registration

It also publishes a static tool table. A command-line test driver turns
`--arg key=value` options into a request envelope and picks the response
line out of the server's output.

This project models that behaviour in Dafny and proves what the code
promises:

- the token cache's hit, miss, error and refresh rules, with the method
  that updates the two cache fields proved against that specification;
- the password as a real Base64-over-UTF-8 encoding, with decode round
  trips and the length formula;
- the payload bodies' field equalities;
- the argument-dictionary loop, proved against a fold specification;
- the response-line scan, proved against a "first qualifying line"
  specification.

The files:

- `wrappers.dfy`: Option and Result.
- `digits.dfy`: decimal digit strings and zero padding.
- `utf8.dfy`: UTF-8 (RFC 3629) encoder and strict decoder.
- `base64.dfy`: Base64 (section 4 of RFC 4648) encoder and strict decoder.
- `timestamp.dfy`: the `%Y%m%d%H%M%S` rendering of a UTC instant.
- `config.dfy`: construction-time defaulting.
- `signing.dfy`: the request password.
- `token_cache.dfy`: `_get_oauth` as a specification function.
- `payloads.dfy`: the request bodies as ordered JSON objects.
- `client.dfy`: the `DarajaClient` class.
- `tools.dfy`: the `TOOLS_METADATA` table.
- `test_client.dfy`: the test driver's argument parsing, envelope and response scan.

The environment (`os.getenv`), the wall clock (`time.time`,
`datetime.utcnow`) and the token endpoint's reply are explicit parameters
of the operations that read them. JSON parsing is a function parameter of
the response scan.

## Model

| member | source | states |
|---|---|---|
| ClientConfig.GetEnv | daraja_client.py:40-41 | the lookup yields a value exactly when the variable is set, and then the variable's value |
| ClientConfig.GetEnvOr | daraja_client.py:42-45 | the default applies only when the variable is unset; a set but empty variable is kept |
| ClientConfig.Or | daraja_client.py:40-44 | Python's `a or b`: the argument when it is a non-empty string, else the fallback |
| ClientConfig.Resolve | daraja_client.py:40-45 | each credential is the truthy argument, else the environment variable, else (shortcode, passkey) the sandbox default; the base URL comes only from the environment or its default |
| Client.DarajaClient.constructor | daraja_client.py:33-48 | the configuration is the resolved one and the cache starts with no token and expiry 0 |
| Client.DarajaClient.GetTimestamp | daraja_client.py:50-51 | the timestamp is fourteen ASCII digits that parse back to the clock reading |
| Timestamp.ParseFormat | daraja_client.py:51 | every valid instant's rendering parses back to that instant |
| Timestamp.FormatParse | daraja_client.py:51 | any string that parses as an instant is exactly that instant's rendering |
| Timestamp.FormatInjective | daraja_client.py:51 | distinct instants render to distinct timestamps |
| Digits.Value | test_client.py:53-54 | the value of an n-digit string is below 10^n |
| Digits.Pad | daraja_client.py:51 | the zero-padded rendering has exactly the requested width and only digits |
| Digits.ValueOfPad | daraja_client.py:51 | reading a padded rendering gives the number back when it fits the width |
| Digits.PadOfValue | test_client.py:53-54 | re-padding a digit string's value to its length gives the string back, leading zeros included |
| Utf8.EncodeChar | daraja_client.py:55 | each character takes one to four bytes, and one byte, equal to its code, exactly when it is ASCII |
| Utf8.Encode | daraja_client.py:55 | the encoding of n characters takes between n and 4n bytes |
| Utf8.DecodeEncode | daraja_client.py:55 | decoding the UTF-8 of any string gives the string back |
| Utf8.EncodeConcat | daraja_client.py:54-55 | the encoding of a concatenation is the concatenation of the encodings |
| Utf8.EncodeAscii | daraja_client.py:55 | on ASCII text the bytes are the character codes, one per character |
| Base64.Encode | daraja_client.py:55 | the output has 4 * ceil(n / 3) symbols for n bytes |
| Base64.DecodeEncode | daraja_client.py:55 | decoding the encoding of any byte string gives the bytes back |
| Base64.EncodeDecode | daraja_client.py:55 | every string the strict decoder accepts is the encoding of what it decodes to |
| Base64.DecodeIffEncode | daraja_client.py:55 | decoding s gives b exactly when b encodes to s |
| Base64.RfcTestVectors | daraja_client.py:55 | the encoder reproduces the test vectors of section 10 of RFC 4648 |
| Signing.PasswordDecodes | daraja_client.py:53-56 | the password Base64-decodes to the UTF-8 of shortcode ++ passkey ++ timestamp, and that decodes to the text itself |
| Signing.PasswordLength | daraja_client.py:55-56 | the password has 4 * ceil(n / 3) symbols for the n bytes of the raw secret |
| Signing.PasswordLengthAscii | daraja_client.py:54-56 | on ASCII parts, n is the sum of the three parts' lengths |
| Signing.PasswordBytes | daraja_client.py:54-55 | the decoded password is the three parts' bytes in order, with no separators |
| Signing.PasswordDeterminesTimestamp | daraja_client.py:53-56 | for one client, equal passwords come from equal timestamps |
| Client.DarajaClient.GeneratePassword | daraja_client.py:53-56 | the password for a timestamp decodes to shortcode ++ passkey ++ timestamp |
| TokenCache.ExpiresIn | daraja_client.py:71 | the lifetime is `expires_in` when present, else 3600 |
| TokenCache.GetToken | daraja_client.py:58-75 | a request goes out exactly on a miss with both credentials set; a hit returns the cached token and changes nothing; a miss without credentials fails with no request; a failed request fails with `Transport` when there is no response, `HttpStatus` carrying the code on a 4xx or 5xx status, and `MalformedBody` when the body is not a JSON object; no failure writes the cache; a successful fetch stores the reply's token with expiry at the second clock reading plus the lifetime, and returns it; every non-error reply with a JSON body succeeds |
| TokenCache.ReusedWithinLifetime | daraja_client.py:59-60 | after a refresh with a non-empty token, every call before expiry minus 30 seconds is a hit that changes nothing |
| TokenCache.OneRequestForTwoCalls | daraja_client.py:59-75 | two calls in the same second send one request when the token is non-empty and lives more than 30 seconds |
| TokenCache.UnusableTokenNeverReused | daraja_client.py:59-73 | an empty or absent token, or a lifetime of at most 30 seconds, makes every later call a miss |
| TokenCache.MarginForcesRequest | daraja_client.py:59 | a token expiring 10 seconds from now is not reused: with credentials a request is sent, and any success carries the reply's token |
| Client.FirstCallRequests | daraja_client.py:47-67 | a new client's first call sends a request whenever both credentials are set |
| Client.DarajaClient.GetOAuth | daraja_client.py:58-75 | the returned result, request flag and new cache fields are exactly those `GetToken` prescribes for the old fields |
| Payloads.AccountReferenceOf | daraja_client.py:102 | the account reference is the prefix of the description of length min(12, length) |
| Payloads.AccountReferenceExample | daraja_client.py:102 | "School fees payment" becomes "School fees " (trailing blank kept) |
| Payloads.StkPushPayload | daraja_client.py:92-104 | the eleven keys in source order; PartyA = PhoneNumber = phone; PartyB = BusinessShortCode = shortcode; the paybill transaction type; the amount; the callback; the truncated reference and the full description; a Password/Timestamp pair from one timestamp |
| Payloads.QueryPayload | daraja_client.py:122-127 | the four keys in order; the shortcode and checkout id; a Password/Timestamp pair from one timestamp |
| Payloads.RegisterPayload | daraja_client.py:154-159 | the four keys in order; ConfirmationURL = ValidationURL = url; ResponseType "Completed"; ShortCode = shortcode |
| Payloads.PayloadsWellFormed | daraja_client.py:92-159 | each of the three request bodies holds every key it lists, and lists each once |
| Payloads.TestCredentials | daraja_client.py:142-146 | the three keys Shortcode, Passkey, Notes in order, each once |
| Payloads.DefaultDescriptionPayload | daraja_client.py:77-103 | an STK push without a description sends "Payment" both as AccountReference and as TransactionDesc |
| Payloads.DefaultsAreTestCredentials | daraja_client.py:142-146 | with no argument and no variable, the client's shortcode and passkey (the defaults at lines 42 and 44) are the ones the test credentials return |
| Payloads.Bearer | daraja_client.py:107 | the header is "Bearer " and the token, or "Bearer None" when the token is absent |
| Client.Send | daraja_client.py:106-107 | a token failure gives that failure and no request; a token gives a request to the URL with its bearer header and the body |
| Client.DarajaClient.SimulateStkPush | daraja_client.py:77-107 | the cache moves as `GetToken` prescribes; on success the request goes to base URL + the STK path with the STK body, signed with the clock's timestamp, with the callback from the environment or its default and the description given or, when omitted, "Payment" |
| Client.DarajaClient.QueryTransactionStatus | daraja_client.py:118-130 | the cache moves as `GetToken` prescribes; on success the request goes to base URL + the query path with the query body, signed with the clock's timestamp |
| Client.DarajaClient.RegisterCallbackUrl | daraja_client.py:153-161 | the cache moves as `GetToken` prescribes; on success the request goes to base URL + the register path with the register body |
| Client.DarajaClient.GenerateTestCredentials | daraja_client.py:136-146 | the sandbox shortcode, passkey and notes, whatever the client was configured with |
| Tools.FindTool | daraja_client.py:169-202 | a lookup by name finds an entry exactly when the name is listed, and the entry it finds has that name |
| Tools.MetadataNames | daraja_client.py:169-202 | the table lists the four client operations, each once, with their parameter names in order |
| TestClient.Envelope | test_client.py:8 | the envelope has exactly the keys id, tool and args: id 1, the tool name and the argument object |
| TestClient.EchoIsAnswer | test_client.py:8-34 | a line carrying the envelope itself would be taken for the answer |
| TestClient.SplitFirst | test_client.py:50-51 | there is a split exactly when the option contains `=`; the key is the text before the first `=` (so it has none) and the value is all the rest |
| TestClient.ParseValueAsWritten | test_client.py:53-56 | the script stops exactly on a non-empty value of digits that are not all ASCII (below CPython's digit limit for `int`, see Left out); it produces a number only from ASCII digits |
| TestClient.SuperscriptDigitStopsScript | test_client.py:53-54 | the value "²" stops the script as written, and the corrected parser keeps it as a string |
| TestClient.ParseValue | test_client.py:53-56 | a number exactly for a non-empty run of ASCII digits, whose padded rendering is the value (leading zeros aside); otherwise the string itself (so "" stays ""); it agrees with the as-written parse wherever that one does not stop |
| TestClient.BuildArgDict | test_client.py:48-57 | the loop builds the fold `ArgDict` of the options, with values read by the corrected `ParseValue` (see Findings: on a superscript digit value the script as written stops instead) |
| TestClient.ArgDictKeys | test_client.py:48-57 | a key is in the dictionary exactly when some option containing `=` sets it |
| TestClient.LastOptionWins | test_client.py:57 | a key's value comes from the last option that sets it |
| TestClient.SkippedOption | test_client.py:49-50 | an option without `=` changes nothing, wherever it stands |
| TestClient.BreakAt | test_client.py:25 | the index of the first line-break character, or the length of the text when it has none; nothing before it is a break |
| TestClient.SplitLinesNoBreaks | test_client.py:25 | no line of `splitlines` contains a line-break character |
| TestClient.SplitLinesKeepsText | test_client.py:25 | the lines joined are the text with its line-break characters removed |
| TestClient.StripSpec | test_client.py:26 | `strip` gives the empty string exactly when the line is all whitespace; otherwise a slice of the line with only whitespace before and after it and non-space characters at both of its ends |
| TestClient.FirstAnswering | test_client.py:25-39 | the index of the first line, from a starting point on, whose stripped text is non-empty and parses as an object with id 1; no line before it qualifies |
| TestClient.FirstAnswer | test_client.py:25-39 | none exactly when no line qualifies; otherwise the parsed object of the first line whose stripped text is non-empty and parses as an object with id 1 |
| TestClient.FindResponse | test_client.py:25-39 | the loop over the output's lines returns exactly `FirstAnswer` of them, so it returns nothing exactly when no line qualifies, and otherwise an object whose id is 1 |

## Left out

- HTTP traffic is not modelled. `requests.get`, `requests.post`, `r.json()` and the responses of the three POST calls are out of scope. The token endpoint's outcome is an input (no response, or a status with a JSON object body or a non-object body). The POST calls are modelled up to the request they send: its URL, its `Authorization` header and its body. The `Content-Type: application/json` header they also set (daraja_client.py:107, 130, 161) and their timeouts (15, 15 and 10 seconds) are not part of `Request`.
- The OAuth fields `access_token` and `expires_in` are assumed well typed. A non-string `access_token` and an `expires_in` that `int()` rejects or truncates (a float, a numeric string) are not modelled.
- Time is integral. `time.time()` returns a float; the model uses integer seconds.
- Timestamp.Format: years before 1000 are left out. For them `%Y` is platform-dependent; the model restricts `Valid` to four-digit years.
- JSON serialisation (`json.dumps`) is not modelled. Bodies are objects with an ordered key list; the request line sent to the server is not modelled.
- BuildArgDict: the resulting map does not record insertion order, which only affects how `json.dumps` orders the `args` keys.
- BuildArgDict: values are read with the corrected `ParseValue`, so `--arg n=²` gives the string "²" where the script as written stops with ValueError (the row under Findings; `ParseValueAsWritten` models that behaviour).
- FirstAnswer: a JSON float id such as `1.0` also equals 1 in Python and is not modelled, because the JSON model has no floats. `True` is modelled as equal to 1.
- ParseValueAsWritten: `isdigit` is modelled for ASCII and superscript digits only. The other characters Python counts as digits are treated as non-digits. That covers other scripts' decimal digits, which `int` reads, and symbols such as circled digits, which make `int` raise.
- ParseValueAsWritten: CPython's limit on the digits `int` converts from a string (4300 by default since 3.11 and in the matching security releases of 3.7 to 3.10) is not modelled. A longer run of ASCII digits also stops the script, while the model returns a number for it; so "stops exactly when" holds only below that limit.
- SimulateStkPush: `amount` is an integer. `int(amount)` on a float (truncation toward zero) or on a string is not modelled. Nor is the ValueError that a non-numeric string raises after `_get_oauth` has already refreshed the cache.
- Signing.Password: Python strings may hold lone surrogates, which `os.getenv` yields for environment bytes that are not UTF-8. `raw.encode('utf-8')` raises UnicodeEncodeError on them. Characters here are Unicode scalar values, so that error path is not modelled.
- Logging (`logger.debug`, the file handler), `argparse` and the subprocess spawn with its timeout are I/O with no effect on the modelled results.
- Resolve: `load_dotenv()` is not modelled as a step. It fills variables that are still unset from `.env`, so the `env` parameter stands for the environment after `load_dotenv` has run.
- FindResponse: printing the parsed reply is assumed to succeed. In the script the two prints sit inside the `try`, so an error they raise (a UnicodeEncodeError on a stdout that cannot encode the reply, a BrokenPipeError) is caught and that line is skipped; the model then still returns that first qualifying line, where the script goes on to a later line or to None.
- server.py's stdin/stdout dispatch loop is not part of this model.

## Findings

| source | as written | input that shows it | evidently intended | confidence | as-written member | corrected member |
|---|---|---|---|---|---|---|
| test_client.py:53-54 | `v.isdigit()` guards `int(v)`, but `isdigit` also accepts superscript digits, which `int` rejects with ValueError | `--arg n=²` | keep such a value as a string (or parse only decimal digits) instead of ending the script | high, from Python's documented `isdigit`; not executed | TestClient.ParseValueAsWritten, TestClient.SuperscriptDigitStopsScript | TestClient.ParseValue |
