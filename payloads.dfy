/**
 * The JSON bodies and endpoint paths of the gateway operations, and the
 * sandbox credentials record.
 */
module Payloads {
  import opened Wrappers
  import opened ClientConfig
  import Signing

  datatype Value = Str(s: string) | Int(i: int)

  /** The JSON keys the client writes; `Name` gives each one's wire spelling. */
  datatype Key =
    | BusinessShortCode | KPassword | KTimestamp | TransactionType | Amount | PartyA | PartyB
    | PhoneNumber | CallBackURL | AccountReference | TransactionDesc | CheckoutRequestID
    | ShortCode | ResponseType | ConfirmationURL | ValidationURL | Shortcode | Passkey | Notes
  {
    function Name(): string {
      match this
      case BusinessShortCode => "BusinessShortCode"
      case KPassword => "Password"
      case KTimestamp => "Timestamp"
      case TransactionType => "TransactionType"
      case Amount => "Amount"
      case PartyA => "PartyA"
      case PartyB => "PartyB"
      case PhoneNumber => "PhoneNumber"
      case CallBackURL => "CallBackURL"
      case AccountReference => "AccountReference"
      case TransactionDesc => "TransactionDesc"
      case CheckoutRequestID => "CheckoutRequestID"
      case ShortCode => "ShortCode"
      case ResponseType => "ResponseType"
      case ConfirmationURL => "ConfirmationURL"
      case ValidationURL => "ValidationURL"
      case Shortcode => "Shortcode"
      case Passkey => "Passkey"
      case Notes => "Notes"
    }
  }

  /**
   * A JSON object as Python's dict holds it: the keys in insertion order
   * (which `json.dumps` writes out) and the value under each key.
   */
  datatype Object = Object(keys: seq<Key>, entries: map<Key, Value>)

  /** Every listed key has a value, every value is listed, and no key is listed twice. */
  predicate WellFormed(o: Object) {
    && (forall k :: k in o.entries <==> k in o.keys)
    && Distinct(o.keys)
  }

  predicate Distinct(keys: seq<Key>) {
    forall i, j :: 0 <= i < j < |keys| ==> keys[i] != keys[j]
  }

  /** `o.get(k)`. */
  function Get(o: Object, k: Key): (r: Option<Value>)
    ensures r.Some? <==> k in o.entries
  {
    if k in o.entries then Some(o.entries[k]) else None
  }

  /** The bodies' keys in wire order. */
  const StkPushKeys: seq<Key> := [BusinessShortCode, KPassword, KTimestamp, TransactionType, Amount,
                                  PartyA, PartyB, PhoneNumber, CallBackURL, AccountReference,
                                  TransactionDesc]
  const QueryKeys: seq<Key> := [BusinessShortCode, KPassword, KTimestamp, CheckoutRequestID]
  const RegisterKeys: seq<Key> := [ShortCode, ResponseType, ConfirmationURL, ValidationURL]
  const TestCredentialKeys: seq<Key> := [Shortcode, Passkey, Notes]

  /** No body lists a key twice. */
  lemma KeyListsDistinct()
    ensures Distinct(StkPushKeys) && Distinct(QueryKeys) && Distinct(RegisterKeys) && Distinct(TestCredentialKeys)
  {
  }

  /** The gateway's limit on the account-reference field. */
  const AccountReferenceLength := 12

  const StkPushPath := "/mpesa/stkpush/v1/processrequest"
  const QueryPath := "/mpesa/stkpushquery/v1/query"
  const RegisterPath := "/mpesa/c2b/v1/registerurl"

  const PayBillOnline := "CustomerPayBillOnline"
  /** The description an STK push is sent with when the caller gives none. */
  const DefaultDescription := "Payment"
  const Completed := "Completed"

  /** `description[:12]`: the description cut to the gateway's limit. */
  function AccountReferenceOf(description: string): (r: string)
    ensures |r| == if |description| < AccountReferenceLength then |description| else AccountReferenceLength
    ensures r == description[..|r|]
  {
    if |description| <= AccountReferenceLength then description
    else description[..AccountReferenceLength]
  }

  function StkPushPayload(c: Config, timestamp: string, amount: int, phone: string,
                          callback: string, description: string): (p: Object)
    ensures p.keys == StkPushKeys
    ensures Get(p, PartyA) == Get(p, PhoneNumber) == Some(Str(phone))
    ensures Get(p, PartyB) == Get(p, BusinessShortCode) == Some(Str(c.shortcode))
    ensures Get(p, TransactionType) == Some(Str(PayBillOnline))
    ensures Get(p, Amount) == Some(Int(amount))
    ensures Get(p, CallBackURL) == Some(Str(callback))
    ensures Get(p, AccountReference) == Some(Str(AccountReferenceOf(description)))
    ensures Get(p, TransactionDesc) == Some(Str(description))
    ensures IsSigned(c, p, timestamp)
  {
    Object(StkPushKeys, map[
      BusinessShortCode := Str(c.shortcode),
      KPassword := Str(Signing.Password(c, timestamp)),
      KTimestamp := Str(timestamp),
      TransactionType := Str(PayBillOnline),
      Amount := Int(amount),
      PartyA := Str(phone),
      PartyB := Str(c.shortcode),
      PhoneNumber := Str(phone),
      CallBackURL := Str(callback),
      AccountReference := Str(AccountReferenceOf(description)),
      TransactionDesc := Str(description)])
  }

  function QueryPayload(c: Config, timestamp: string, checkoutRequestId: string): (p: Object)
    ensures p.keys == QueryKeys
    ensures Get(p, BusinessShortCode) == Some(Str(c.shortcode))
    ensures Get(p, CheckoutRequestID) == Some(Str(checkoutRequestId))
    ensures IsSigned(c, p, timestamp)
  {
    Object(QueryKeys, map[
      BusinessShortCode := Str(c.shortcode),
      KPassword := Str(Signing.Password(c, timestamp)),
      KTimestamp := Str(timestamp),
      CheckoutRequestID := Str(checkoutRequestId)])
  }

  function RegisterPayload(c: Config, url: string): (p: Object)
    ensures p.keys == RegisterKeys
    ensures Get(p, ConfirmationURL) == Get(p, ValidationURL) == Some(Str(url))
    ensures Get(p, ShortCode) == Some(Str(c.shortcode))
    ensures Get(p, ResponseType) == Some(Str(Completed))
  {
    Object(RegisterKeys, map[
      ShortCode := Str(c.shortcode),
      ResponseType := Str(Completed),
      ConfirmationURL := Str(url),
      ValidationURL := Str(url)])
  }

  /** Each body lists every key it holds exactly once. */
  lemma PayloadsWellFormed(c: Config, timestamp: string, amount: int, phone: string,
                           callback: string, description: string, checkoutRequestId: string, url: string)
    ensures WellFormed(StkPushPayload(c, timestamp, amount, phone, callback, description))
    ensures WellFormed(QueryPayload(c, timestamp, checkoutRequestId))
    ensures WellFormed(RegisterPayload(c, url))
  {
    KeyListsDistinct();
    var stk := StkPushPayload(c, timestamp, amount, phone, callback, description);
    assert stk.entries.Keys == {BusinessShortCode, KPassword, KTimestamp, TransactionType, Amount, PartyA,
                                PartyB, PhoneNumber, CallBackURL, AccountReference, TransactionDesc};
  }

  /**
   * The body carries `timestamp` under the Timestamp key and, under the Password key, the
   * password derived from this very timestamp.
   */
  predicate IsSigned(c: Config, p: Object, timestamp: string) {
    && Get(p, KTimestamp) == Some(Str(timestamp))
    && Get(p, KPassword) == Some(Str(Signing.Password(c, timestamp)))
  }

  /** The sandbox values `generate_test_credentials` returns. */
  const TestNotes := "Use your own `DARAJA_CONSUMER_KEY` and `DARAJA_CONSUMER_SECRET` from the Safaricom dashboard."

  function TestCredentials(): (p: Object)
    ensures WellFormed(p) && p.keys == TestCredentialKeys
  {
    KeyListsDistinct();
    Object(TestCredentialKeys, map[
      Shortcode := Str("174379"),
      Passkey := Str("bfb279f9aa9bdbcf1xxxxxxxxxxxxxxxxxxxxxxxxxxxx"),
      Notes := Str(TestNotes)])
  }

  /** With no argument and no environment variable, the client uses the sandbox credentials it documents. */
  lemma DefaultsAreTestCredentials(env: Env)
    requires ShortcodeVar !in env && PasskeyVar !in env
    ensures var c := Resolve(None, None, None, None, env);
            && Get(TestCredentials(), Shortcode) == Some(Str(c.shortcode))
            && Get(TestCredentials(), Passkey) == Some(Str(c.passkey))
  {
  }

  /** One outbound POST: full URL, Authorization header and JSON body. */
  datatype Request = Request(url: string, authorization: string, body: Object)

  /** `f'Bearer {token}'`, where a missing token prints as `None`. */
  function Bearer(token: Option<string>): (h: string)
    ensures token.Some? ==> h == "Bearer " + token.value
    ensures token.None? ==> h == "Bearer None"
  {
    "Bearer " + token.GetOr("None")
  }

  /** Without a description, the reference and the description sent are both "Payment". */
  lemma DefaultDescriptionPayload(c: Config, timestamp: string, amount: int, phone: string, callback: string)
    ensures var p := StkPushPayload(c, timestamp, amount, phone, callback, DefaultDescription);
            && Get(p, AccountReference) == Some(Str("Payment"))
            && Get(p, TransactionDesc) == Some(Str("Payment"))
  {
  }

  /** `description[:12]` keeps a blank that falls in twelfth place. */
  lemma AccountReferenceExample()
    ensures AccountReferenceOf("School fees payment") == "School fees "
  {
  }
}
