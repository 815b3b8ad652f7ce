/**
 * The time-based request password: Base64 of the UTF-8 bytes of
 * shortcode ++ passkey ++ timestamp, with no separators.
 */
module Signing {
  import opened Wrappers
  import ClientConfig
  import Utf8
  import Base64

  /** The text the password encodes. */
  function RawSecret(c: ClientConfig.Config, timestamp: string): string {
    c.shortcode + c.passkey + timestamp
  }

  /** The password of one request. */
  function Password(c: ClientConfig.Config, timestamp: string): string {
    Base64.Encode(Utf8.Encode(RawSecret(c, timestamp)))
  }

  /**
   * The password depends on nothing but the shortcode, the passkey and the
   * timestamp: decoding it gives back their concatenation.
   */
  lemma PasswordDecodes(c: ClientConfig.Config, timestamp: string)
    ensures Base64.Decode(Password(c, timestamp)) == Some(Utf8.Encode(RawSecret(c, timestamp)))
    ensures Utf8.Decode(Base64.Decode(Password(c, timestamp)).value) == Some(RawSecret(c, timestamp))
  {
    Base64.DecodeEncode(Utf8.Encode(RawSecret(c, timestamp)));
    Utf8.DecodeEncode(RawSecret(c, timestamp));
  }

  /** Four symbols for every three bytes of the raw secret, the last group padded. */
  lemma PasswordLength(c: ClientConfig.Config, timestamp: string)
    ensures |Password(c, timestamp)| == 4 * ((|Utf8.Encode(RawSecret(c, timestamp))| + 2) / 3)
  {
  }

  /** On ASCII credentials and timestamp the length is 4 * ceil(n / 3) for n characters. */
  lemma PasswordLengthAscii(c: ClientConfig.Config, timestamp: string)
    requires Utf8.IsAscii(RawSecret(c, timestamp))
    ensures |Password(c, timestamp)| == 4 * ((|c.shortcode| + |c.passkey| + |timestamp| + 2) / 3)
  {
    Utf8.EncodeAscii(RawSecret(c, timestamp));
    PasswordLength(c, timestamp);
  }

  /** The password bytes are the three parts' bytes, one after the other. */
  lemma PasswordBytes(c: ClientConfig.Config, timestamp: string)
    ensures Base64.Decode(Password(c, timestamp))
         == Some(Utf8.Encode(c.shortcode) + Utf8.Encode(c.passkey) + Utf8.Encode(timestamp))
  {
    PasswordDecodes(c, timestamp);
    Utf8.EncodeConcat(c.shortcode, c.passkey);
    Utf8.EncodeConcat(c.shortcode + c.passkey, timestamp);
  }

  /** For one client, a password identifies the timestamp it was made from. */
  lemma PasswordDeterminesTimestamp(c: ClientConfig.Config, t1: string, t2: string)
    requires Password(c, t1) == Password(c, t2)
    ensures t1 == t2
  {
    var prefix := c.shortcode + c.passkey;
    PasswordDecodes(c, t1);
    PasswordDecodes(c, t2);
    assert RawSecret(c, t1) == RawSecret(c, t2);
    assert t1 == RawSecret(c, t1)[|prefix|..];
    assert t2 == RawSecret(c, t2)[|prefix|..];
  }
}
