/**
 * UTF-8 (RFC 3629), the byte encoding `str.encode('utf-8')` applies before
 * the password is Base64 encoded. Characters here are Unicode scalar values,
 * so every string of them has an encoding; Python strings may also hold lone
 * surrogates, on which the encoder raises instead.
 */
module Utf8 {
  import opened Wrappers

  newtype Byte = x: int | 0 <= x < 0x100

  function CodePoint(c: char): (n: nat)
    ensures n < 0x110000 && !(0xD800 <= n < 0xE000)
  {
    c as int
  }

  /** The one to four bytes of a single character. */
  function EncodeChar(c: char): (b: seq<Byte>)
    ensures 1 <= |b| <= 4
    ensures |b| == 1 <==> CodePoint(c) < 0x80
    ensures |b| == 1 ==> b[0] as int == CodePoint(c)
  {
    var n := CodePoint(c);
    if n < 0x80 then
      [n as Byte]
    else if n < 0x800 then
      [(0xC0 + n / 0x40) as Byte, (0x80 + n % 0x40) as Byte]
    else if n < 0x10000 then
      [(0xE0 + n / 0x1000) as Byte, (0x80 + n / 0x40 % 0x40) as Byte, (0x80 + n % 0x40) as Byte]
    else
      [(0xF0 + n / 0x40000) as Byte, (0x80 + n / 0x1000 % 0x40) as Byte,
       (0x80 + n / 0x40 % 0x40) as Byte, (0x80 + n % 0x40) as Byte]
  }

  function Encode(s: string): (b: seq<Byte>)
    ensures |s| <= |b| <= 4 * |s|
  {
    if s == [] then [] else EncodeChar(s[0]) + Encode(s[1..])
  }

  predicate IsAscii(s: string) {
    forall i :: 0 <= i < |s| ==> s[i] < 0x80 as char
  }

  predicate IsContinuation(b: Byte) {
    0x80 <= b < 0xC0
  }

  function Payload(b: Byte): nat
    requires IsContinuation(b)
  {
    b as int - 0x80
  }

  /**
   * The first character of `b` and the number of bytes it takes; None on a
   * malformed, overlong, surrogate or out-of-range sequence.
   */
  function DecodeFirst(b: seq<Byte>): (r: Option<(char, nat)>)
    requires b != []
    ensures r.Some? ==> 1 <= r.value.1 <= |b|
  {
    var b0 := b[0] as int;
    if b0 < 0x80 then
      Some((b0 as char, 1))
    else if 0xC2 <= b0 < 0xE0 && |b| >= 2 && IsContinuation(b[1]) then
      var n := (b0 - 0xC0) * 0x40 + Payload(b[1]);
      Some((n as char, 2))
    else if 0xE0 <= b0 < 0xF0 && |b| >= 3 && IsContinuation(b[1]) && IsContinuation(b[2]) then
      var n := (b0 - 0xE0) * 0x1000 + Payload(b[1]) * 0x40 + Payload(b[2]);
      if n < 0x800 || 0xD800 <= n < 0xE000 then None else Some((n as char, 3))
    else if 0xF0 <= b0 < 0xF5 && |b| >= 4 && IsContinuation(b[1]) && IsContinuation(b[2]) && IsContinuation(b[3]) then
      var n := (b0 - 0xF0) * 0x40000 + Payload(b[1]) * 0x1000 + Payload(b[2]) * 0x40 + Payload(b[3]);
      if n < 0x10000 || n >= 0x110000 then None else Some((n as char, 4))
    else
      None
  }

  function Decode(b: seq<Byte>): (r: Option<string>)
    decreases |b|
  {
    if b == [] then Some("")
    else match DecodeFirst(b)
      case None => None
      case Some((c, k)) =>
        match Decode(b[k..])
        case None => None
        case Some(rest) => Some([c] + rest)
  }

  lemma SplitSixBits(n: nat)
    ensures n / 0x40 * 0x40 + n % 0x40 == n
    ensures n / 0x1000 * 0x40 + n / 0x40 % 0x40 == n / 0x40
    ensures n / 0x40000 * 0x40 + n / 0x1000 % 0x40 == n / 0x1000
    ensures n / 0x1000 == n / 0x40 / 0x40 && n / 0x40000 == n / 0x1000 / 0x40
  {
  }

  /** Each character's bytes decode back to it, whatever follows. */
  lemma DecodeFirstOfEncodeChar(c: char, rest: seq<Byte>)
    ensures DecodeFirst(EncodeChar(c) + rest) == Some((c, |EncodeChar(c)|))
  {
    var n := CodePoint(c);
    var b := EncodeChar(c) + rest;
    SplitSixBits(n);
    if n < 0x80 {
    } else if n < 0x800 {
      assert (b[0] as int - 0xC0) * 0x40 + Payload(b[1]) == n;
    } else if n < 0x10000 {
      assert (b[0] as int - 0xE0) * 0x1000 + Payload(b[1]) * 0x40 + Payload(b[2]) == n;
    } else {
      assert (b[0] as int - 0xF0) * 0x40000 + Payload(b[1]) * 0x1000 + Payload(b[2]) * 0x40 + Payload(b[3]) == n;
    }
  }

  /** Decoding undoes encoding. */
  lemma {:induction false} DecodeEncode(s: string)
    ensures Decode(Encode(s)) == Some(s)
  {
    if s != [] {
      var e := EncodeChar(s[0]);
      DecodeFirstOfEncodeChar(s[0], Encode(s[1..]));
      assert (e + Encode(s[1..]))[|e|..] == Encode(s[1..]);
      DecodeEncode(s[1..]);
      assert s == [s[0]] + s[1..];
    }
  }

  /** Encoding distributes over concatenation (the password encodes one concatenated string). */
  lemma {:induction false} EncodeConcat(a: string, b: string)
    ensures Encode(a + b) == Encode(a) + Encode(b)
  {
    if a != [] {
      assert (a + b)[1..] == a[1..] + b;
      EncodeConcat(a[1..], b);
    } else {
      assert a + b == b;
    }
  }

  /** On ASCII text UTF-8 is the identity: one byte per character, equal to its code. */
  lemma {:induction false} EncodeAscii(s: string)
    requires IsAscii(s)
    ensures |Encode(s)| == |s|
    ensures forall i :: 0 <= i < |s| ==> Encode(s)[i] as int == s[i] as int
  {
    if s != [] {
      EncodeAscii(s[1..]);
      assert forall i :: 1 <= i < |s| ==> s[i] == s[1..][i - 1];
    }
  }
}
