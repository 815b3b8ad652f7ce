/**
 * Base64 with the standard alphabet and `=` padding (section 4 of RFC 4648),
 * as `base64.b64encode` produces it. The decoder is the strict one: it
 * accepts exactly the canonical encodings (section 3.5 of RFC 4648: pad bits
 * must be zero), which makes it the exact inverse of the encoder.
 */
module Base64 {
  import opened Wrappers
  import Utf8

  type Byte = Utf8.Byte
  type Sextet = x: int | 0 <= x < 64

  const PadChar: char := '='

  /**
   * The symbol for a 6-bit value: the alphabet
   * "ABCDEFGHIJKLMNOPQRSTUVWXYZabcdefghijklmnopqrstuvwxyz0123456789+/" in value order.
   */
  function SextetChar(x: Sextet): (c: char)
    ensures c != PadChar
  {
    if x < 26 then ('A' as int + x) as char
    else if x < 52 then ('a' as int + (x - 26)) as char
    else if x < 62 then ('0' as int + (x - 52)) as char
    else if x == 62 then '+'
    else '/'
  }

  function CharSextet(c: char): (r: Option<Sextet>)
    ensures r.Some? ==> SextetChar(r.value) == c
  {
    if 'A' <= c <= 'Z' then Some(c as int - 'A' as int)
    else if 'a' <= c <= 'z' then Some(c as int - 'a' as int + 26)
    else if '0' <= c <= '9' then Some(c as int - '0' as int + 52)
    else if c == '+' then Some(62)
    else if c == '/' then Some(63)
    else None
  }

  lemma CharSextetOfSextetChar(x: Sextet)
    ensures CharSextet(SextetChar(x)) == Some(x)
  {
  }

  /** Three bytes as four symbols. */
  function EncodeGroup(b0: Byte, b1: Byte, b2: Byte): (q: string)
    ensures |q| == 4
  {
    [SextetChar(b0 as int / 4), SextetChar(b0 as int % 4 * 16 + b1 as int / 16),
     SextetChar(b1 as int % 16 * 4 + b2 as int / 64), SextetChar(b2 as int % 64)]
  }

  /** A final single byte: two symbols and two pads. */
  function EncodeOne(b0: Byte): (q: string)
    ensures |q| == 4
  {
    [SextetChar(b0 as int / 4), SextetChar(b0 as int % 4 * 16), PadChar, PadChar]
  }

  /** A final pair of bytes: three symbols and one pad. */
  function EncodeTwo(b0: Byte, b1: Byte): (q: string)
    ensures |q| == 4
  {
    [SextetChar(b0 as int / 4), SextetChar(b0 as int % 4 * 16 + b1 as int / 16),
     SextetChar(b1 as int % 16 * 4), PadChar]
  }

  function Encode(b: seq<Byte>): (s: string)
    ensures |s| == 4 * ((|b| + 2) / 3)
    decreases |b|
  {
    if |b| == 0 then ""
    else if |b| == 1 then EncodeOne(b[0])
    else if |b| == 2 then EncodeTwo(b[0], b[1])
    else
      EncodeGroup(b[0], b[1], b[2]) + Encode(b[3..])
  }

  /** The three bytes that four sextets carry. */
  function Join(a: Sextet, b: Sextet, c: Sextet, d: Sextet): (r: seq<Byte>)
    ensures |r| == 3
  {
    var a, b, c, d := a as int, b as int, c as int, d as int;
    [(a * 4 + b / 16) as Byte, (b % 16 * 16 + c / 4) as Byte, (c % 4 * 64 + d) as Byte]
  }

  /** Four symbols without padding as three bytes. */
  function DecodeFull(q: string): (r: Option<seq<Byte>>)
    requires |q| == 4
    ensures r.Some? ==> |r.value| == 3
  {
    match (CharSextet(q[0]), CharSextet(q[1]), CharSextet(q[2]), CharSextet(q[3]))
    case (Some(a), Some(b), Some(c), Some(d)) => Some(Join(a, b, c, d))
    case _ => None
  }

  /** The final quantum, which may carry one or two padding characters. */
  function DecodeLast(q: string): (r: Option<seq<Byte>>)
    requires |q| == 4
    ensures r.Some? ==> 1 <= |r.value| <= 3
  {
    if q[3] != PadChar then DecodeFull(q)
    else if q[2] == PadChar then
      match (CharSextet(q[0]), CharSextet(q[1]))
      case (Some(a), Some(b)) =>
        if b % 16 == 0 then Some(Join(a, b, 0, 0)[..1]) else None
      case _ => None
    else
      match (CharSextet(q[0]), CharSextet(q[1]), CharSextet(q[2]))
      case (Some(a), Some(b), Some(c)) =>
        if c % 4 == 0 then Some(Join(a, b, c, 0)[..2]) else None
      case _ => None
  }

  function Decode(s: string): (r: Option<seq<Byte>>)
    decreases |s|
  {
    if |s| == 0 then Some([])
    else if |s| < 4 then None
    else if |s| == 4 then DecodeLast(s)
    else
      match DecodeFull(s[..4])
      case None => None
      case Some(g) =>
        match Decode(s[4..])
        case None => None
        case Some(rest) => Some(g + rest)
  }

  lemma GroupRoundTrip(b0: Byte, b1: Byte, b2: Byte)
    ensures var a, b, c, d := b0 as int / 4, b0 as int % 4 * 16 + b1 as int / 16,
                              b1 as int % 16 * 4 + b2 as int / 64, b2 as int % 64;
            a * 4 + b / 16 == b0 as int && b % 16 * 16 + c / 4 == b1 as int && c % 4 * 64 + d == b2 as int
  {
    var x, y, z := b0 as int, b1 as int, b2 as int;
    var b := x % 4 * 16 + y / 16;
    assert b / 16 == x % 4 && b % 16 == y / 16;
    var c := y % 16 * 4 + z / 64;
    assert c / 4 == y % 16 && c % 4 == z / 64;
  }

  lemma DecodeOne(b0: Byte)
    ensures DecodeLast(EncodeOne(b0)) == Some([b0])
  {
    var x, y := b0 as int / 4, b0 as int % 4 * 16;
    GroupRoundTrip(b0, 0, 0);
    CharSextetOfSextetChar(x);
    CharSextetOfSextetChar(y);
    assert y % 16 == 0;
    assert Join(x, y, 0, 0)[..1] == [b0];
  }

  lemma DecodeTwo(b0: Byte, b1: Byte)
    ensures DecodeLast(EncodeTwo(b0, b1)) == Some([b0, b1])
  {
    var x, y, z := b0 as int / 4, b0 as int % 4 * 16 + b1 as int / 16, b1 as int % 16 * 4;
    GroupRoundTrip(b0, b1, 0);
    CharSextetOfSextetChar(x);
    CharSextetOfSextetChar(y);
    CharSextetOfSextetChar(z);
    assert z % 4 == 0;
    assert Join(x, y, z, 0)[..2] == [b0, b1];
  }

  /** A full group decodes to its three bytes. */
  lemma DecodeFullGroup(b0: Byte, b1: Byte, b2: Byte)
    ensures DecodeFull(EncodeGroup(b0, b1, b2)) == Some([b0, b1, b2])
  {
    var x, y := b0 as int / 4, b0 as int % 4 * 16 + b1 as int / 16;
    var z, w := b1 as int % 16 * 4 + b2 as int / 64, b2 as int % 64;
    GroupRoundTrip(b0, b1, b2);
    CharSextetOfSextetChar(x);
    CharSextetOfSextetChar(y);
    CharSextetOfSextetChar(z);
    CharSextetOfSextetChar(w);
    assert Join(x, y, z, w) == [b0, b1, b2];
  }

  lemma {:induction false} DecodeEncode(b: seq<Byte>)
    ensures Decode(Encode(b)) == Some(b)
    decreases |b|
  {
    if |b| == 1 {
      DecodeOne(b[0]);
      assert b == [b[0]];
    } else if |b| == 2 {
      DecodeTwo(b[0], b[1]);
      assert b == [b[0], b[1]];
    } else if |b| >= 3 {
      var s := Encode(b);
      var g := EncodeGroup(b[0], b[1], b[2]);
      DecodeFullGroup(b[0], b[1], b[2]);
      assert [b[0], b[1], b[2]] == b[..3];
      DecodeEncode(b[3..]);
      assert s[..4] == g && s[4..] == Encode(b[3..]);
      if |b| == 3 {
        assert b[3..] == [] && b == b[..3];
        assert s == g && DecodeLast(g) == DecodeFull(g);
      } else {
        assert b == b[..3] + b[3..];
      }
    }
  }

  lemma SplitRoundTrip(a: Sextet, b: Sextet, c: Sextet, d: Sextet)
    ensures var x, y, z := a * 4 + b / 16, b % 16 * 16 + c / 4, c % 4 * 64 + d;
            x / 4 == a && x % 4 * 16 + y / 16 == b && y % 16 * 4 + z / 64 == c && z % 64 == d
  {
    var a, b, c, d := a as int, b as int, c as int, d as int;
    var x, y, z := a * 4 + b / 16, b % 16 * 16 + c / 4, c % 4 * 64 + d;
    assert x / 4 == a && x % 4 == b / 16;
    assert y / 16 == b % 16 && y % 16 == c / 4;
    assert z / 64 == c % 4 && z % 64 == d;
  }

  lemma EncodeDecodeFull(q: string)
    requires |q| == 4 && DecodeFull(q).Some?
    ensures var r := DecodeFull(q).value; EncodeGroup(r[0], r[1], r[2]) == q
  {
    var a, b := CharSextet(q[0]).value, CharSextet(q[1]).value;
    var c, d := CharSextet(q[2]).value, CharSextet(q[3]).value;
    var r := Join(a, b, c, d);
    assert DecodeFull(q) == Some(r);
    SplitRoundTrip(a, b, c, d);
    assert r[0] as int / 4 == a;
    assert r[0] as int % 4 * 16 + r[1] as int / 16 == b;
    assert r[1] as int % 16 * 4 + r[2] as int / 64 == c;
    assert r[2] as int % 64 == d;
    assert EncodeGroup(r[0], r[1], r[2]) == [SextetChar(a), SextetChar(b), SextetChar(c), SextetChar(d)];
  }

  lemma EncodeDecodeOne(q: string)
    requires |q| == 4 && q[2] == PadChar && q[3] == PadChar && DecodeLast(q).Some?
    ensures var r := DecodeLast(q).value; |r| == 1 && EncodeOne(r[0]) == q
  {
    var a, b := CharSextet(q[0]).value, CharSextet(q[1]).value;
    SplitRoundTrip(a, b, 0, 0);
    assert b / 16 * 16 == b;
  }

  lemma EncodeDecodeTwo(q: string)
    requires |q| == 4 && q[2] != PadChar && q[3] == PadChar && DecodeLast(q).Some?
    ensures var r := DecodeLast(q).value; |r| == 2 && EncodeTwo(r[0], r[1]) == q
  {
    var a, b, c := CharSextet(q[0]).value, CharSextet(q[1]).value, CharSextet(q[2]).value;
    SplitRoundTrip(a, b, c, 0);
    assert c / 4 * 4 == c;
  }

  lemma EncodeDecodeLast(q: string)
    requires |q| == 4 && DecodeLast(q).Some?
    ensures Encode(DecodeLast(q).value) == q
  {
    var r := DecodeLast(q).value;
    if q[3] != PadChar {
      EncodeDecodeFull(q);
      assert r[3..] == [];
    } else if q[2] == PadChar {
      EncodeDecodeOne(q);
    } else {
      EncodeDecodeTwo(q);
    }
  }

  /** Whatever the strict decoder accepts is the encoding of what it returns. */
  lemma {:induction false} EncodeDecode(s: string)
    requires Decode(s).Some?
    ensures Encode(Decode(s).value) == s
    decreases |s|
  {
    if |s| == 4 {
      EncodeDecodeLast(s);
    } else if |s| > 4 {
      var g := DecodeFull(s[..4]).value;
      var rest := Decode(s[4..]).value;
      EncodeDecodeFull(s[..4]);
      EncodeDecode(s[4..]);
      assert (g + rest)[..3] == g && (g + rest)[3..] == rest;
      assert s == s[..4] + s[4..];
    }
  }

  /** The decoder is the exact inverse of the encoder. */
  lemma DecodeIffEncode(s: string, b: seq<Byte>)
    ensures Decode(s) == Some(b) <==> Encode(b) == s
  {
    if Decode(s) == Some(b) {
      EncodeDecode(s);
    }
    if Encode(b) == s {
      DecodeEncode(b);
    }
  }

  /** The test vectors of section 10 of RFC 4648 for "f", "fo", "foo" and "foobar". */
  lemma RfcTestVectors()
    ensures Encode([0x66]) == "Zg=="
    ensures Encode([0x66, 0x6F]) == "Zm8="
    ensures Encode([0x66, 0x6F, 0x6F]) == "Zm9v"
    ensures Encode([0x66, 0x6F, 0x6F, 0x62, 0x61, 0x72]) == "Zm9vYmFy"
  {
    var foobar: seq<Byte> := [0x66, 0x6F, 0x6F, 0x62, 0x61, 0x72];
    assert foobar[3..] == [0x62, 0x61, 0x72];
  }
}
