/**
 * ASCII decimal digit strings: the value `int(v)` gives an all-digit string,
 * and the zero-padded rendering `strftime` uses for each timestamp field.
 */
module Digits {

  predicate IsDigit(c: char) {
    '0' <= c <= '9'
  }

  /** `s.isdigit()` restricted to ASCII, minus the emptiness test. */
  predicate AllDigits(s: string) {
    forall i :: 0 <= i < |s| ==> IsDigit(s[i])
  }

  function DigitValue(c: char): (d: nat)
    requires IsDigit(c)
    ensures d < 10
  {
    c as int - '0' as int
  }

  function DigitChar(d: nat): (c: char)
    requires d < 10
    ensures IsDigit(c) && DigitValue(c) == d
  {
    ('0' as int + d) as char
  }

  function Pow10(n: nat): (p: nat)
    ensures p >= 1
  {
    if n == 0 then 1 else 10 * Pow10(n - 1)
  }

  /** The number a digit string denotes, most significant digit first (leading zeros allowed). */
  function Value(s: string): (v: nat)
    requires AllDigits(s)
    ensures v < Pow10(|s|)
  {
    if s == [] then 0
    else
      var init := s[..|s| - 1];
      var v0 := Value(init);
      assert v0 * 10 + 9 < Pow10(|s|) by {
        assert v0 <= Pow10(|init|) - 1;
      }
      v0 * 10 + DigitValue(s[|s| - 1])
  }

  /** `n` rendered in exactly `width` decimal digits, zero padded on the left. */
  function Pad(n: nat, width: nat): (s: string)
    ensures |s| == width && AllDigits(s)
  {
    if width == 0 then "" else Pad(n / 10, width - 1) + [DigitChar(n % 10)]
  }

  /** Reading back a padded rendering gives the number, when it fits the width. */
  lemma {:induction false} ValueOfPad(n: nat, width: nat)
    requires n < Pow10(width)
    ensures Value(Pad(n, width)) == n
  {
    if width > 0 {
      var s := Pad(n, width);
      var q, r := n / 10, n % 10;
      assert n == 10 * q + r && r < 10;
      assert q < Pow10(width - 1) by {
        assert Pow10(width) == 10 * Pow10(width - 1);
      }
      assert s[..|s| - 1] == Pad(q, width - 1);
      assert DigitValue(s[|s| - 1]) == r;
      ValueOfPad(q, width - 1);
      assert Value(s) == 10 * Value(Pad(q, width - 1)) + r;
    }
  }

  /** Rendering the value of a digit string at its own width gives the string back. */
  lemma {:induction false} PadOfValue(s: string)
    requires AllDigits(s)
    ensures Pad(Value(s), |s|) == s
  {
    if s != [] {
      var init := s[..|s| - 1];
      var v := Value(s);
      assert v / 10 == Value(init) && v % 10 == DigitValue(s[|s| - 1]);
      PadOfValue(init);
      assert DigitChar(DigitValue(s[|s| - 1])) == s[|s| - 1];
      assert s == init + [s[|s| - 1]];
    }
  }
}
