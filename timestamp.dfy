/**
 * The request timestamp: a UTC date and time rendered as `%Y%m%d%H%M%S`,
 * fourteen ASCII digits. The clock reading is an input, so the rendering is a
 * pure function of it.
 */
module Timestamp {
  import opened Wrappers
  import Digits

  datatype DateTime = DateTime(year: int, month: int, day: int, hour: int, minute: int, second: int)

  predicate IsLeapYear(y: int) {
    y % 4 == 0 && (y % 100 != 0 || y % 400 == 0)
  }

  function DaysInMonth(y: int, m: int): int
    requires 1 <= m <= 12
  {
    if m == 2 then (if IsLeapYear(y) then 29 else 28)
    else if m == 4 || m == 6 || m == 9 || m == 11 then 30
    else 31
  }

  /** The values a UTC clock reading can take (four-digit years; no leap seconds). */
  predicate Valid(t: DateTime) {
    && 1000 <= t.year <= 9999
    && 1 <= t.month <= 12
    && 1 <= t.day <= DaysInMonth(t.year, t.month)
    && 0 <= t.hour < 24
    && 0 <= t.minute < 60
    && 0 <= t.second < 60
  }

  const Length := 14

  /** `YYYYMMDDHHMMSS`, every field zero padded. */
  function Format(t: DateTime): (s: string)
    requires Valid(t)
    ensures |s| == Length && Digits.AllDigits(s)
  {
    Digits.Pad(t.year, 4) + Digits.Pad(t.month, 2) + Digits.Pad(t.day, 2)
      + Digits.Pad(t.hour, 2) + Digits.Pad(t.minute, 2) + Digits.Pad(t.second, 2)
  }

  /** Reads a timestamp back; None unless it is fourteen digits naming a valid instant. */
  function Parse(s: string): (r: Option<DateTime>)
    ensures r.Some? ==> Valid(r.value)
  {
    if |s| != Length || !Digits.AllDigits(s) then None
    else
      var t := DateTime(Digits.Value(s[..4]), Digits.Value(s[4..6]), Digits.Value(s[6..8]),
                        Digits.Value(s[8..10]), Digits.Value(s[10..12]), Digits.Value(s[12..]));
      if Valid(t) then Some(t) else None
  }

  /** Every rendered timestamp reads back as the instant it renders. */
  lemma ParseFormat(t: DateTime)
    requires Valid(t)
    ensures Parse(Format(t)) == Some(t)
  {
    var s := Format(t);
    assert Digits.Pow10(2) == 100 && Digits.Pow10(4) == 10000;
    Digits.ValueOfPad(t.year, 4);
    Digits.ValueOfPad(t.month, 2);
    Digits.ValueOfPad(t.day, 2);
    Digits.ValueOfPad(t.hour, 2);
    Digits.ValueOfPad(t.minute, 2);
    Digits.ValueOfPad(t.second, 2);
    assert s[..4] == Digits.Pad(t.year, 4);
    assert s[4..6] == Digits.Pad(t.month, 2);
    assert s[6..8] == Digits.Pad(t.day, 2);
    assert s[8..10] == Digits.Pad(t.hour, 2);
    assert s[10..12] == Digits.Pad(t.minute, 2);
    assert s[12..] == Digits.Pad(t.second, 2);
  }

  /** A timestamp is the concatenation of its six fields. */
  lemma SplitFields(s: string)
    requires |s| == Length
    ensures s == s[..4] + s[4..6] + s[6..8] + s[8..10] + s[10..12] + s[12..]
  {
    assert s[..6] == s[..4] + s[4..6];
    assert s[..8] == s[..6] + s[6..8];
    assert s[..10] == s[..8] + s[8..10];
    assert s[..12] == s[..10] + s[10..12];
    assert s == s[..12] + s[12..];
  }

  /** A string that reads back as an instant is exactly that instant's rendering. */
  lemma FormatParse(s: string)
    requires Parse(s).Some?
    ensures Format(Parse(s).value) == s
  {
    var t := Parse(s).value;
    var y, mo, d, h, mi, se := s[..4], s[4..6], s[6..8], s[8..10], s[10..12], s[12..];
    Digits.PadOfValue(y);
    Digits.PadOfValue(mo);
    Digits.PadOfValue(d);
    Digits.PadOfValue(h);
    Digits.PadOfValue(mi);
    Digits.PadOfValue(se);
    SplitFields(s);
  }

  /** Distinct instants give distinct timestamps, so the password of each call is tied to one instant. */
  lemma FormatInjective(t1: DateTime, t2: DateTime)
    requires Valid(t1) && Valid(t2) && Format(t1) == Format(t2)
    ensures t1 == t2
  {
    ParseFormat(t1);
    ParseFormat(t2);
  }
}
