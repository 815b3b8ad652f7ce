/**
 * The command-line test driver: it turns `--arg key=value` options into the
 * argument object of a request envelope, and scans the server's standard
 * output for the first line that is a JSON object answering request id 1.
 * The JSON parser and the process exchange are parameters.
 */
module TestClient {
  import opened Wrappers
  import Digits

  datatype Json =
    | JNull
    | JBool(b: bool)
    | JInt(i: int)
    | JStr(s: string)
    | JArray(items: seq<Json>)
    | JObject(fields: map<string, Json>)

  /** The id every request carries. */
  const RequestId := 1

  /** `{"id": 1, "tool": tool, "args": args}`. */
  function Envelope(tool: string, args: map<string, Json>): (j: Json)
    ensures j.JObject? && j.fields.Keys == {"id", "tool", "args"}
    ensures j.fields["id"] == JInt(RequestId) && IdIsOne(j.fields["id"])
    ensures j.fields["tool"] == JStr(tool) && j.fields["args"] == JObject(args)
  {
    JObject(map["id" := JInt(RequestId), "tool" := JStr(tool), "args" := JObject(args)])
  }

  // ---------------------------------------------------------------------
  // The key=value arguments
  // ---------------------------------------------------------------------

  /** `a.split('=', 1)` when `'='` occurs in `a`: the text before the first `'='` and the rest. */
  function SplitFirst(a: string): (r: Option<(string, string)>)
    ensures r.None? <==> '=' !in a
    ensures r.Some? ==> a == r.value.0 + "=" + r.value.1 && '=' !in r.value.0
  {
    if a == [] then None
    else if a[0] == '=' then Some(([], a[1..]))
    else match SplitFirst(a[1..])
      case None => None
      case Some(kv) => Some(([a[0]] + kv.0, kv.1))
  }

  /** The characters `str.isdigit` accepts, among those the model names: ASCII digits and the superscript digits. */
  predicate IsPyDigit(c: char) {
    Digits.IsDigit(c) || c == '\U{00B2}' || c == '\U{00B3}' || c == '\U{00B9}'
    || c == '\U{2070}' || '\U{2074}' <= c <= '\U{2079}'
  }

  predicate AllPyDigits(s: string) {
    forall i :: 0 <= i < |s| ==> IsPyDigit(s[i])
  }

  /**
   * The value `v` as written: `int(v)` when `v.isdigit()`, else `v` itself.
   * None stands for the ValueError `int` raises on a superscript digit,
   * which `isdigit` lets through and which ends the script.
   */
  function ParseValueAsWritten(v: string): (r: Option<Json>)
    ensures r.None? <==> v != [] && AllPyDigits(v) && !Digits.AllDigits(v)
    ensures r.Some? && r.value.JInt? ==> v != [] && Digits.AllDigits(v)
  {
    if v != [] && AllPyDigits(v) then
      if Digits.AllDigits(v) then Some(JInt(Digits.Value(v))) else None
    else Some(JStr(v))
  }

  /** `--arg n=²` passes `isdigit` and makes `int` raise. */
  lemma SuperscriptDigitStopsScript()
    ensures ParseValueAsWritten("\U{00B2}") == None
    ensures ParseValue("\U{00B2}") == JStr("\U{00B2}")
  {
    assert !Digits.IsDigit("\U{00B2}"[0]);
  }

  /** The value `v`: a number when it is a non-empty run of decimal digits, else the string. */
  function ParseValue(v: string): (j: Json)
    ensures j.JInt? <==> v != [] && Digits.AllDigits(v)
    ensures j.JInt? ==> j.i >= 0 && Digits.Pad(j.i, |v|) == v
    ensures !j.JInt? ==> j == JStr(v)
    ensures ParseValueAsWritten(v).Some? ==> ParseValueAsWritten(v).value == j
  {
    if v != [] && Digits.AllDigits(v) then
      Digits.PadOfValue(v);
      JInt(Digits.Value(v))
    else JStr(v)
  }

  /** One option applied to the dictionary: `key=value` sets `key`, anything else is skipped. */
  function AddOption(d: map<string, Json>, a: string): map<string, Json> {
    match SplitFirst(a)
    case None => d
    case Some(kv) => d[kv.0 := ParseValue(kv.1)]
  }

  /** The argument object built from `args`, one option after the other. */
  function ArgDict(args: seq<string>): map<string, Json> {
    if args == [] then map[]
    else AddOption(ArgDict(args[..|args| - 1]), args[|args| - 1])
  }

  lemma ArgDictSnoc(args: seq<string>, a: string)
    ensures ArgDict(args + [a]) == AddOption(ArgDict(args), a)
  {
    assert (args + [a])[..|args|] == args;
  }

  /** `args[i]` is a `key=value` option for `key`. */
  predicate SetsKey(args: seq<string>, i: int, key: string)
    requires 0 <= i < |args|
  {
    SplitFirst(args[i]).Some? && SplitFirst(args[i]).value.0 == key
  }

  /** The loop that fills `arg_dict`. */
  method BuildArgDict(args: seq<string>) returns (d: map<string, Json>)
    ensures d == ArgDict(args)
  {
    d := map[];
    var i := 0;
    while i < |args|
      invariant 0 <= i <= |args|
      invariant d == ArgDict(args[..i])
    {
      var a := args[i];
      ArgDictSnoc(args[..i], a);
      assert args[..i + 1] == args[..i] + [a];
      if '=' in a {
        var kv := SplitFirst(a).value;
        var k, v := kv.0, kv.1;
        var parsed: Json;
        if v != [] && Digits.AllDigits(v) {
          parsed := JInt(Digits.Value(v));
        } else {
          parsed := JStr(v);
        }
        d := d[k := parsed];
      }
      i := i + 1;
    }
    assert args[..i] == args;
  }

  /** A key is present exactly when some option sets it. */
  lemma {:induction false} ArgDictKeys(args: seq<string>, key: string)
    ensures key in ArgDict(args) <==> exists i :: 0 <= i < |args| && SetsKey(args, i, key)
  {
    if args != [] {
      var last := |args| - 1;
      var init := args[..last];
      ArgDictKeys(init, key);
      assert forall i :: 0 <= i < |init| ==> (SetsKey(init, i, key) <==> SetsKey(args, i, key));
      if SetsKey(args, last, key) {
        assert key in ArgDict(args);
      } else {
        assert ArgDict(args).Keys == ArgDict(init).Keys + (if SplitFirst(args[last]).Some? then {SplitFirst(args[last]).value.0} else {});
        assert (exists i :: 0 <= i < |args| && SetsKey(args, i, key))
           <==> (exists i :: 0 <= i < |init| && SetsKey(init, i, key));
      }
    }
  }

  /** The last option that sets a key gives its value. */
  lemma {:induction false} LastOptionWins(args: seq<string>, i: int, key: string)
    requires 0 <= i < |args| && SetsKey(args, i, key)
    requires forall j :: i < j < |args| ==> !SetsKey(args, j, key)
    ensures key in ArgDict(args) && ArgDict(args)[key] == ParseValue(SplitFirst(args[i]).value.1)
  {
    var last := |args| - 1;
    var init := args[..last];
    if i < last {
      assert SetsKey(init, i, key);
      assert !SetsKey(args, last, key);
      forall j | i < j < |init|
        ensures !SetsKey(init, j, key)
      {
        assert !SetsKey(args, j, key);
      }
      LastOptionWins(init, i, key);
      assert ArgDict(args)[key] == ArgDict(init)[key];
    }
  }

  /** Options without `'='` change nothing, wherever they appear. */
  lemma {:induction false} SkippedOption(pre: seq<string>, a: string, post: seq<string>)
    requires '=' !in a
    ensures ArgDict(pre + [a] + post) == ArgDict(pre + post)
    decreases |post|
  {
    if post == [] {
      ArgDictSnoc(pre, a);
      assert pre + [a] + post == pre + [a];
      assert pre + post == pre;
    } else {
      var last := post[|post| - 1];
      var post' := post[..|post| - 1];
      SkippedOption(pre, a, post');
      ArgDictSnoc(pre + [a] + post', last);
      ArgDictSnoc(pre + post', last);
      assert pre + [a] + post == (pre + [a] + post') + [last];
      assert pre + post == (pre + post') + [last];
    }
  }

  // ---------------------------------------------------------------------
  // Finding the response line
  // ---------------------------------------------------------------------

  /** The separators `str.splitlines` breaks at; `\r\n` counts as one. */
  const LineBreaks: set<char> := {'\n', '\r', '\U{0b}', '\U{0c}', '\U{1c}', '\U{1d}', '\U{1e}', '\U{85}', '\U{2028}', '\U{2029}'}

  predicate IsLineBreak(c: char) {
    c in LineBreaks
  }

  /** The characters `str.strip` removes. */
  const Whitespace: set<char> := {
    ' ', '\t', '\n', '\U{0b}', '\U{0c}', '\r', '\U{1c}', '\U{1d}', '\U{1e}', '\U{1f}',
    '\U{85}', '\U{a0}', '\U{1680}', '\U{2000}', '\U{2001}', '\U{2002}', '\U{2003}', '\U{2004}',
    '\U{2005}', '\U{2006}', '\U{2007}', '\U{2008}', '\U{2009}', '\U{200a}', '\U{2028}',
    '\U{2029}', '\U{202f}', '\U{205f}', '\U{3000}'}

  predicate IsSpace(c: char) {
    c in Whitespace
  }

  predicate NoBreaks(s: string) {
    forall i :: 0 <= i < |s| ==> !IsLineBreak(s[i])
  }

  predicate AllBreaks(s: string) {
    forall i :: 0 <= i < |s| ==> IsLineBreak(s[i])
  }

  /** The index of the first line break in `s`, or `|s|`. */
  function BreakAt(s: string): (k: nat)
    ensures k <= |s|
    ensures k < |s| ==> IsLineBreak(s[k])
    ensures NoBreaks(s[..k])
  {
    if s == [] || IsLineBreak(s[0]) then 0
    else
      var k := BreakAt(s[1..]);
      assert s[..k + 1] == [s[0]] + s[1..][..k];
      1 + k
  }

  /** The length of the line terminator at `s[k]`: two for `\r\n`, else one. */
  function TerminatorLength(s: string, k: nat): (n: nat)
    requires k < |s| && IsLineBreak(s[k])
    ensures 1 <= n && k + n <= |s|
    ensures AllBreaks(s[k..k + n])
  {
    if s[k] == '\r' && k + 1 < |s| && s[k + 1] == '\n' then 2 else 1
  }

  /** `s.splitlines()`: the lines without their terminators; no empty line after a final break. */
  function SplitLines(s: string): seq<string>
    decreases |s|
  {
    if s == [] then []
    else
      var k := BreakAt(s);
      if k == |s| then [s]
      else [s[..k]] + SplitLines(s[k + TerminatorLength(s, k)..])
  }

  /** `s` without its line-break characters. */
  function DropBreaks(s: string): string {
    if s == [] then []
    else (if IsLineBreak(s[0]) then [] else [s[0]]) + DropBreaks(s[1..])
  }

  function Concat(lines: seq<string>): string {
    if lines == [] then [] else lines[0] + Concat(lines[1..])
  }

  lemma {:induction false} DropBreaksAppend(a: string, b: string)
    ensures DropBreaks(a + b) == DropBreaks(a) + DropBreaks(b)
  {
    if a == [] {
      assert a + b == b;
    } else {
      assert (a + b)[1..] == a[1..] + b;
      DropBreaksAppend(a[1..], b);
    }
  }

  lemma {:induction false} DropBreaksOfNoBreaks(s: string)
    requires NoBreaks(s)
    ensures DropBreaks(s) == s
  {
    if s != [] {
      DropBreaksOfNoBreaks(s[1..]);
    }
  }

  lemma {:induction false} DropBreaksOfBreaks(s: string)
    requires AllBreaks(s)
    ensures DropBreaks(s) == []
  {
    if s != [] {
      DropBreaksOfBreaks(s[1..]);
    }
  }

  /** No line contains a line break. */
  lemma {:induction false} SplitLinesNoBreaks(s: string)
    ensures forall i :: 0 <= i < |SplitLines(s)| ==> NoBreaks(SplitLines(s)[i])
    decreases |s|
  {
    if s != [] {
      var k := BreakAt(s);
      if k == |s| {
        assert s[..k] == s;
      } else {
        var rest := s[k + TerminatorLength(s, k)..];
        SplitLinesNoBreaks(rest);
        var lines := SplitLines(s);
        assert lines == [s[..k]] + SplitLines(rest);
        forall i | 0 <= i < |lines|
          ensures NoBreaks(lines[i])
        {
          if i > 0 {
            assert lines[i] == SplitLines(rest)[i - 1];
          }
        }
      }
    }
  }

  /** Dropping the breaks from a line, its terminator and the rest keeps the line and the rest's text. */
  lemma DropBreaksFirstLine(s: string, k: nat, n: nat)
    requires k + n <= |s| && NoBreaks(s[..k]) && AllBreaks(s[k..k + n])
    ensures DropBreaks(s) == s[..k] + DropBreaks(s[k + n..])
  {
    var line, term, rest := s[..k], s[k..k + n], s[k + n..];
    assert s == line + s[k..];
    assert s[k..] == term + rest;
    DropBreaksAppend(line, s[k..]);
    DropBreaksAppend(term, rest);
    DropBreaksOfNoBreaks(line);
    DropBreaksOfBreaks(term);
    assert [] + DropBreaks(rest) == DropBreaks(rest);
  }

  lemma ConcatCons(line: string, lines: seq<string>)
    ensures Concat([line] + lines) == line + Concat(lines)
  {
    assert ([line] + lines)[1..] == lines;
  }

  /** Splitting loses the line terminators and nothing else. */
  lemma {:induction false} SplitLinesKeepsText(s: string)
    ensures Concat(SplitLines(s)) == DropBreaks(s)
    decreases |s|
  {
    if s != [] {
      var k := BreakAt(s);
      if k == |s| {
        assert s[..k] == s;
        DropBreaksOfNoBreaks(s);
        ConcatCons(s, []);
      } else {
        var rest := s[k + TerminatorLength(s, k)..];
        SplitLinesKeepsText(rest);
        DropBreaksFirstLine(s, k, TerminatorLength(s, k));
        ConcatCons(s[..k], SplitLines(rest));
      }
    }
  }

  predicate AllSpace(s: string) {
    forall i :: 0 <= i < |s| ==> IsSpace(s[i])
  }

  /** Every character of `s[lo..hi]` is whitespace. */
  predicate SpaceBetween(s: string, lo: int, hi: int)
    requires 0 <= lo <= hi <= |s|
  {
    forall i :: lo <= i < hi ==> IsSpace(s[i])
  }

  /** The end of the whitespace run that starts at `i`. */
  function SpaceFrom(s: string, i: nat): (j: nat)
    requires i <= |s|
    ensures i <= j <= |s| && SpaceBetween(s, i, j)
    ensures j < |s| ==> !IsSpace(s[j])
    decreases |s| - i
  {
    if i == |s| || !IsSpace(s[i]) then i else SpaceFrom(s, i + 1)
  }

  /** The start of the whitespace run that ends at `j`. */
  function SpaceBefore(s: string, j: nat): (i: nat)
    requires j <= |s|
    ensures i <= j && SpaceBetween(s, i, j)
    ensures 0 < i ==> !IsSpace(s[i - 1])
  {
    if j == 0 || !IsSpace(s[j - 1]) then j else SpaceBefore(s, j - 1)
  }

  /** `s.strip()`: the slice left once whitespace is removed from both ends. */
  function Strip(s: string): string {
    var lo := SpaceFrom(s, 0);
    if lo == |s| then []
    else
      var hi := SpaceBefore(s, |s|);
      s[lo..hi]
  }

  /**
   * Stripping leaves nothing exactly from all-whitespace text, and otherwise
   * the slice between the leading and the trailing whitespace, with no
   * whitespace at either end.
   */
  lemma StripSpec(s: string)
    ensures var r := Strip(s);
            && (r == [] <==> AllSpace(s))
            && (r != [] ==> exists lo, hi :: 0 <= lo < hi <= |s| && r == s[lo..hi]
                              && SpaceBetween(s, 0, lo) && SpaceBetween(s, hi, |s|))
            && (r != [] ==> !IsSpace(r[0]) && !IsSpace(r[|r| - 1]))
  {
    var lo := SpaceFrom(s, 0);
    if lo < |s| {
      var hi := SpaceBefore(s, |s|);
      var r := Strip(s);
      assert r == s[lo..hi];
      assert r[0] == s[lo] && r[|r| - 1] == s[hi - 1];
      assert !AllSpace(s) by {
        assert !IsSpace(s[lo]);
      }
    }
  }

  /** `obj.get('id') == 1`, where Python's `True == 1` holds as well. */
  predicate IdIsOne(j: Json) {
    j == JInt(RequestId) || j == JBool(true)
  }

  /** A parse result that answers request 1: a JSON object whose id is 1. */
  predicate IsAnswer(j: Option<Json>) {
    j.Some? && j.value.JObject? && "id" in j.value.fields && IdIsOne(j.value.fields["id"])
  }

  /**
   * The line, stripped, is non-empty and parses as a JSON object whose id
   * is 1. A parse failure, or a parsed value that is not an object, is
   * skipped like any other line.
   */
  predicate Answers(parse: string -> Option<Json>, line: string) {
    Strip(line) != [] && IsAnswer(parse(Strip(line)))
  }

  /** The index of the first answering line at or after `from`, or the number of lines. */
  function FirstAnswering(parse: string -> Option<Json>, lines: seq<string>, from: nat): (k: nat)
    requires from <= |lines|
    ensures from <= k <= |lines|
    ensures k < |lines| ==> Answers(parse, lines[k])
    ensures forall j :: from <= j < k ==> !Answers(parse, lines[j])
    decreases |lines| - from
  {
    if from == |lines| || Answers(parse, lines[from]) then from
    else FirstAnswering(parse, lines, from + 1)
  }

  /** The answer the driver returns from the lines `lines`: the parsed first answering line, if any. */
  function FirstAnswer(parse: string -> Option<Json>, lines: seq<string>): (r: Option<Json>)
    ensures r.None? <==> forall i :: 0 <= i < |lines| ==> !Answers(parse, lines[i])
    ensures r.Some? ==> IsAnswer(r)
  {
    var k := FirstAnswering(parse, lines, 0);
    if k < |lines| then parse(Strip(lines[k])) else None
  }

  /** The scan over the server's output in `run_request`. */
  method FindResponse(out: string, parse: string -> Option<Json>) returns (r: Option<Json>)
    ensures r == FirstAnswer(parse, SplitLines(out))
  {
    var lines := SplitLines(out);
    var i := 0;
    while i < |lines|
      invariant 0 <= i <= |lines|
      invariant forall j :: 0 <= j < i ==> !Answers(parse, lines[j])
    {
      var line := Strip(lines[i]);
      if line != [] {
        var obj := parse(line);
        if obj.Some? && obj.value.JObject? && "id" in obj.value.fields && IdIsOne(obj.value.fields["id"]) {
          assert Answers(parse, lines[i]);
          assert FirstAnswering(parse, lines, 0) == i;
          return obj;
        }
      }
      i := i + 1;
    }
    assert FirstAnswering(parse, lines, 0) == |lines|;
    return None;
  }

  /** The envelope the driver sends would itself be taken for the answer, were the server to echo it. */
  lemma EchoIsAnswer(tool: string, args: map<string, Json>, parse: string -> Option<Json>, line: string)
    requires Strip(line) != [] && parse(Strip(line)) == Some(Envelope(tool, args))
    ensures Answers(parse, line)
  {
  }
}
