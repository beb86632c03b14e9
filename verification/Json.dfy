/** The agent's JSON reader as functions of the text left to read, and the origin's way of
    writing strings and numbers. A character stands for an octet. */
module Json {
  import opened Prelude
  import Decimal

  const U64 := 0x1_0000_0000_0000_0000

  /** std::isspace in the C locale. */
  predicate IsSpace(c: char) {
    c == ' ' || 9 as char <= c <= 13 as char
  }

  function SkipSpace(s: string): (r: string)
    ensures |r| <= |s| && (r == "" || !IsSpace(r[0]))
  {
    if s != "" && IsSpace(s[0]) then SkipSpace(s[1..]) else s
  }

  /** The text after the given character, if it comes next. */
  function Take(s: string, c: char): (r: Option<string>)
    ensures r.Some? ==> |r.value| < |s|
  {
    var t := SkipSpace(s);
    if t != "" && t[0] == c then Some(t[1..]) else None
  }

  // --------------------------------------------------------------------- strings

  function Unescape(c: char): Option<char> {
    if c == '"' || c == '\\' || c == '/' then Some(c)
    else if c == 'b' then Some(8 as char)
    else if c == 'f' then Some(12 as char)
    else if c == 'n' then Some('\n')
    else if c == 'r' then Some('\r')
    else if c == 't' then Some('\t')
    else None
  }

  /** The string whose opening quote has been read, and the text after its closing quote. */
  function StringBody(s: string): (r: Option<(string, string)>)
    ensures r.Some? ==> |r.value.1| < |s|
  {
    if s == "" then None
    else if s[0] == '"' then Some(("", s[1..]))
    else if s[0] < 0x20 as char then None
    else if s[0] != '\\' then Prefix(s[0], StringBody(s[1..]))
    else if |s| < 2 || Unescape(s[1]).None? then None
    else Prefix(Unescape(s[1]).value, StringBody(s[2..]))
  }

  function Prefix(c: char, r: Option<(string, string)>): Option<(string, string)> {
    if r.None? then None else Some(([c] + r.value.0, r.value.1))
  }

  function ReadString(s: string): (r: Option<(string, string)>)
    ensures r.Some? ==> |r.value.1| < |s|
  {
    var t := SkipSpace(s);
    if t != "" && t[0] == '"' then StringBody(t[1..]) else None
  }

  function EscapeChar(c: char): string {
    if c == '"' then ['\\', '"']
    else if c == '\\' then ['\\', '\\']
    else if c == '\n' then ['\\', 'n']
    else if c == '\r' then ['\\', 'r']
    else if c == '\t' then ['\\', 't']
    else [c]
  }

  function Escape(s: string): string {
    if s == "" then "" else Escape(s[..|s| - 1]) + EscapeChar(s[|s| - 1])
  }

  /** json_escape */
  method JsonEscape(s: string) returns (out: string)
    ensures out == Escape(s)
  {
    out := "";
    for i := 0 to |s|
      invariant out == Escape(s[..i])
    {
      assert s[..i + 1][..i] == s[..i];
      match s[i] {
        case '"' => out := out + ['\\', '"'];
        case '\\' => out := out + ['\\', '\\'];
        case '\n' => out := out + ['\\', 'n'];
        case '\r' => out := out + ['\\', 'r'];
        case '\t' => out := out + ['\\', 't'];
        case _ => out := out + [s[i]];
      }
    }
    assert s[..|s|] == s;
  }

  /** What the escaping can carry: no control octet but the three it has names for. */
  predicate Carriable(c: char) {
    c >= 0x20 as char || c == '\n' || c == '\r' || c == '\t'
  }

  predicate Printable(s: string) {
    forall i | 0 <= i < |s| :: Carriable(s[i])
  }

  lemma EscapedChar(c: char, rest: string)
    ensures StringBody(EscapeChar(c) + rest) == if Carriable(c) then Prefix(c, StringBody(rest)) else None
  {
    var e := EscapeChar(c) + rest;
    if |EscapeChar(c)| == 2 {
      assert e[2..] == rest;
    } else {
      assert e[1..] == rest;
    }
  }

  /** Puts a whole string in front of what was read. */
  function PrefixAll(s: string, r: Option<(string, string)>): Option<(string, string)> {
    if r.None? then None else Some((s + r.value.0, r.value.1))
  }

  lemma {:induction false} EscapedString(s: string, rest: string)
    ensures StringBody(Escape(s) + rest) == if Printable(s) then PrefixAll(s, StringBody(rest)) else None
    decreases |s|
  {
    hide StringBody, EscapeChar, Carriable;
    if s == "" {
      assert Escape(s) + rest == rest;
      if StringBody(rest).Some? {
        assert "" + StringBody(rest).value.0 == StringBody(rest).value.0;
      }
    } else {
      var before, last := s[..|s| - 1], s[|s| - 1];
      EscapedChar(last, rest);
      EscapedString(before, EscapeChar(last) + rest);
      assert Escape(s) + rest == Escape(before) + (EscapeChar(last) + rest);
      assert s == before + [last];
      assert Printable(s) <==> Printable(before) && Carriable(last);
      if StringBody(rest).Some? {
        assert before + ([last] + StringBody(rest).value.0) == s + StringBody(rest).value.0;
      }
    }
  }

  /** A string between quotes, followed by more text. */
  function Quoted(s: string, tail: string): string {
    "\"" + s + "\"" + tail
  }

  /** An escaped string is read back if and only if it holds no control octet other than
      newline, carriage return and tab; otherwise it is refused. */
  lemma StringRoundTrip(s: string, tail: string)
    ensures ReadString(Quoted(Escape(s), tail)) == if Printable(s) then Some((s, tail)) else None
  {
    hide Escape, Printable;
    var text := Quoted(Escape(s), tail);
    assert text[1..] == Escape(s) + ("\"" + tail);
    EscapedString(s, "\"" + tail);
    assert ("\"" + tail)[1..] == tail;
    assert s + "" == s;
  }

  /** A key needs no escaping. */
  predicate PlainKey(s: string) {
    forall i | 0 <= i < |s| :: 'a' <= s[i] <= 'z' || s[i] == '_'
  }

  lemma {:induction false} PlainIsItself(s: string)
    requires PlainKey(s)
    ensures Escape(s) == s && Printable(s)
  {
    hide EscapeChar, Carriable;
    if s != "" {
      PlainIsItself(s[..|s| - 1]);
      PlainCharIsItself(s[|s| - 1]);
      assert s == s[..|s| - 1] + [s[|s| - 1]];
    }
  }

  lemma PlainCharIsItself(c: char)
    requires 'a' <= c <= 'z' || c == '_'
    ensures EscapeChar(c) == [c] && Carriable(c)
  {
  }

  // --------------------------------------------------------------------- numbers

  function ReadNumber(s: string): (r: Option<(nat, string)>)
    ensures r.Some? ==> |r.value.1| < |s|
  {
    var t := SkipSpace(s);
    var n := Decimal.DigitRun(t);
    if n == 0 then None
    else
      RunIsDigits(t);
      var value := Decimal.Value(t[..n]);
      if value >= U64 then None else Some((value, t[n..]))
  }

  lemma {:induction false} RunIsDigits(s: string)
    ensures Decimal.AllDigits(s[..Decimal.DigitRun(s)])
  {
    if s != "" && Decimal.IsDigit(s[0]) {
      RunIsDigits(s[1..]);
      var n := Decimal.DigitRun(s[1..]);
      assert s[..n + 1] == [s[0]] + s[1..][..n];
    }
  }

  /** set_number: the number must also fit its field. */
  function ReadBounded(s: string, limit: nat): (r: Option<(nat, string)>)
    ensures r.Some? ==> |r.value.1| < |s| && r.value.0 < limit
  {
    var r := ReadNumber(s);
    if r.Some? && r.value.0 < limit then r else None
  }

  lemma NumberRoundTrip(n: nat, tail: string, limit: nat)
    requires n < limit <= U64 && tail != "" && !Decimal.IsDigit(tail[0])
    ensures ReadBounded(Decimal.Print(n) + tail, limit) == Some((n, tail))
  {
    var digits := Decimal.Print(n);
    var text := digits + tail;
    assert text[0] == digits[0] && Decimal.IsDigit(digits[0]);
    assert SkipSpace(text) == text;
    Decimal.DigitRunStops(digits, tail);
    assert text[..|digits|] == digits && text[|digits|..] == tail;
    Decimal.ValueOfPrint(n);
  }

  // ------------------------------------------------------------- skipped values

  function BareLength(s: string): (n: nat)
    ensures n <= |s|
  {
    if s == "" || s[0] == ',' || s[0] == '}' || s[0] == ']' then 0 else 1 + BareLength(s[1..])
  }

  /** Without the spaces at its end. */
  function Trimmed(s: string): (r: string)
    ensures |r| <= |s| && r == s[..|r|]
  {
    if s != "" && IsSpace(s[|s| - 1]) then Trimmed(s[..|s| - 1]) else s
  }

  /** skip_value: the text after the next value. */
  function SkipValue(s: string): (r: Option<string>)
    ensures r.Some? ==> |r.value| < |s|
    decreases |s|, 0
  {
    var t := SkipSpace(s);
    if t == "" then None
    else if t[0] == '"' then
      var r := ReadString(t);
      if r.None? then None else Some(r.value.1)
    else if t[0] == '{' || t[0] == '[' then
      var close := if t[0] == '{' then '}' else ']';
      if Take(t[1..], close).Some? then Take(t[1..], close) else SkipItems(t[1..], t[0] == '{')
    else
      var n := |Trimmed(t[..BareLength(t)])|;
      if n == 0 then None else Some(t[n..])
  }

  /** The loop of skip_container, up to and including the closing bracket. */
  function SkipItems(s: string, keyed: bool): (r: Option<string>)
    ensures r.Some? ==> |r.value| < |s|
    decreases |s|, 1
  {
    var close := if keyed then '}' else ']';
    var start := if keyed then SkipKey(s) else Some(s);
    if start.None? then None
    else
      var after := SkipValue(start.value);
      if after.None? then None
      else if Take(after.value, close).Some? then Take(after.value, close)
      else if Take(after.value, ',').None? then None
      else SkipItems(Take(after.value, ',').value, keyed)
  }

  /** A string and a colon. */
  function SkipKey(s: string): (r: Option<string>)
    ensures r.Some? ==> |r.value| < |s|
  {
    var key := ReadString(s);
    if key.None? then None else Take(key.value.1, ':')
  }

  // ---------------------------------------------------------------- object members

  datatype Member = End(rest: string) | Key(key: string, rest: string) | Malformed

  /** The start of both object loops: the closing brace, or the separator unless this is the
      first member, a key and a colon. */
  function NextMember(s: string, first: bool): (m: Member)
    ensures !m.Malformed? ==> |m.rest| < |s|
  {
    if Take(s, '}').Some? then End(Take(s, '}').value)
    else
      var t := if first then Some(s) else Take(s, ',');
      if t.None? then Malformed
      else
        var key := ReadString(t.value);
        if key.None? || Take(key.value.1, ':').None? then Malformed
        else Key(key.value.0, Take(key.value.1, ':').value)
  }

  function Separator(first: bool): string {
    if first then "" else ","
  }

  lemma KeyIsRead(key: string, rest: string, first: bool)
    requires PlainKey(key)
    ensures NextMember(Separator(first) + Quoted(key, ":" + rest), first) == Key(key, rest)
  {
    hide ReadString, Escape, Printable;
    var text := Quoted(key, ":" + rest);
    var s := Separator(first) + text;
    assert text[0] == '"';
    if first {
      assert s == text;
    } else {
      assert s[0] == ',' && s[1..] == text;
    }
    PlainIsItself(key);
    StringRoundTrip(key, ":" + rest);
    assert (":" + rest)[1..] == rest;
  }

  lemma EndIsRead(rest: string, first: bool)
    ensures NextMember("}" + rest, first) == End(rest)
  {
    assert ("}" + rest)[1..] == rest;
  }

  /** Reading on from where spaces end is reading on. */
  lemma SpacesDoNotMatter(s: string, c: char)
    ensures SkipSpace(SkipSpace(s)) == SkipSpace(s)
    ensures Take(SkipSpace(s), c) == Take(s, c) && ReadString(SkipSpace(s)) == ReadString(s)
  {
  }
}
