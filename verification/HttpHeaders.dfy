/** Requests as a client writes them, and what the server makes of them: header fields looked up
    without regard to letter case, the last of several winning; the body length taken from the
    Content-Length field; and every refusal. */
module HttpHeaders {
  import opened Prelude
  import opened Text
  import opened HttpMessage
  import opened Framing
  import Decimal

  datatype Field = Field(name: string, value: string)

  /** The same letter in either case, or the same character. */
  predicate SameLetter(a: char, b: char) {
    a == b || (AsciiLetter(a) && AsciiLetter(b) && (a as int - b as int == 32 || b as int - a as int == 32))
  }

  predicate AsciiLetter(c: char) {
    'a' <= c <= 'z' || 'A' <= c <= 'Z'
  }

  predicate SameLetters(a: string, b: string) {
    |a| == |b| && forall i | 0 <= i < |a| :: SameLetter(a[i], b[i])
  }

  predicate NoCapitals(s: string) {
    forall i | 0 <= i < |s| :: !('A' <= s[i] <= 'Z')
  }

  predicate Spaces(s: string) {
    forall i | 0 <= i < |s| :: s[i] == ' '
  }

  /** `text` is `raw` without the spaces in front. */
  predicate Unpadded(raw: string, text: string) {
    && |text| <= |raw| && raw[|raw| - |text|..] == text && Spaces(raw[..|raw| - |text|])
    && (text != "" ==> text[0] != ' ')
  }

  /** The value of the last field of that name, as written. */
  function LastValue(fields: seq<Field>, name: string): Option<string> {
    if fields == [] then None else
      var later := LastValue(fields[1..], name);
      if later.Some? then later else if SameLetters(fields[0].name, name) then Some(fields[0].value) else None
  }

  function LineOf(f: Field): string {
    f.name + ":" + f.value
  }

  /** Fields a client can write: no colon in a name, no line break inside a line. */
  ghost predicate Writable(fields: seq<Field>) {
    forall i | 0 <= i < |fields| :: ':' !in fields[i].name && NoBreak(LineOf(fields[i]))
  }

  /** Each field on a line of its own, ended by CR LF. */
  function Block(fields: seq<Field>): string {
    if fields == [] then "" else LineOf(fields[0]) + CRLF + Block(fields[1..])
  }

  function LinesOf(fields: seq<Field>): seq<string> {
    if fields == [] then [] else [LineOf(fields[0])] + LinesOf(fields[1..])
  }

  // ------------------------------------------------------------ header fields

  lemma LowerChars(c: char, d: char)
    requires !('A' <= d <= 'Z')
    ensures LowerChar(c) == d <==> SameLetter(c, d)
    ensures !('A' <= LowerChar(c) <= 'Z')
  {
  }

  lemma LowerIsSameLetters(name: string, key: string)
    requires NoCapitals(key)
    ensures Lower(name) == key <==> SameLetters(name, key)
    ensures NoCapitals(Lower(name))
  {
    forall i | 0 <= i < |name|
      ensures !('A' <= Lower(name)[i] <= 'Z')
      ensures i < |key| ==> (Lower(name)[i] == key[i] <==> SameLetter(name[i], key[i]))
    {
      LowerChars(name[i], 'a');
      if i < |key| {
        LowerChars(name[i], key[i]);
      }
    }
  }

  lemma {:induction false} SkipsPadding(s: string)
    ensures Unpadded(s, SkipSpaces(s))
  {
    if s != [] && s[0] == ' ' {
      SkipsPadding(s[1..]);
      var text := SkipSpaces(s[1..]);
      assert s[|s| - |text|..] == s[1..][|s| - 1 - |text|..];
      assert s[..|s| - |text|] == [s[0]] + s[1..][..|s| - 1 - |text|];
    } else {
      assert s[..0] == [] && s[0..] == s;
    }
  }

  lemma FieldAdded(headers: map<string, string>, f: Field)
    requires ':' !in f.name
    ensures AddHeader(headers, LineOf(f)) == headers[Lower(f.name) := SkipSpaces(f.value)]
  {
    hide Lower, SkipSpaces;
    IndexOfFirst(f.name, ':', f.value);
    var line := LineOf(f);
    assert line == f.name + [':'] + f.value;
    assert line[..|f.name|] == f.name && line[|f.name| + 1..] == f.value;
  }

  /** What the parsed headers hold under a name without capitals. */
  predicate Holds(headers: map<string, string>, name: string, raw: Option<string>) {
    if raw.None? then name !in headers else name in headers && Unpadded(raw.value, headers[name])
  }

  lemma {:induction false} FieldsAdded(headers: map<string, string>, fields: seq<Field>, key: string)
    requires Writable(fields) && NoCapitals(key)
    ensures var all := AddHeaders(headers, LinesOf(fields));
            if LastValue(fields, key).Some? then Holds(all, key, LastValue(fields, key))
            else (key in all <==> key in headers) && (key in all ==> all[key] == headers[key])
    decreases |fields|
  {
    hide Unpadded, SameLetters, AddHeader, Lower, SkipSpaces;
    if fields != [] {
      var next := AddHeader(headers, LineOf(fields[0]));
      assert LinesOf(fields)[1..] == LinesOf(fields[1..]);
      FieldAdded(headers, fields[0]);
      LowerIsSameLetters(fields[0].name, key);
      SkipsPadding(fields[0].value);
      FieldsAdded(next, fields[1..], key);
    }
  }

  lemma {:induction false} NoCapitalNames(headers: map<string, string>, lines: seq<string>, key: string)
    requires forall k | k in headers :: NoCapitals(k)
    requires key in AddHeaders(headers, lines)
    ensures NoCapitals(key)
    decreases |lines|
  {
    if lines != [] {
      var colon := IndexOf(lines[0], ':');
      LowerIsSameLetters(lines[0][..colon], "");
      NoCapitalNames(AddHeader(headers, lines[0]), lines[1..], key);
    }
  }

  // ------------------------------------------------------------- whole heads

  /** A request up to and with its blank line. */
  function Written(verb: string, target: string, version: string, fields: seq<Field>): string {
    verb + " " + target + " " + version + CRLF + Block(fields) + CRLF
  }

  /** A line that is not empty does not look like a blank one. */
  lemma LineStarts(line: string, rest: string)
    requires line != "" && NoBreak(line)
    ensures !At(line + CRLF + rest, CRLF, 0)
  {
    FirstLine(line, rest);
  }

  /** A blank line is two line ends in a row. */
  lemma BlankAt(s: string, i: nat)
    ensures At(s, BLANK_LINE, i) ==> At(s, CRLF, i) && At(s, CRLF, i + 2)
  {
    if At(s, BLANK_LINE, i) {
      assert s[i..i + 2] == s[i..i + 4][..2] && s[i + 2..i + 4] == s[i..i + 4][2..];
    }
  }

  lemma AtRest(line: string, rest: string)
    ensures var s := line + CRLF + rest;
            At(s, CRLF, |line| + 2) == At(rest, CRLF, 0) && !At(s, CRLF, |line| + 1)
  {
    var s := line + CRLF + rest;
    assert s[|line| + 1] == '\n' && CRLF[0] == '\r';
    if |rest| >= 2 {
      assert s[|line| + 2..|line| + 4] == rest[0..2];
    }
    if |line| + 3 <= |s| {
      assert s[|line| + 1..|line| + 3][0] == '\n';
    }
  }

  /** No blank line begins before the second of two lines. */
  lemma NoneInFirst(line: string, rest: string, i: nat)
    requires NoBreak(line) && !At(rest, CRLF, 0) && i < |line| + 2
    ensures !At(line + CRLF + rest, BLANK_LINE, i)
  {
    hide FindFrom, At;
    var s := line + CRLF + rest;
    FirstLine(line, rest);
    AtRest(line, rest);
    BlankAt(s, i);
  }

  lemma BlankAfterLine(line: string, rest: string)
    requires NoBreak(line) && !At(rest, CRLF, 0) && Find(rest, BLANK_LINE).Some?
    ensures Find(line + CRLF + rest, BLANK_LINE) == Some(|line| + 2 + Find(rest, BLANK_LINE).value)
  {
    hide FindFrom, At, NoBreak;
    var s, n := line + CRLF + rest, |line| + 2;
    assert s[n..] == rest;
    FindAfter(s, BLANK_LINE, n);
    forall i: nat | i < n
      ensures !At(s, BLANK_LINE, i)
    {
      NoneInFirst(line, rest, i);
    }
  }

  lemma BlankEndsLine(line: string, rest: string)
    requires NoBreak(line)
    ensures Find(line + CRLF + CRLF + rest, BLANK_LINE) == Some(|line|)
  {
    hide FindFrom;
    var s := line + CRLF + CRLF + rest;
    assert s == line + CRLF + (CRLF + rest);
    FirstLine(line, CRLF + rest);
    assert s[|line|..|line| + 4] == BLANK_LINE;
    BlankLineIsBreak(s);
  }

  lemma LineIsSome(f: Field)
    ensures LineOf(f) != ""
  {
  }

  /** The first blank line of a head is the one at its end. */
  lemma {:induction false} BlankEndsHead(line: string, fields: seq<Field>, rest: string)
    requires NoBreak(line) && Writable(fields)
    ensures var head := line + CRLF + Block(fields) + CRLF;
            Find(head + rest, BLANK_LINE) == Some(|head| - 4)
    decreases |fields|
  {
    hide FindFrom, LineOf, NoBreak;
    var head := line + CRLF + Block(fields) + CRLF;
    if fields == [] {
      assert head + rest == line + CRLF + CRLF + rest;
      BlankEndsLine(line, rest);
    } else {
      var next := LineOf(fields[0]);
      var more := next + CRLF + Block(fields[1..]) + CRLF;
      BlankEndsHead(next, fields[1..], rest);
      LineIsSome(fields[0]);
      LineStarts(next, Block(fields[1..]) + CRLF + rest);
      assert more + rest == next + CRLF + (Block(fields[1..]) + CRLF + rest);
      BlankAfterLine(line, more + rest);
      assert head + rest == line + CRLF + (more + rest);
    }
  }

  /** A text without the line end at its end. */
  lemma WithoutEnd(line: string, more: string)
    ensures (line + CRLF + "")[..|line|] == line
    ensures |more| >= 2 ==> (line + CRLF + more)[..|line + CRLF + more| - 2] == line + CRLF + more[..|more| - 2]
  {
  }

  lemma BlockFirst(fields: seq<Field>)
    requires fields != []
    ensures Block(fields) == LineOf(fields[0]) + CRLF + Block(fields[1..]) && Block([]) == ""
    ensures LinesOf(fields) == [LineOf(fields[0])] + LinesOf(fields[1..]) && LinesOf([]) == []
  {
  }

  /** The first of several lines, and the rest. */
  lemma FirstOfLines(line: string, rest: string)
    requires NoBreak(line)
    ensures Lines(line + CRLF + rest) == [line] + Lines(rest)
  {
    hide FindFrom, Lines, NoBreak;
    var text := line + CRLF + rest;
    FirstLine(line, rest);
    LinesStep(text);
    assert text[..|line|] == line && text[|line| + 2..] == rest;
  }

  lemma OnlyLine(line: string)
    requires NoBreak(line) && line != ""
    ensures Lines(line) == [line]
  {
    hide FindFrom, Lines, NoBreak;
    LineAlone(line);
    LinesStep(line);
  }

  /** The text between the request line and the blank line, and its lines. */
  lemma {:induction false} BlockLines(fields: seq<Field>)
    requires Writable(fields) && fields != []
    ensures |Block(fields)| >= 2 && Lines(Block(fields)[..|Block(fields)| - 2]) == LinesOf(fields)
    decreases |fields|
  {
    hide LineOf, NoBreak, Lines, Block, LinesOf;
    var line, more := LineOf(fields[0]), Block(fields[1..]);
    BlockFirst(fields);
    WithoutEnd(line, more);
    LineIsSome(fields[0]);
    if fields[1..] == [] {
      OnlyLine(line);
      assert [line] + [] == [line];
    } else {
      BlockLines(fields[1..]);
      FirstOfLines(line, more[..|more| - 2]);
    }
  }

  predicate Line(verb: string, target: string, version: string) {
    ' ' !in verb && ' ' !in target && NoBreak(verb + " " + target + " " + version)
  }

  /** The request is the one written: its target split at the question mark, and every header
      looked up without regard to case, the last of several winning. */
  ghost predicate Reads(r: Request, verb: string, target: string, version: string, fields: seq<Field>) {
    && r.verb == verb && r.version == version && r.body == "" && '?' !in r.path
    && (if '?' in target then target == r.path + ['?'] + r.query else target == r.path && r.query == "")
    && (forall name | NoCapitals(name) :: Holds(r.headers, name, LastValue(fields, name)))
    && (forall name | name in r.headers :: NoCapitals(name))
  }

  /** The text has its first blank line at `n` and, up to there, reads as the request. */
  ghost predicate HeadRead(s: string, n: int, verb: string, target: string, version: string, fields: seq<Field>) {
    && 0 <= n <= |s| && Find(s, BLANK_LINE) == Some(n)
    && ParseHead(s[..n]).Some? && Reads(ParseHead(s[..n]).value, verb, target, version, fields)
  }

  lemma HeadersRead(fields: seq<Field>)
    requires Writable(fields)
    ensures var headers := AddHeaders(map[], LinesOf(fields));
            && (forall name | NoCapitals(name) :: Holds(headers, name, LastValue(fields, name)))
            && (forall name | name in headers :: NoCapitals(name))
  {
    hide AddHeaders, LinesOf, Holds, LastValue, NoCapitals, Writable;
    var headers := AddHeaders(map[], LinesOf(fields));
    forall name | NoCapitals(name)
      ensures Holds(headers, name, LastValue(fields, name))
    {
      FieldsAdded(map[], fields, name);
      HoldsNothing(headers, name, LastValue(fields, name));
    }
    forall name | name in headers
      ensures NoCapitals(name)
    {
      NoCapitalNames(map[], LinesOf(fields), name);
    }
  }

  lemma HoldsNothing(headers: map<string, string>, name: string, raw: Option<string>)
    requires raw.None? ==> name !in headers
    requires raw.Some? ==> Holds(headers, name, raw)
    ensures Holds(headers, name, raw)
  {
  }

  lemma TargetSplits(target: string, q: nat)
    requires q <= |target| && '?' !in target[..q] && (q < |target| ==> target[q] == '?')
    ensures '?' in target <==> q < |target|
    ensures if q < |target| then target == target[..q] + ['?'] + target[q + 1..] else target[..q] == target
  {
    if q < |target| {
      assert target == target[..q] + [target[q]] + target[q + 1..];
    } else {
      assert target[..q] == target;
    }
  }

  lemma ReadsParsed(r: Request, verb: string, target: string, version: string, fields: seq<Field>, q: nat)
    requires Writable(fields) && q == IndexOf(target, '?')
    requires r == Request(verb, target[..q], if q == |target| then "" else target[q + 1..], version,
                          AddHeaders(map[], LinesOf(fields)), "")
    ensures Reads(r, verb, target, version, fields)
  {
    hide AddHeaders, LinesOf, LastValue, Holds, NoCapitals, IndexOf, Writable;
    HeadersRead(fields);
    TargetSplits(target, q);
  }

  /** The text up to the blank line. */
  lemma HeadText(line: string, fields: seq<Field>, rest: string)
    ensures var head := line + CRLF + Block(fields) + CRLF;
            && (fields == [] ==> (head + rest)[..|head| - 4] == line)
            && (fields != [] ==> |Block(fields)| >= 2 &&
                                 (head + rest)[..|head| - 4] == line + CRLF + Block(fields)[..|Block(fields)| - 2])
  {
    var head := line + CRLF + Block(fields) + CRLF;
    if fields != [] {
      assert (head + rest)[..|head| - 4] == line + CRLF + Block(fields)[..|Block(fields)| - 2];
    } else {
      assert (head + rest)[..|head| - 4] == line;
    }
  }

  lemma LineAloneParses(verb: string, target: string, version: string)
    requires Line(verb, target, version)
    ensures var q := IndexOf(target, '?');
            ParseHead(verb + " " + target + " " + version) ==
            Some(Request(verb, target[..q], if q == |target| then "" else target[q + 1..], version, map[], ""))
  {
    hide FindFrom, ParseRequestLine, NoBreak, IndexOf;
    var line := verb + " " + target + " " + version;
    LineAlone(line);
    assert line == verb + [' '] + (target + [' '] + version);
    RequestLine(verb, target, version);
  }

  /** A head written out is found whole, whatever follows it, and parsed back. */
  lemma WrittenHeadReadsBack(verb: string, target: string, version: string, fields: seq<Field>, rest: string)
    requires Line(verb, target, version) && Writable(fields)
    ensures var head := Written(verb, target, version, fields);
            HeadRead(head + rest, |head| - 4, verb, target, version, fields)
  {
    hide ParseHead, Find, AddHeaders, Lines, NoBreak, Block, LinesOf, IndexOf, Writable, Reads;
    var line := verb + " " + target + " " + version;
    BlankEndsHead(line, fields, rest);
    HeadText(line, fields, rest);
    var q := IndexOf(target, '?');
    if fields == [] {
      EmptyBlock();
      LineAloneParses(verb, target, version);
      ReadsParsed(ParseHead(line).value, verb, target, version, fields, q);
    } else {
      BlockLines(fields);
      var block := Block(fields)[..|Block(fields)| - 2];
      RequestLineReadsBack(verb, target, version, block);
      ReadsParsed(ParseHead(line + CRLF + block).value, verb, target, version, fields, q);
    }
  }

  lemma EmptyBlock()
    ensures Block([]) == "" && LinesOf([]) == [] && AddHeaders(map[], []) == map[]
  {
  }

  // ----------------------------------------------------------------- framing

  lemma UnpaddedOnce(raw: string, a: string, b: string)
    requires Unpadded(raw, a) && Unpadded(raw, b)
    ensures a == b
  {
  }

  /** The text of the last field of that name without the spaces in front, or no such field. */
  predicate Carries(fields: seq<Field>, name: string, text: Option<string>) {
    var raw := LastValue(fields, name);
    if text.Some? then raw.Some? && Unpadded(raw.value, text.value) else raw.None?
  }

  lemma HeaderSays(r: Request, verb: string, target: string, version: string, fields: seq<Field>, name: string,
                   text: Option<string>)
    requires Reads(r, verb, target, version, fields) && NoCapitals(name) && Carries(fields, name, text)
    ensures if text.Some? then name in r.headers && r.headers[name] == text.value else name !in r.headers
  {
    hide Unpadded, LastValue;
    assert Holds(r.headers, name, LastValue(fields, name));
    if text.Some? {
      UnpaddedOnce(LastValue(fields, name).value, r.headers[name], text.value);
    }
  }

  /** Some digits and nothing else, of a number that fits 64 bits. */
  predicate IsLength(text: string) {
    text != "" && Decimal.AllDigits(text) && Decimal.Value(text) < SIZE_MAX
  }

  /** What a client that sends `length` as its Content-Length, in whatever letter case and however
      padded, or sends none, gets: refused for a head over the limit, for a length that is not a
      number, or for one over the limit; and otherwise its body taken with exactly that length. */
  function Expected(v: Server, headLength: nat, length: Option<string>): Head {
    if headLength > v.maxHeaderBytes then HeadReject(431)
    else if length.Some? && !IsLength(length.value) then HeadReject(400)
    else
      var n := if length.Some? then Decimal.Value(length.value) else 0;
      if n > v.maxBodyBytes then HeadReject(413) else HeadOk(headLength, Request("", "", "", "", map[], ""), n)
  }

  lemma LengthName()
    ensures NoCapitals("content-length") && NoCapitals("connection")
  {
  }

  lemma WrittenHeadFrames(v: Server, verb: string, target: string, version: string, fields: seq<Field>, rest: string,
                          length: Option<string>)
    requires Line(verb, target, version) && Writable(fields) && Carries(fields, "content-length", length)
    ensures var head := Written(verb, target, version, fields);
            |head| >= 4 &&
            var h, expected := FrameHead(v, head + rest), Expected(v, |head| - 4, length);
            if expected.HeadOk?
            then h.HeadOk? && h.marker == expected.marker && h.length == expected.length &&
                 Reads(h.request, verb, target, version, fields)
            else h == expected
  {
    hide ParseHead, Find, Reads, Carries, Written;
    var head := Written(verb, target, version, fields);
    WrittenHeadReadsBack(verb, target, version, fields, rest);
    var r := ParseHead((head + rest)[..|head| - 4]).value;
    LengthName();
    HeaderSays(r, verb, target, version, fields, "content-length", length);
  }

  /** A request written with its body's length in a Content-Length field, whatever the letter case
      of the field's name, is taken with exactly that body, and what follows it is left. */
  lemma WrittenRequestFrames(v: Server, verb: string, target: string, version: string, fields: seq<Field>, body: string,
                             rest: string, length: string)
    requires Line(verb, target, version) && Writable(fields) && Carries(fields, "content-length", Some(length))
    requires IsLength(length) && Decimal.Value(length) == |body| <= v.maxBodyBytes
    requires |Written(verb, target, version, fields)| <= v.maxHeaderBytes + 4
    ensures var f := FirstFrame(v, Written(verb, target, version, fields) + body + rest);
            && f.Whole? && f.rest == rest && f.request.body == body
            && Reads(f.request.(body := ""), verb, target, version, fields)
  {
    hide FrameHead, Reads, Carries, Written;
    var head := Written(verb, target, version, fields);
    var s := head + body + rest;
    assert s == head + (body + rest);
    WrittenHeadFrames(v, verb, target, version, fields, body + rest, Some(length));
    var h := FrameHead(v, s);
    assert s[|head|..|head| + |body|] == body && s[|head| + |body|..] == rest;
    NoBodyYet(h.request, verb, target, version, fields);
    assert h.request.(body := body).(body := "") == h.request;
  }

  lemma NoBodyYet(r: Request, verb: string, target: string, version: string, fields: seq<Field>)
    requires Reads(r, verb, target, version, fields)
    ensures r.body == ""
  {
  }

  /** The connection is kept exactly when the server allows it, the request is not its last one,
      and the client's last Connection field is `keep-alive`, or is not `close` on HTTP/1.1. */
  lemma KeptAliveExactly(v: Server, served: nat, r: Request, body: string, verb: string, target: string,
                         version: string, fields: seq<Field>, connection: Option<string>)
    requires Reads(r, verb, target, version, fields) && Carries(fields, "connection", connection)
    ensures KeepsAlive(v, served, r.(body := body)) <==>
              && v.keepAliveEnabled && served + 1 < v.maxRequests
              && (connection == Some("keep-alive") || (version == "HTTP/1.1" && connection != Some("close")))
  {
    hide Carries;
    LengthName();
    HeaderSays(r, verb, target, version, fields, "connection", connection);
    assert "close" != "keep-alive";
  }

  /** What is sent after the head is the body, or exactly the slice of the shared buffer. */
  lemma PayloadIsSlice(r: Response)
    ensures r.shared == "" ==> Payload(r) == Some(r.body)
    ensures r.shared != "" ==> (Payload(r).Some? <==> r.offset + r.length <= |r.shared|)
    ensures r.shared != "" && Payload(r).Some? ==>
              && |Payload(r).value| == r.length
              && forall i | 0 <= i < r.length :: Payload(r).value[i] == r.shared[r.offset + i]
  {
  }

  /** The octets of an answer: the head for the keep-alive decision taken, then the payload, and
      nothing at all for a slice outside its buffer. */
  lemma AnswerIsHeadAndPayload(v: Server, served: nat, r: Request)
    ensures var response := v.handler(served, r);
            var head := if KeepsAlive(v, served, r) then response.keepHead else response.closeHead;
            && (Payload(response).None? ==> Answer(v, served, r) == "")
            && (Payload(response).Some? ==>
                  && Answer(v, served, r)[..|head|] == head && Answer(v, served, r)[|head|..] == Payload(response).value
                  && |Answer(v, served, r)| == |head| + |Payload(response).value|)
            && (GoesOn(v, served, r) <==> KeepsAlive(v, served, r) && Payload(response).Some?)
  {
  }

  /** A refusal is the error head of its status and a fixed body, and ends the connection. */
  lemma RefusalEndsConnection(v: Server, served: nat, input: string, status: nat)
    requires input != "" && FirstFrame(v, input) == Reject(status)
    ensures Serve(v, served, input) == Outcome([], v.failureHead(status) + "{\"error\":\"bad_request\"}", true)
  {
    hide FirstFrame;
  }
}
