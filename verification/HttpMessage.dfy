/** Request heads: what `parse_request_head` and `content_length_of` make of the text
    before the blank line. A character stands for an octet. */
module HttpMessage {
  import opened Prelude
  import opened Text
  import Decimal

  const CRLF := "\r\n"
  const BLANK_LINE := "\r\n\r\n"
  const SIZE_MAX := 0x1_0000_0000_0000_0000

  datatype Request = Request(
    verb: string,
    path: string,
    query: string,
    version: string,
    headers: map<string, string>,
    body: string
  )

  function LowerChar(c: char): char {
    if 'A' <= c <= 'Z' then c - 'A' + 'a' else c
  }

  function Lower(s: string): (r: string)
    ensures |r| == |s|
  {
    seq(|s|, i requires 0 <= i < |s| => LowerChar(s[i]))
  }

  function SkipSpaces(s: string): string {
    if s != [] && s[0] == ' ' then SkipSpaces(s[1..]) else s
  }

  /** The lines of a header block, each but perhaps the last ended by CR LF. */
  function Lines(s: string): seq<string>
    decreases |s|
  {
    if s == "" then []
    else
      var end := Find(s, CRLF);
      if end.None? then [s] else [s[..end.value]] + Lines(s[end.value + 2..])
  }

  /** A line without a colon says nothing. */
  function AddHeader(headers: map<string, string>, line: string): map<string, string> {
    var colon := IndexOf(line, ':');
    if colon == |line| then headers else headers[Lower(line[..colon]) := SkipSpaces(line[colon + 1..])]
  }

  /** Later duplicates overwrite earlier ones. */
  function AddHeaders(headers: map<string, string>, lines: seq<string>): map<string, string>
    decreases |lines|
  {
    if lines == [] then headers else AddHeaders(AddHeader(headers, lines[0]), lines[1..])
  }

  function ParseRequestLine(line: string): Option<Request> {
    var sp1 := IndexOf(line, ' ');
    if sp1 == |line| then None
    else
      var rest := line[sp1 + 1..];
      var sp2 := IndexOf(rest, ' ');
      if sp2 == |rest| then None
      else
        var target := rest[..sp2];
        var q := IndexOf(target, '?');
        var query := if q == |target| then "" else target[q + 1..];
        Some(Request(line[..sp1], target[..q], query, rest[sp2 + 1..], map[], ""))
  }

  function ParseHead(head: string): Option<Request> {
    var end := Find(head, CRLF);
    match ParseRequestLine(if end.None? then head else head[..end.value])
    case None => None
    case Some(r) =>
      Some(r.(headers := AddHeaders(map[], if end.None? then [] else Lines(head[end.value + 2..]))))
  }

  // ---------------------------------------------------------------- the parser

  /** The inner loop over the spaces before a header's value. */
  method ValueOf(line: string, colon: nat) returns (value: string)
    requires colon < |line|
    ensures value == SkipSpaces(line[colon + 1..])
  {
    var start := colon + 1;
    while start < |line| && line[start] == ' '
      invariant colon < start <= |line|
      invariant SkipSpaces(line[start..]) == SkipSpaces(line[colon + 1..])
    {
      assert line[start..][1..] == line[start + 1..];
      start := start + 1;
    }
    value := line[start..];
  }

  /** parse_request_head: one pass over the lines with a moving position. */
  method ParseRequestHead(head: string) returns (r: Option<Request>)
    ensures r == ParseHead(head)
  {
    hide ParseRequestLine, AddHeader, SkipSpaces;
    var end := Find(head, CRLF);
    r := ParseRequestLine(if end.None? then head else head[..end.value]);
    if r.None? {
      return;
    }
    var headers := map[];
    if end.Some? {
      headers := ParseHeaders(head, end.value + 2);
    }
    r := Some(r.value.(headers := headers));
  }

  method ParseHeaders(head: string, from: nat) returns (headers: map<string, string>)
    requires from <= |head|
    ensures headers == AddHeaders(map[], Lines(head[from..]))
  {
    hide SkipSpaces, IndexOf, Lines, FindFrom, Lower;
    NoLines();
    assert from == |head| ==> head[from..] == "";
    headers := map[];
    var pos := from;
    while pos < |head|
      invariant from <= pos
      invariant AddHeaders(headers, Lines(if pos < |head| then head[pos..] else "")) ==
                AddHeaders(map[], Lines(head[from..]))
      decreases |head| - pos
    {
      var next := FindFrom(head, CRLF, pos);
      var stop := if next.None? then |head| else next.value;
      var line := head[pos..stop];
      var colon := IndexOf(line, ':');
      ghost var was := headers;
      if colon < |line| {
        var value := ValueOf(line, colon);
        headers := headers[Lower(line[..colon]) := value];
      }
      assert headers == AddHeader(was, line);
      LineAt(head, pos);
      pos := stop + 2;
    }
  }

  lemma NoLines()
    ensures Lines("") == []
  {
  }

  lemma LinesStep(s: string)
    requires s != ""
    ensures var end := Find(s, CRLF);
            Lines(s) == if end.None? then [s] else [s[..end.value]] + Lines(s[end.value + 2..])
  {
  }

  lemma LineAt(head: string, pos: nat)
    requires pos < |head|
    ensures var next := FindFrom(head, CRLF, pos);
            var stop := if next.None? then |head| else next.value;
            Lines(head[pos..]) == [head[pos..stop]] + Lines(if stop + 2 < |head| then head[stop + 2..] else "")
  {
    hide Lines, FindFrom;
    FindAfter(head, CRLF, pos);
    LinesStep(head[pos..]);
    var next := FindFrom(head, CRLF, pos);
    if next.Some? {
      var stop := next.value;
      assert head[pos..][..stop - pos] == head[pos..stop];
      assert head[pos..][stop - pos + 2..] == head[stop + 2..];
      assert stop + 2 == |head| ==> head[stop + 2..] == "";
    } else {
      assert head[pos..] == head[pos..|head|];
      NoLines();
    }
  }

  /** Searching from a position is searching the rest. */
  lemma {:induction false} FindAfter(s: string, pattern: string, from: nat)
    requires from <= |s|
    ensures FindFrom(s, pattern, from).Some? == Find(s[from..], pattern).Some?
    ensures FindFrom(s, pattern, from).Some? ==>
              FindFrom(s, pattern, from).value == from + Find(s[from..], pattern).value
  {
    forall i: nat | from <= i
      ensures At(s, pattern, i) == At(s[from..], pattern, i - from)
    {
      if i + |pattern| <= |s| {
        assert s[from..][i - from..i - from + |pattern|] == s[i..i + |pattern|];
      }
    }
    var a, b := FindFrom(s, pattern, from), Find(s[from..], pattern);
    if a.Some? {
      assert At(s[from..], pattern, a.value - from);
    }
    if b.Some? {
      assert At(s, pattern, b.value + from);
    }
  }

  /** content_length_of: absent means none; otherwise every character must be a digit, at
      least one, and the number must fit a 64-bit size. */
  function ContentLength(r: Request): Option<nat> {
    if "content-length" !in r.headers then Some(0)
    else
      var value := r.headers["content-length"];
      if value == "" || !Decimal.AllDigits(value) || Decimal.Value(value) >= SIZE_MAX then None
      else Some(Decimal.Value(value))
  }

  /** A request line written out is read back, whatever headers follow. */
  lemma RequestLineReadsBack(verb: string, target: string, version: string, rest: string)
    requires ' ' !in verb && ' ' !in target && NoBreak(verb + " " + target + " " + version)
    ensures var head := verb + " " + target + " " + version + CRLF + rest;
            var q := IndexOf(target, '?');
            ParseHead(head) == Some(Request(verb, target[..q], if q == |target| then "" else target[q + 1..], version,
                                            AddHeaders(map[], Lines(rest)), ""))
  {
    hide AddHeaders, Lines, ParseRequestLine, FindFrom;
    var line := verb + [' '] + (target + [' '] + version);
    var head := line + CRLF + rest;
    assert verb + " " + target + " " + version == line;
    FirstLine(line, rest);
    assert head[..|line|] == line && head[|line| + 2..] == rest;
    RequestLine(verb, target, version);
  }

  lemma SplitAtSpace(word: string, rest: string)
    requires ' ' !in word
    ensures var s := word + [' '] + rest;
            IndexOf(s, ' ') == |word| < |s| && s[..|word|] == word && s[|word| + 1..] == rest
  {
    IndexOfFirst(word, ' ', rest);
  }

  lemma RequestLine(verb: string, target: string, version: string)
    requires ' ' !in verb && ' ' !in target
    ensures var q := IndexOf(target, '?');
            ParseRequestLine(verb + [' '] + (target + [' '] + version)) ==
            Some(Request(verb, target[..q], if q == |target| then "" else target[q + 1..], version, map[], ""))
  {
    hide IndexOf;
    SplitAtSpace(verb, target + [' '] + version);
    SplitAtSpace(target, version);
  }

  /** No CR LF inside. */
  predicate NoBreak(s: string) {
    forall i | 0 < i < |s| :: !(s[i - 1] == '\r' && s[i] == '\n')
  }

  lemma FirstLine(line: string, rest: string)
    requires NoBreak(line)
    ensures Find(line + CRLF + rest, CRLF) == Some(|line|)
  {
    var s := line + CRLF + rest;
    assert At(s, CRLF, |line|);
    forall i: nat | i < |line|
      ensures !At(s, CRLF, i)
    {
      assert s[i..i + 2][0] == s[i] && s[i..i + 2][1] == s[i + 1];
      assert s[i] == line[i] && s[i + 1] == if i + 1 < |line| then line[i + 1] else '\r';
    }
  }

  /** The line before the first CR LF has none inside. */
  lemma LineHasNoBreak(s: string)
    ensures NoBreak(if Find(s, CRLF).None? then s else s[..Find(s, CRLF).value])
  {
    var line := if Find(s, CRLF).None? then s else s[..Find(s, CRLF).value];
    forall i | 0 < i < |line|
      ensures !(line[i - 1] == '\r' && line[i] == '\n')
    {
      assert !At(s, CRLF, i - 1);
      assert s[i - 1..i + 1] == [line[i - 1], line[i]];
    }
  }
}
