/** The playback-session redirect: a playlist URL without a valid session is sent on to
    the same URL with one, and following that redirect is never redirected again. */
module SessionRedirect {
  import opened Prelude
  import opened Text
  import opened HttpMessage

  const SESSION := "viewer_session"
  const STREAM := "viewer_stream"
  const CACHE := "viewer_cache"

  // ------------------------------------------------------------ query strings

  function KeyOf(pair: string): string {
    pair[..IndexOf(pair, '=')]
  }

  /** What one pair adds: nothing without '=', nothing when the key is already there. */
  function AddParam(params: map<string, string>, pair: string): map<string, string> {
    var eq := IndexOf(pair, '=');
    if eq == |pair| || pair[..eq] in params then params else params[pair[..eq] := pair[eq + 1..]]
  }

  function Params(pairs: seq<string>): map<string, string> {
    if pairs == [] then map[] else AddParam(Params(pairs[..|pairs| - 1]), pairs[|pairs| - 1])
  }

  predicate Related(pair: string) {
    pair == "" || KeyOf(pair) == SESSION || KeyOf(pair) == STREAM || KeyOf(pair) == CACHE
  }

  /** The pairs that are not session metadata, in order. */
  function Unrelated(pairs: seq<string>): seq<string> {
    if pairs == [] then [] else
      Unrelated(pairs[..|pairs| - 1]) + if Related(pairs[|pairs| - 1]) then [] else [pairs[|pairs| - 1]]
  }

  function Join(pairs: seq<string>): string {
    if pairs == [] then ""
    else if |pairs| == 1 then pairs[0]
    else Join(pairs[..|pairs| - 1]) + "&" + pairs[|pairs| - 1]
  }

  /** The pair that starts at `pos`, as both loops below cut it out. */
  function PairAt(query: string, pos: nat): string
    requires pos <= |query|
  {
    query[pos..][..IndexOf(query[pos..], '&')]
  }

  lemma SplitStep(s: string)
    requires s != ""
    ensures var n := IndexOf(s, '&');
            Split(s, '&') == [s[..n]] + Split(if n < |s| then s[n + 1..] else "", '&')
  {
    if IndexOf(s, '&') == |s| {
      assert s[..|s|] == s;
    }
  }

  /** The text after a pair that ends before `pos`. */
  function From(query: string, pos: nat): string {
    if pos <= |query| then query[pos..] else ""
  }

  lemma PairStep(query: string, pos: nat)
    requires pos < |query|
    ensures var pair := PairAt(query, pos);
            Split(From(query, pos), '&') == [pair] + Split(From(query, pos + |pair| + 1), '&')
  {
    hide Split, IndexOf;
    var rest := query[pos..];
    SplitStep(rest);
    var n := IndexOf(rest, '&');
    if n < |rest| {
      assert rest[n + 1..] == query[pos + n + 1..];
    } else {
      assert From(query, pos + n + 1) == "";
    }
  }

  lemma OneMorePair(pairs: seq<string>, pair: string)
    ensures Params(pairs + [pair]) == AddParam(Params(pairs), pair)
    ensures Unrelated(pairs + [pair]) == Unrelated(pairs) + if Related(pair) then [] else [pair]
  {
    assert (pairs + [pair])[..|pairs|] == pairs;
  }

  lemma OneMoreJoined(pairs: seq<string>, pair: string)
    ensures Join(pairs + [pair]) == if pairs == [] then pair else Join(pairs) + "&" + pair
  {
    assert (pairs + [pair])[..|pairs|] == pairs;
  }

  /** parse_query: the first value of a key wins. */
  method ParseQuery(query: string) returns (params: map<string, string>)
    ensures params == Params(Split(query, '&'))
  {
    hide AddParam, Split, IndexOf, PairAt, From;
    FromEnds(query);
    params := map[];
    var pos := 0;
    ghost var done := [];
    assert Split("", '&') == [] by { SplitLast("", '&'); }
    while pos < |query|
      invariant params == Params(done)
      invariant Split(query, '&') == done + Split(From(query, pos), '&')
      decreases |query| - pos
    {
      PairStep(query, pos);
      var pair := PairAt(query, pos);
      OneMorePair(done, pair);
      params := AddParam(params, pair);
      ghost var rest := Split(From(query, pos + |pair| + 1), '&');
      assert done + ([pair] + rest) == done + [pair] + rest;
      done := done + [pair];
      pos := pos + |pair| + 1;
    }
    assert done + [] == done;
  }

  lemma FromEnds(query: string)
    ensures From(query, 0) == query
    ensures forall pos: nat | pos >= |query| :: From(query, pos) == ""
  {
  }

  /** Appending a pair to a query built so far. */
  method AppendPair(query: string, pair: string, ghost pairs: seq<string>) returns (out: string)
    requires query == Join(pairs) && (query == "" <==> pairs == []) && pair != ""
    ensures out == Join(pairs + [pair]) && out != ""
  {
    hide Join;
    OneMoreJoined(pairs, pair);
    out := query;
    if out != "" {
      out := out + "&";
    }
    out := out + pair;
    assert "" + pair == pair;
  }

  /** query_without_session_params */
  method QueryWithoutSessionParams(query: string) returns (out: string)
    ensures out == Join(Unrelated(Split(query, '&')))
  {
    hide KeyOf, Split, IndexOf, PairAt, Join, Params, From;
    FromEnds(query);
    out := "";
    var pos := 0;
    ghost var done := [];
    assert Split("", '&') == [] by { SplitLast("", '&'); }
    assert Join([]) == "" by { JoinNothing(); }
    while pos < |query|
      invariant out == Join(Unrelated(done))
      invariant Split(query, '&') == done + Split(From(query, pos), '&')
      decreases |query| - pos
    {
      PairStep(query, pos);
      var pair := PairAt(query, pos);
      OneMorePair(done, pair);
      JoinedIsEmpty(done);
      if !Related(pair) {
        out := AppendPair(out, pair, Unrelated(done));
      } else {
        assert Unrelated(done) + [] == Unrelated(done);
      }
      ghost var rest := Split(From(query, pos + |pair| + 1), '&');
      assert done + ([pair] + rest) == done + [pair] + rest;
      done := done + [pair];
      pos := pos + |pair| + 1;
    }
    assert done + [] == done;
  }

  lemma JoinNothing()
    ensures Join([]) == ""
  {
  }

  /** Nothing but an empty list of unrelated pairs joins to the empty text. */
  lemma {:induction false} JoinedIsEmpty(pairs: seq<string>)
    ensures Join(Unrelated(pairs)) == "" <==> Unrelated(pairs) == []
  {
    if pairs != [] {
      JoinedIsEmpty(pairs[..|pairs| - 1]);
      OneMoreJoined(Unrelated(pairs[..|pairs| - 1]), pairs[|pairs| - 1]);
    }
  }

  // ------------------------------------------------------------ percent-encoding

  predicate Octets(s: string) {
    forall i | 0 <= i < |s| :: s[i] < 256 as char
  }

  predicate Unreserved(c: char) {
    'a' <= c <= 'z' || 'A' <= c <= 'Z' || '0' <= c <= '9' || c == '-' || c == '_' || c == '.' || c == '~'
  }

  function Hex(n: nat): char
    requires n < 16
  {
    if n < 10 then '0' + n as char else 'A' + (n - 10) as char
  }

  function EncodeChar(c: char): string
    requires c < 256 as char
  {
    if Unreserved(c) then [c] else ['%', Hex(c as int / 16), Hex(c as int % 16)]
  }

  function Encode(s: string): string
    requires Octets(s)
  {
    if s == "" then "" else Encode(s[..|s| - 1]) + EncodeChar(s[|s| - 1])
  }

  /** percent_encode */
  method PercentEncode(s: string) returns (out: string)
    requires Octets(s)
    ensures out == Encode(s)
  {
    hide EncodeChar;
    out := "";
    for i := 0 to |s|
      invariant out == Encode(s[..i])
    {
      assert s[..i + 1][..i] == s[..i];
      out := out + EncodeChar(s[i]);
    }
    assert s[..|s|] == s;
  }

  predicate Plain(c: char) {
    Unreserved(c) || c == '%'
  }

  /** No character of the encoding can end a pair, a query or a request line. */
  lemma {:induction false} EncodeIsPlain(s: string)
    requires Octets(s)
    ensures forall i | 0 <= i < |Encode(s)| :: Plain(Encode(s)[i])
    ensures s != "" ==> Encode(s) != ""
  {
    if s != "" {
      EncodeIsPlain(s[..|s| - 1]);
      EncodeCharIsPlain(s[|s| - 1]);
    }
  }

  lemma EncodeCharIsPlain(c: char)
    requires c < 256 as char
    ensures EncodeChar(c) != "" && forall i | 0 <= i < |EncodeChar(c)| :: Plain(EncodeChar(c)[i])
  {
    var n := c as int;
    assert Unreserved(Hex(n / 16)) && Unreserved(Hex(n % 16));
  }

  // ------------------------------------------------------------ the redirect

  predicate IsSession(s: string) {
    |s| == 32 && forall i | 0 <= i < |s| :: '0' <= s[i] <= '9' || 'a' <= s[i] <= 'f'
  }

  /** The request is served, not redirected. */
  predicate Accepts(sharedCache: bool, params: map<string, string>) {
    && SESSION in params && IsSession(params[SESSION])
    && STREAM in params && params[STREAM] != ""
    && (sharedCache ==> CACHE in params && params[CACHE] == "1")
  }

  function Minted(sharedCache: bool, session: string, stream: string): seq<string>
    requires Octets(stream)
  {
    [SESSION + "=" + session, STREAM + "=" + Encode(stream)] + if sharedCache then [CACHE + "=" + "1"] else []
  }

  /** The query of the redirect's Location. */
  method RedirectQuery(sharedCache: bool, query: string, session: string, stream: string) returns (q: string)
    requires Octets(stream)
    ensures q == Join(Unrelated(Split(query, '&')) + Minted(sharedCache, session, stream))
  {
    hide Split, Related, Join, Params, Encode;
    q := QueryWithoutSessionParams(query);
    var encoded := PercentEncode(stream);
    ghost var kept := Unrelated(Split(query, '&'));
    JoinedIsEmpty(Split(query, '&'));
    var a, b, c := SESSION + "=" + session, STREAM + "=" + encoded, CACHE + "=" + "1";
    q := AppendPair(q, a, kept);
    q := AppendPair(q, b, kept + [a]);
    assert kept + [a] + [b] == kept + [a, b];
    if sharedCache {
      q := AppendPair(q, c, kept + [a, b]);
      assert kept + [a, b] + [c] == kept + ([a, b] + [c]);
    } else {
      assert [a, b] + [] == [a, b];
    }
  }

  // ------------------------------------------------------------ following it

  lemma {:induction false} SplitAfter(pieces: seq<string>, last: string, c: char)
    requires forall i | 0 <= i < |pieces| :: c !in pieces[i]
    requires last != "" && c !in last
    ensures Split(Terminated(pieces, c) + last, c) == pieces + [last]
  {
    if pieces == [] {
      SplitLast(last, c);
      assert Terminated(pieces, c) + last == last;
    } else {
      var rest := Terminated(pieces[1..], c);
      assert pieces == [pieces[0]] + pieces[1..];
      TerminatedCons(pieces[0], pieces[1..], c);
      assert Terminated(pieces, c) + last == pieces[0] + [c] + (rest + last);
      SplitAfter(pieces[1..], last, c);
      SplitFirst(pieces[0], c, rest + last);
    }
  }

  lemma {:induction false} JoinIsTerminated(pairs: seq<string>)
    requires pairs != []
    ensures Join(pairs) == Terminated(pairs[..|pairs| - 1], '&') + pairs[|pairs| - 1]
  {
    var n := |pairs| - 1;
    if n == 0 {
      assert Terminated([], '&') + pairs[0] == pairs[0];
    } else {
      JoinIsTerminated(pairs[..n]);
      assert pairs[..n][..n - 1] == pairs[..n - 1];
    }
  }

  /** A query put together from pairs comes apart into them. */
  lemma SplitJoin(pairs: seq<string>)
    requires pairs != [] && forall i | 0 <= i < |pairs| :: pairs[i] != "" && '&' !in pairs[i]
    ensures Split(Join(pairs), '&') == pairs
  {
    hide Join, Split, Terminated;
    JoinIsTerminated(pairs);
    SplitAfter(pairs[..|pairs| - 1], pairs[|pairs| - 1], '&');
  }

  /** Safe inside a request line. */
  predicate Safe(s: string) {
    ' ' !in s && NoBreak(s)
  }

  lemma SafeJoint(a: string, c: char, b: string)
    requires Safe(a) && Safe(b) && c != ' ' && c != '\r' && c != '\n'
    ensures Safe(a + [c] + b)
  {
  }

  lemma SafePart(s: string, i: nat, j: nat)
    requires Safe(s) && i <= j <= |s|
    ensures Safe(s[i..j])
  {
    var t := s[i..j];
    forall k | 0 < k < |t|
      ensures !(t[k - 1] == '\r' && t[k] == '\n')
    {
      assert t[k - 1] == s[i + k - 1] && t[k] == s[i + k];
    }
  }

  lemma {:induction false} PiecesAreSafe(s: string)
    requires Safe(s)
    ensures forall i | 0 <= i < |Split(s, '&')| :: '&' !in Split(s, '&')[i] && Safe(Split(s, '&')[i])
    decreases |s|
  {
    hide Split, Safe, IndexOf;
    if s == "" {
      SplitLast(s, '&');
    } else {
      var n := IndexOf(s, '&');
      SplitStep(s);
      SafePart(s, 0, n);
      assert s[0..n] == s[..n];
      SplitLast("", '&');
      if n < |s| {
        SafePart(s, n + 1, |s|);
        assert s[n + 1..|s|] == s[n + 1..];
        PiecesAreSafe(s[n + 1..]);
      }
    }
  }

  lemma {:induction false} UnrelatedAreKept(pairs: seq<string>)
    ensures forall i | 0 <= i < |Unrelated(pairs)| :: Unrelated(pairs)[i] in pairs && !Related(Unrelated(pairs)[i])
  {
    if pairs != [] {
      UnrelatedAreKept(pairs[..|pairs| - 1]);
    }
  }

  lemma {:induction false} JoinIsSafe(pairs: seq<string>)
    requires forall i | 0 <= i < |pairs| :: Safe(pairs[i])
    ensures Safe(Join(pairs))
  {
    if |pairs| > 1 {
      JoinIsSafe(pairs[..|pairs| - 1]);
      SafeJoint(Join(pairs[..|pairs| - 1]), '&', pairs[|pairs| - 1]);
    }
  }

  lemma PairReads(key: string, value: string)
    requires '=' !in key
    ensures var pair := key + "=" + value;
            IndexOf(pair, '=') == |key| < |pair| && pair[..|key|] == key && pair[|key| + 1..] == value
  {
    IndexOfFirst(key, '=', value);
    assert key + "=" + value == key + ['='] + value;
  }

  lemma {:induction false} ParamsConcat(a: seq<string>, b: seq<string>, key: string)
    ensures key in Params(a + b) <==> key in Params(a) || key in Params(b)
    ensures key in Params(a) ==> Params(a + b)[key] == Params(a)[key]
    ensures key !in Params(a) && key in Params(b) ==> Params(a + b)[key] == Params(b)[key]
  {
    if b == [] {
      assert a + b == a;
    } else {
      ParamsConcat(a, b[..|b| - 1], key);
      assert (a + b)[..|a + b| - 1] == a + b[..|b| - 1];
      assert AddParam(Params(a + b[..|b| - 1]), b[|b| - 1]) == Params(a + b);
      ParamsConcat(a, b[..|b| - 1], KeyOf(b[|b| - 1]));
    }
  }

  predicate Metadata(key: string) {
    key == SESSION || key == STREAM || key == CACHE
  }

  /** Dropping the metadata pairs loses exactly the metadata. */
  lemma {:induction false} UnrelatedParams(pairs: seq<string>, key: string)
    ensures Metadata(key) ==> key !in Params(Unrelated(pairs))
    ensures !Metadata(key) ==> (key in Params(pairs) <==> key in Params(Unrelated(pairs)))
    ensures !Metadata(key) && key in Params(pairs) ==> Params(pairs)[key] == Params(Unrelated(pairs))[key]
  {
    if pairs != [] {
      var before, last := pairs[..|pairs| - 1], pairs[|pairs| - 1];
      UnrelatedParams(before, key);
      UnrelatedParams(before, KeyOf(last));
      OneMorePair(Unrelated(before), last);
      assert Unrelated(before) + [] == Unrelated(before);
    }
  }

  lemma PlainValue(key: string, value: string)
    requires (forall i | 0 <= i < |value| :: Plain(value[i])) && Safe(key) && '&' !in key
    ensures var pair := key + "=" + value; Safe(pair) && '&' !in pair && pair != ""
  {
    SafeJoint(key, '=', value);
    assert key + "=" + value == key + ['='] + value;
  }

  lemma MintedPairs(sharedCache: bool, session: string, stream: string)
    requires Octets(stream) && IsSession(session)
    ensures |Minted(sharedCache, session, stream)| >= 2
    ensures forall i | 0 <= i < |Minted(sharedCache, session, stream)| ::
              var pair := Minted(sharedCache, session, stream)[i];
              pair != "" && '&' !in pair && Safe(pair) && Related(pair)
  {
    EncodeIsPlain(stream);
    PlainValue(SESSION, session);
    PlainValue(STREAM, Encode(stream));
    PlainValue(CACHE, "1");
    PairReads(SESSION, session);
    PairReads(STREAM, Encode(stream));
    PairReads(CACHE, "1");
  }

  lemma AddMinted(params: map<string, string>, key: string, value: string)
    requires '=' !in key && key !in params
    ensures AddParam(params, key + "=" + value) == params[key := value]
  {
    PairReads(key, value);
  }

  lemma ParamsOfPairs(k: string, x: string, l: string, y: string, m: string, z: string)
    requires '=' !in k && '=' !in l && '=' !in m && k != l && k != m && l != m
    ensures Params([k + "=" + x, l + "=" + y]) == map[k := x, l := y]
    ensures Params([k + "=" + x, l + "=" + y] + [m + "=" + z]) == map[k := x, l := y, m := z]
  {
    hide AddParam;
    var a, b, c := k + "=" + x, l + "=" + y, m + "=" + z;
    AddMinted(map[], k, x);
    AddMinted(map[k := x], l, y);
    AddMinted(map[k := x, l := y], m, z);
    OneMorePair([], a);
    OneMorePair([a], b);
    OneMorePair([a, b], c);
    assert [] + [a] == [a] && [a] + [b] == [a, b];
  }

  lemma MintedParams(sharedCache: bool, session: string, stream: string)
    requires Octets(stream) && IsSession(session) && stream != ""
    ensures Accepts(sharedCache, Params(Minted(sharedCache, session, stream)))
    ensures forall key | key in Params(Minted(sharedCache, session, stream)) :: Metadata(key)
  {
    hide Params, Encode, IsSession;
    EncodeIsPlain(stream);
    ParamsOfPairs(SESSION, session, STREAM, Encode(stream), CACHE, "1");
    var both := [SESSION + "=" + session, STREAM + "=" + Encode(stream)];
    assert both + [] == both;
  }

  /** What a parsed request line leaves in the path and the query. */
  lemma ParsedIsSafe(head: string)
    requires ParseHead(head).Some?
    ensures var r := ParseHead(head).value; Safe(r.path) && Safe(r.query) && '?' !in r.path
  {
    hide AddHeaders, Lines, FindFrom;
    LineHasNoBreak(head);
    var line := if Find(head, CRLF).None? then head else head[..Find(head, CRLF).value];
    LinePartIsSafe(line);
  }

  lemma LinePartIsSafe(line: string)
    requires NoBreak(line) && ParseRequestLine(line).Some?
    ensures var r := ParseRequestLine(line).value; Safe(r.path) && Safe(r.query) && '?' !in r.path
  {
    hide Safe, IndexOf, NoBreak;
    var a := IndexOf(line, ' ') + 1;
    var rest := line[a..];
    var target := rest[..IndexOf(rest, ' ')];
    assert target == line[a..a + |target|];
    TargetIsSafe(line, a, a + |target|);
    var q := IndexOf(target, '?');
    SafePart(target, 0, q);
    assert target[0..q] == target[..q];
    if q < |target| {
      SafePart(target, q + 1, |target|);
      assert target[q + 1..|target|] == target[q + 1..];
    } else {
      SafePart(target, 0, 0);
    }
  }

  lemma TargetIsSafe(line: string, i: nat, j: nat)
    requires NoBreak(line) && i <= j <= |line| && ' ' !in line[i..j]
    ensures Safe(line[i..j])
  {
    var t := line[i..j];
    forall k | 0 < k < |t|
      ensures !(t[k - 1] == '\r' && t[k] == '\n')
    {
      assert t[k - 1] == line[i + k - 1] && t[k] == line[i + k];
    }
  }

  function NewPairs(sharedCache: bool, query: string, session: string, stream: string): seq<string>
    requires Octets(stream)
  {
    Unrelated(Split(query, '&')) + Minted(sharedCache, session, stream)
  }

  lemma NewPairsAreSafe(sharedCache: bool, query: string, session: string, stream: string, i: nat)
    requires Safe(query) && Octets(stream) && IsSession(session)
    requires i < |NewPairs(sharedCache, query, session, stream)|
    ensures var pair := NewPairs(sharedCache, query, session, stream)[i]; pair != "" && '&' !in pair && Safe(pair)
  {
    hide Safe, Split, Minted, IsSession;
    var kept := Unrelated(Split(query, '&'));
    if i < |kept| {
      UnrelatedAreKept(Split(query, '&'));
      PiecesAreSafe(query);
      var k :| 0 <= k < |Split(query, '&')| && Split(query, '&')[k] == kept[i];
    } else {
      MintedPairs(sharedCache, session, stream);
    }
  }

  lemma {:induction false} UnrelatedConcat(a: seq<string>, b: seq<string>)
    requires forall i | 0 <= i < |b| :: Related(b[i])
    ensures Unrelated(a + b) == Unrelated(a)
  {
    if b == [] {
      assert a + b == a;
    } else {
      UnrelatedConcat(a, b[..|b| - 1]);
      assert (a + b)[..|a + b| - 1] == a + b[..|b| - 1];
      assert Unrelated(a) + [] == Unrelated(a);
    }
  }

  lemma {:induction false} UnrelatedTwice(pairs: seq<string>)
    ensures Unrelated(Unrelated(pairs)) == Unrelated(pairs)
  {
    if pairs != [] {
      var before, last := pairs[..|pairs| - 1], pairs[|pairs| - 1];
      UnrelatedTwice(before);
      OneMorePair(Unrelated(before), last);
      assert Unrelated(before) + [] == Unrelated(before);
    }
  }

  /** The new query says yes to every check, and keeps every other pair where it was. */
  lemma NewQueryIsAccepted(sharedCache: bool, query: string, session: string, stream: string)
    requires Safe(query) && Octets(stream) && stream != "" && IsSession(session)
    ensures var pairs := NewPairs(sharedCache, query, session, stream);
            && Split(Join(pairs), '&') == pairs && Safe(Join(pairs))
            && Accepts(sharedCache, Params(pairs))
            && Unrelated(pairs) == Unrelated(Split(query, '&'))
  {
    hide Safe, Split, Minted, Join, IsSession, Params, Related;
    var pairs := NewPairs(sharedCache, query, session, stream);
    var kept, minted := Unrelated(Split(query, '&')), Minted(sharedCache, session, stream);
    forall i | 0 <= i < |pairs|
      ensures pairs[i] != "" && '&' !in pairs[i] && Safe(pairs[i])
    {
      NewPairsAreSafe(sharedCache, query, session, stream, i);
    }
    MintedPairs(sharedCache, session, stream);
    MintedParams(sharedCache, session, stream);
    SplitJoin(pairs);
    JoinIsSafe(pairs);
    NewParam(kept, minted, SESSION, query);
    NewParam(kept, minted, STREAM, query);
    NewParam(kept, minted, CACHE, query);
    UnrelatedConcat(kept, minted);
    UnrelatedTwice(Split(query, '&'));
  }

  lemma NewParam(kept: seq<string>, minted: seq<string>, key: string, query: string)
    requires Metadata(key) && kept == Unrelated(Split(query, '&'))
    ensures key in Params(kept + minted) <==> key in Params(minted)
    ensures key in Params(minted) ==> Params(kept + minted)[key] == Params(minted)[key]
  {
    hide Params, Split;
    ParamsConcat(kept, minted, key);
    UnrelatedParams(Split(query, '&'), key);
  }

  /** What a client asks for when it follows a Location: a fragment stays with the client
      (section 3.5 of RFC 3986). */
  function Followed(location: string): string {
    location[..IndexOf(location, '#')]
  }

  /** The request line a client sends for a target. */
  function GetRequest(target: string, headers: string): string {
    "GET" + " " + target + " " + "HTTP/1.1" + CRLF + headers
  }

  /** Nothing of the Location is lost on the client. */
  predicate NoFragment(r: HttpMessage.Request) {
    '#' !in r.path && '#' !in Join(Unrelated(Split(r.query, '&')))
  }

  lemma ReadsTarget(target: string, headers: string)
    requires Safe(target)
    ensures var q := IndexOf(target, '?');
            var next := ParseHead(GetRequest(target, headers));
            && next.Some? && next.value.path == target[..q]
            && next.value.query == if q == |target| then "" else target[q + 1..]
  {
    hide ParseHead, AddHeaders, Lines;
    RequestIsOneLine(target);
    RequestLineReadsBack("GET", target, "HTTP/1.1", headers);
  }

  /** Session redirect is a fixpoint: for every request, the one a client makes by following
      the redirect is for the same path, carries the new query, passes all the checks, and
      keeps all unrelated non-empty pairs in order; unless a `#` in the path or in a kept
      pair makes the client drop the rest, and exactly then the next request is not accepted. */
  lemma RedirectIsFixpoint(sharedCache: bool, head: string, session: string, stream: string, headers: string)
    requires ParseHead(head).Some? && IsSession(session) && Octets(stream) && stream != ""
    ensures var r := ParseHead(head).value;
            var query := Join(NewPairs(sharedCache, r.query, session, stream));
            var next := ParseHead(GetRequest(Followed(r.path + "?" + query), headers));
            && next.Some?
            && (Accepts(sharedCache, Params(Split(next.value.query, '&'))) <==> NoFragment(r))
            && (NoFragment(r) ==>
                  && next.value.path == r.path && next.value.query == query
                  && Unrelated(Split(next.value.query, '&')) == Unrelated(Split(r.query, '&')))
  {
    hide ParseHead, Split, Join, Accepts, Params, Unrelated, NewPairs, IsSession, NoBreak, GetRequest, Safe, Followed;
    var r := ParseHead(head).value;
    ParsedIsSafe(head);
    NewQueryIsAccepted(sharedCache, r.query, session, stream);
    if NoFragment(r) {
      FollowedWhole(sharedCache, r, session, stream, headers);
    } else {
      FollowedInPart(sharedCache, r, session, stream, headers);
    }
  }

  lemma FollowedWhole(sharedCache: bool, r: HttpMessage.Request, session: string, stream: string, headers: string)
    requires IsSession(session) && Octets(stream) && stream != ""
    requires Safe(r.path) && Safe(r.query) && '?' !in r.path && NoFragment(r)
    ensures var query := Join(NewPairs(sharedCache, r.query, session, stream));
            var next := ParseHead(GetRequest(Followed(r.path + "?" + query), headers));
            next.Some? && next.value.path == r.path && next.value.query == query
  {
    hide ParseHead, Split, Join, Unrelated, NewPairs, IsSession, GetRequest, Safe, IndexOf;
    var query := Join(NewPairs(sharedCache, r.query, session, stream));
    NewQueryIsAccepted(sharedCache, r.query, session, stream);
    NoFragmentAdded(sharedCache, r.query, session, stream);
    var location := r.path + ['?'] + query;
    assert r.path + "?" + query == location;
    IndexOfNone(location, '#');
    assert location[..|location|] == location;
    SafeJoint(r.path, '?', query);
    ReadsTarget(location, headers);
    IndexOfFirst(r.path, '?', query);
    assert location[..|r.path|] == r.path && location[|r.path| + 1..] == query;
  }

  lemma FollowedInPart(sharedCache: bool, r: HttpMessage.Request, session: string, stream: string, headers: string)
    requires IsSession(session) && Octets(stream) && stream != ""
    requires Safe(r.path) && Safe(r.query) && '?' !in r.path && !NoFragment(r)
    ensures var query := Join(NewPairs(sharedCache, r.query, session, stream));
            var next := ParseHead(GetRequest(Followed(r.path + "?" + query), headers));
            next.Some? && !Accepts(sharedCache, Params(Split(next.value.query, '&')))
  {
    hide ParseHead, Split, Join, Params, Unrelated, NewPairs, IsSession, GetRequest, Safe, Followed, IndexOf;
    var query := Join(NewPairs(sharedCache, r.query, session, stream));
    NewQueryIsAccepted(sharedCache, r.query, session, stream);
    var location := r.path + ['?'] + query;
    assert r.path + "?" + query == location;
    SafeJoint(r.path, '?', query);
    var target := Followed(location);
    FollowedIsPrefix(location);
    SafePart(location, 0, |target|);
    ReadsTarget(target, headers);
    if '#' in r.path {
      CutInPath(r.path, query);
      NoParams();
    } else {
      KeptComesFirst(sharedCache, r.query, session, stream);
      var kept := Join(Unrelated(Split(r.query, '&')));
      CutInQuery(r.path, kept, query);
      NoSessionInPrefix(r.query, IndexOf(kept, '#'));
    }
  }

  lemma FollowedIsPrefix(location: string)
    ensures var n := |Followed(location)|; n <= |location| && Followed(location) == location[0..n]
  {
  }

  /** A fragment that begins in the path takes the query with it. */
  lemma CutInPath(path: string, query: string)
    requires '#' in path && '?' !in path
    ensures var target := Followed(path + ['?'] + query); IndexOf(target, '?') == |target|
  {
    hide IndexOf;
    CutBefore(path, ['?'] + query, '#');
    assert path + ['?'] + query == path + (['?'] + query);
    IndexOfNone(path[..IndexOf(path, '#')], '?');
  }

  /** One that begins in the first pairs takes the rest of the query. */
  lemma CutInQuery(path: string, kept: string, query: string)
    requires '#' !in path && '?' !in path && '#' in kept && kept <= query
    ensures var target := Followed(path + ['?'] + query);
            var q := IndexOf(target, '?');
            q < |target| && target[q + 1..] == kept[..IndexOf(kept, '#')]
  {
    hide IndexOf;
    var d := IndexOf(kept, '#');
    CutBefore(kept, query[|kept|..], '#');
    assert query == kept + query[|kept|..];
    CutAfter(path + ['?'], query, '#');
    var target := path + ['?'] + kept[..d];
    assert Followed(path + ['?'] + query) == target;
    IndexOfFirst(path, '?', kept[..d]);
    assert target[|path| + 1..] == kept[..d];
  }

  lemma CutBefore(a: string, b: string, c: char)
    requires c in a
    ensures IndexOf(a + b, c) == IndexOf(a, c) && (a + b)[..IndexOf(a, c)] == a[..IndexOf(a, c)]
  {
    var n := IndexOf(a, c);
    IndexOfAll(a, c);
    assert a + b == a[..n] + [c] + (a[n + 1..] + b);
    IndexOfFirst(a[..n], c, a[n + 1..] + b);
  }

  lemma IndexOfAll(s: string, c: char)
    ensures IndexOf(s, c) == |s| <==> c !in s
  {
    assert s[..|s|] == s;
  }

  lemma {:induction false} CutAfter(a: string, b: string, c: char)
    requires c !in a
    ensures IndexOf(a + b, c) == |a| + IndexOf(b, c) && (a + b)[..|a| + IndexOf(b, c)] == a + b[..IndexOf(b, c)]
    decreases |a|
  {
    if a == "" {
      assert a + b == b;
    } else {
      assert (a + b)[1..] == a[1..] + b;
      CutAfter(a[1..], b, c);
    }
  }

  lemma NoParams()
    ensures Params(Split("", '&')) == map[]
  {
  }

  /** The new query begins with the kept pairs. */
  lemma KeptComesFirst(sharedCache: bool, query: string, session: string, stream: string)
    requires Octets(stream)
    ensures Join(Unrelated(Split(query, '&'))) <= Join(NewPairs(sharedCache, query, session, stream))
  {
    hide Split, Unrelated, Minted, Join;
    JoinGrows(Unrelated(Split(query, '&')), Minted(sharedCache, session, stream));
  }

  lemma {:induction false} JoinGrows(a: seq<string>, b: seq<string>)
    ensures Join(a) <= Join(a + b)
  {
    if b == [] {
      assert a + b == a;
    } else {
      JoinGrows(a, b[..|b| - 1]);
      assert a + b == (a + b[..|b| - 1]) + [b[|b| - 1]];
      OneMoreJoined(a + b[..|b| - 1], b[|b| - 1]);
      JoinNothing();
    }
  }

  lemma NoFragmentAdded(sharedCache: bool, query: string, session: string, stream: string)
    requires Octets(stream) && IsSession(session) && '#' !in Join(Unrelated(Split(query, '&')))
    ensures '#' !in Join(NewPairs(sharedCache, query, session, stream))
  {
    hide Split, Unrelated, Encode, Join, IsSession;
    var kept := Unrelated(Split(query, '&'));
    var a, b, c := SESSION + "=" + session, STREAM + "=" + Encode(stream), CACHE + "=" + "1";
    MintedHasNoFragment(session, stream);
    OneMoreJoined(kept, a);
    OneMoreJoined(kept + [a], b);
    OneMoreJoined(kept + [a] + [b], c);
    assert kept + [a] + [b] == kept + [a, b] == kept + ([a, b] + []);
    assert kept + [a] + [b] + [c] == kept + ([a, b] + [c]);
  }

  lemma MintedHasNoFragment(session: string, stream: string)
    requires Octets(stream) && IsSession(session)
    ensures '#' !in SESSION + "=" + session && '#' !in STREAM + "=" + Encode(stream) && '#' !in CACHE + "=" + "1"
  {
    hide Encode;
    EncodeIsPlain(stream);
  }

  /** The pairs of the beginning of a query are beginnings of its pairs. */
  lemma {:induction false} PairsOfPrefix(s: string, d: nat, i: nat)
    requires d <= |s| && i < |Split(s[..d], '&')|
    ensures i < |Split(s, '&')| && Split(s[..d], '&')[i] <= Split(s, '&')[i]
    decreases |s|
  {
    hide Split, IndexOf;
    if d == 0 {
      SplitLast(s[..d], '&');
    } else {
      var n := IndexOf(s, '&');
      SplitStep(s);
      if d <= n {
        assert s[..d] == s[..n][..d];
        SplitLast(s[..d], '&');
      } else {
        var rest := s[n + 1..];
        assert s[..d] == s[..n] + ['&'] + rest[..d - n - 1];
        SplitFirst(s[..n], '&', rest[..d - n - 1]);
        if i > 0 {
          PairsOfPrefix(rest, d - n - 1, i - 1);
        }
      }
    }
  }

  lemma KeyOfPrefix(a: string, b: string)
    requires a <= b && IndexOf(a, '=') < |a|
    ensures KeyOf(a) == KeyOf(b)
  {
    IndexOfAll(a, '=');
    CutBefore(a, b[|a|..], '=');
    assert b == a + b[|a|..];
  }

  lemma {:induction false} KeysAreFromPairs(pairs: seq<string>, key: string)
    requires key in Params(pairs)
    ensures exists i :: 0 <= i < |pairs| && IndexOf(pairs[i], '=') < |pairs[i]| && KeyOf(pairs[i]) == key
  {
    var before, last := pairs[..|pairs| - 1], pairs[|pairs| - 1];
    if key in Params(before) {
      KeysAreFromPairs(before, key);
      var i :| 0 <= i < |before| && IndexOf(before[i], '=') < |before[i]| && KeyOf(before[i]) == key;
      assert pairs[i] == before[i];
    } else {
      assert KeyOf(last) == key;
    }
  }

  /** However the kept pairs are cut off, no session comes out of them. */
  lemma NoSessionInPrefix(query: string, d: nat)
    requires d <= |Join(Unrelated(Split(query, '&')))| && Safe(query)
    ensures SESSION !in Params(Split(Join(Unrelated(Split(query, '&')))[..d], '&'))
  {
    hide Join, Params, Unrelated, Split, IndexOf, KeyOf;
    var kept := Unrelated(Split(query, '&'));
    var text := Join(kept);
    KeptReadsBack(query);
    var pairs := Split(text[..d], '&');
    if SESSION in Params(pairs) {
      KeysAreFromPairs(pairs, SESSION);
      var i :| 0 <= i < |pairs| && IndexOf(pairs[i], '=') < |pairs[i]| && KeyOf(pairs[i]) == SESSION;
      PairsOfPrefix(text, d, i);
      KeyOfPrefix(pairs[i], kept[i]);
      UnrelatedAreKept(Split(query, '&'));
    }
  }

  lemma KeptReadsBack(query: string)
    requires Safe(query)
    ensures Split(Join(Unrelated(Split(query, '&'))), '&') == Unrelated(Split(query, '&'))
  {
    hide Join, Unrelated, Split, Safe, Related;
    var kept := Unrelated(Split(query, '&'));
    if kept == [] {
      JoinNothing();
      SplitLast("", '&');
    } else {
      forall i | 0 <= i < |kept|
        ensures kept[i] != "" && '&' !in kept[i]
      {
        UnrelatedAreKept(Split(query, '&'));
        PiecesAreSafe(query);
        RelatedIfEmpty(kept[i]);
        var k :| 0 <= k < |Split(query, '&')| && Split(query, '&')[k] == kept[i];
      }
      SplitJoin(kept);
    }
  }

  lemma RelatedIfEmpty(pair: string)
    ensures pair == "" ==> Related(pair)
  {
  }

  lemma RequestIsOneLine(target: string)
    requires Safe(target)
    ensures NoBreak("GET" + " " + target + " " + "HTTP/1.1") && ' ' !in "GET"
  {
  }

  /** A parameter that is not session metadata has the value it had. */
  lemma OtherParamsKept(sharedCache: bool, query: string, session: string, stream: string, key: string)
    requires Octets(stream) && stream != "" && IsSession(session) && !Metadata(key)
    ensures var before, after := Params(Split(query, '&')), Params(NewPairs(sharedCache, query, session, stream));
            (key in after <==> key in before) && (key in before ==> after[key] == before[key])
  {
    hide Split, Params, Minted;
    UnrelatedParams(Split(query, '&'), key);
    ParamsConcat(Unrelated(Split(query, '&')), Minted(sharedCache, session, stream), key);
    MintedParams(sharedCache, session, stream);
  }

  // ------------------------------------------------------------ percent-decoding

  function HexValue(c: char): nat {
    if '0' <= c <= '9' then (c - '0') as nat else if 'A' <= c <= 'F' then (c - 'A') as nat + 10 else 0
  }

  /** How a reader of the URL takes the encoding back (section 2.1 of RFC 3986). */
  function Decode(s: string): string
    decreases |s|
  {
    if s == "" then ""
    else if s[0] == '%' && |s| >= 3 then [(16 * HexValue(s[1]) + HexValue(s[2])) as char] + Decode(s[3..])
    else [s[0]] + Decode(s[1..])
  }

  lemma DecodeChar(c: char, rest: string)
    requires c < 256 as char
    ensures Decode(EncodeChar(c) + rest) == [c] + Decode(rest)
  {
    var n := c as int;
    var e := EncodeChar(c) + rest;
    if Unreserved(c) {
      assert e[1..] == rest;
    } else {
      assert e[3..] == rest;
      assert HexValue(Hex(n / 16)) == n / 16 && HexValue(Hex(n % 16)) == n % 16;
      assert 16 * (n / 16) + n % 16 == n;
    }
  }

  lemma {:induction false} DecodeEncode(s: string, rest: string)
    requires Octets(s)
    ensures Decode(Encode(s) + rest) == s + Decode(rest)
    decreases |s|
  {
    hide Decode, EncodeChar;
    if s == "" {
      assert Encode(s) + rest == rest;
    } else {
      var last := s[|s| - 1];
      DecodeChar(last, rest);
      DecodeEncode(s[..|s| - 1], EncodeChar(last) + rest);
      assert Encode(s) + rest == Encode(s[..|s| - 1]) + (EncodeChar(last) + rest);
      assert s == s[..|s| - 1] + [last];
    }
  }

  /** Encoding loses nothing: the stream name can be read back from the query value. */
  lemma EncodingReadsBack(s: string)
    requires Octets(s)
    ensures Decode(Encode(s)) == s
  {
    DecodeEncode(s, "");
    assert Encode(s) + "" == Encode(s) && s + "" == s;
  }
}
