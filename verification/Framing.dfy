/** Requests cut out of a byte stream: the meaning of one connection's whole input,
    independent of how it arrives, and the facts that let a server process it piecemeal. */
module Framing {
  import opened Prelude
  import opened Text
  import opened HttpMessage

  /** A response as the handler returns it, with its head serialised for either
      keep-alive decision. A non-empty `shared` buffer is sent by slice. */
  datatype Response = Response(
    keepHead: string,
    closeHead: string,
    shared: string,
    offset: nat,
    length: nat,
    body: string
  )

  /** The server's options and its handler, which also knows how many requests the
      connection has had. `failureHead` is the head of an error response. */
  datatype Server = Server(
    maxHeaderBytes: nat,
    maxBodyBytes: nat,
    keepAliveEnabled: bool,
    maxRequests: nat,
    handler: (nat, Request) -> Response,
    failureHead: nat -> string
  )

  // ------------------------------------------------------------------- framing

  datatype Head = HeadMore | HeadReject(status: nat) | HeadOk(marker: nat, request: Request, length: nat)

  function FrameHead(v: Server, s: string): (h: Head)
    ensures h.HeadOk? ==> h.marker + 4 <= |s|
  {
    match Find(s, BLANK_LINE)
    case None => if |s| >= v.maxHeaderBytes then HeadReject(431) else HeadMore
    case Some(m) =>
      if m > v.maxHeaderBytes then HeadReject(431)
      else match ParseHead(s[..m])
        case None => HeadReject(400)
        case Some(r) =>
          match ContentLength(r)
          case None => HeadReject(400)
          case Some(n) => if n > v.maxBodyBytes then HeadReject(413) else HeadOk(m, r, n)
  }

  datatype Frame = More | Reject(status: nat) | Whole(request: Request, rest: string)

  function FirstFrame(v: Server, s: string): (f: Frame)
    ensures f.Whole? ==> |f.rest| < |s|
  {
    match FrameHead(v, s)
    case HeadMore => More
    case HeadReject(status) => Reject(status)
    case HeadOk(m, r, n) =>
      if |s| - (m + 4) < n then More else Whole(r.(body := s[m + 4..m + 4 + n]), s[m + 4 + n..])
  }

  /** The blank line begins within the header limit but ends beyond it. */
  predicate Straddles(v: Server, s: string) {
    var m := Find(s, BLANK_LINE);
    m.Some? && m.value <= v.maxHeaderBytes < m.value + 4
  }

  lemma HeadOkExtends(v: Server, s: string, more: string)
    requires FrameHead(v, s).HeadOk?
    ensures FrameHead(v, s + more) == FrameHead(v, s)
  {
    hide ParseHead, ContentLength, FindFrom;
    FindExtends(s, more, BLANK_LINE);
    assert (s + more)[..FrameHead(v, s).marker] == s[..FrameHead(v, s).marker];
  }

  lemma HeadRejectExtends(v: Server, s: string, more: string)
    requires FrameHead(v, s).HeadReject? && !Straddles(v, s + more)
    ensures FrameHead(v, s + more) == FrameHead(v, s)
  {
    hide ParseHead, ContentLength, FindFrom;
    if Find(s, BLANK_LINE).Some? {
      FindExtends(s, more, BLANK_LINE);
      assert (s + more)[..Find(s, BLANK_LINE).value] == s[..Find(s, BLANK_LINE).value];
    } else if Find(s + more, BLANK_LINE).Some? {
      assert (s + more)[..|s|] == s;
      FindInPrefix(s + more, |s|, BLANK_LINE);
    }
  }

  /** A request once complete is not changed by what follows it. */
  lemma WholeExtends(v: Server, s: string, more: string)
    requires FirstFrame(v, s).Whole?
    ensures FirstFrame(v, s + more) == Whole(FirstFrame(v, s).request, FirstFrame(v, s).rest + more)
  {
    hide FrameHead;
    HeadOkExtends(v, s, more);
    var h := FrameHead(v, s);
    var b := h.marker + 4;
    assert (s + more)[b..b + h.length] == s[b..b + h.length];
    assert (s + more)[b + h.length..] == s[b + h.length..] + more;
  }

  /** Reading a prefix of a head can be refused although the whole head is within the
      limit, exactly when the blank line straddles the limit. */
  lemma PrefixRefusedIffStraddling(v: Server, s: string)
    requires Find(s, BLANK_LINE).Some? && Find(s, BLANK_LINE).value <= v.maxHeaderBytes
    ensures (exists n: nat :: n <= |s| && Find(s[..n], BLANK_LINE).None? && FirstFrame(v, s[..n]) == Reject(431)) <==>
            Straddles(v, s)
  {
    hide ParseHead, ContentLength;
    var m := Find(s, BLANK_LINE).value;
    if Straddles(v, s) {
      var n := m + 3;
      forall i: nat
        ensures !At(s[..n], BLANK_LINE, i)
      {
        if i + 4 <= n {
          assert s[..n][i..i + 4] == s[i..i + 4];
          assert !At(s, BLANK_LINE, i);
        }
      }
      assert Find(s[..n], BLANK_LINE).None? && FirstFrame(v, s[..n]) == Reject(431);
    }
    forall n: nat | n <= |s| && Find(s[..n], BLANK_LINE).None? && FirstFrame(v, s[..n]) == Reject(431)
      ensures Straddles(v, s)
    {
      FindInPrefix(s, n, BLANK_LINE);
    }
  }

  /** At one input: a limit of 15 accepts this head whole and refuses it when its first 15
      octets arrive alone. */
  lemma StraddlingHead(v: Server)
    requires v.maxHeaderBytes == 15
    ensures var s := "GET / HTTP/1.1" + BLANK_LINE;
            FirstFrame(v, s) == Whole(Request("GET", "/", "", "HTTP/1.1", map[], ""), "") &&
            FirstFrame(v, s[..15]) == Reject(431)
  {
    hide FindFrom, ParseRequestLine;
    var line := "GET / HTTP/1.1";
    var s := line + BLANK_LINE;
    assert s == line + CRLF + CRLF;
    FirstLine(line, CRLF);
    assert At(s, BLANK_LINE, 14);
    BlankLineIsBreak(s);
    assert s[..14] == line;
    LineAlone(line);
    assert line == "GET" + [' '] + ("/" + [' '] + "HTTP/1.1");
    RequestLine("GET", "/", "HTTP/1.1");
    assert IndexOf("/", '?') == 1;
    assert s[18..] == "" && s[18..18] == "";
    forall i: nat
      ensures !At(s[..15], BLANK_LINE, i)
    {
      AtInPrefix(s, 15, BLANK_LINE, i);
    }
  }

  /** The first blank line is not before the first line break. */
  lemma BlankLineIsBreak(s: string)
    requires Find(s, CRLF).Some? && At(s, BLANK_LINE, Find(s, CRLF).value)
    ensures Find(s, BLANK_LINE) == Find(s, CRLF)
  {
    forall i: nat | At(s, BLANK_LINE, i)
      ensures At(s, CRLF, i)
    {
      assert s[i..i + 2] == s[i..i + 4][..2];
    }
  }

  lemma LineAlone(line: string)
    requires NoBreak(line)
    ensures Find(line, CRLF).None?
  {
    forall i: nat
      ensures !At(line, CRLF, i)
    {
      if i + 2 <= |line| {
        assert line[i..i + 2] == [line[i], line[i + 1]];
        assert !(line[i + 1 - 1] == '\r' && line[i + 1] == '\n');
      }
    }
  }

  // ------------------------------------------------------------------- serving

  /** The body bytes of a response; None when its slice is outside its own buffer. */
  function Payload(r: Response): Option<string> {
    if r.shared == "" then Some(r.body)
    else if r.offset > |r.shared| || r.length > |r.shared| - r.offset then None
    else Some(r.shared[r.offset..r.offset + r.length])
  }

  predicate Says(r: Request, name: string, value: string) {
    name in r.headers && r.headers[name] == value
  }

  predicate KeepsAlive(v: Server, served: nat, r: Request) {
    && v.keepAliveEnabled && !Says(r, "connection", "close")
    && (r.version == "HTTP/1.1" || Says(r, "connection", "keep-alive"))
    && served + 1 < v.maxRequests
  }

  function Failure(v: Server, status: nat): Response {
    Response("", v.failureHead(status), "", 0, 0, "{\"error\":\"bad_request\"}")
  }

  function Bytes(r: Response, keepAlive: bool): string {
    if Payload(r).None? then "" else (if keepAlive then r.keepHead else r.closeHead) + Payload(r).value
  }

  /** The connection reads on after this request. */
  predicate GoesOn(v: Server, served: nat, r: Request) {
    KeepsAlive(v, served, r) && Payload(v.handler(served, r)).Some?
  }

  function Answer(v: Server, served: nat, r: Request): string {
    Bytes(v.handler(served, r), KeepsAlive(v, served, r))
  }

  /** What a connection makes of its input: the requests handed to the handler, the bytes
      written back, and whether it was closed by the server. */
  datatype Outcome = Outcome(requests: seq<Request>, written: string, closed: bool)

  function Prepend(requests: seq<Request>, written: string, o: Outcome): Outcome {
    Outcome(requests + o.requests, written + o.written, o.closed)
  }

  function Serve(v: Server, served: nat, input: string): Outcome
    decreases |input|
  {
    if input == "" then Outcome([], "", false)
    else match FirstFrame(v, input)
      case More => Outcome([], "", false)
      case Reject(status) => Outcome([], Bytes(Failure(v, status), false), true)
      case Whole(r, rest) =>
        if GoesOn(v, served, r) then Prepend([r], Answer(v, served, r), Serve(v, served + 1, rest))
        else Outcome([r], Answer(v, served, r), true)
  }

  /** No head the connection gets to straddles the limit. */
  predicate Clean(v: Server, served: nat, input: string)
    decreases |input|
  {
    input == "" ||
    (&& !Straddles(v, input)
     && var f := FirstFrame(v, input);
        f.Whole? && GoesOn(v, served, f.request) ==> Clean(v, served + 1, f.rest))
  }

  // ------------------------------------------------- what is left to be explained

  /** With `x` still to come, the whole input means: what was dispatched, what was written
      or is about to be, and then what `unread` and `x` mean. */
  ghost predicate Agrees(v: Server, received: string, requests: seq<Request>, owed: string, served: nat,
                         unread: string, closing: bool, x: string)
  {
    Clean(v, 0, received + x) ==>
      if closing then Serve(v, 0, received + x) == Outcome(requests, owed, true)
      else
        && Clean(v, served, unread + x)
        && Serve(v, 0, received + x) == Prepend(requests, owed, Serve(v, served, unread + x))
  }

  ghost predicate Explains(v: Server, received: string, requests: seq<Request>, owed: string, served: nat,
                           unread: string, closing: bool)
  {
    forall x :: Agrees(v, received, requests, owed, served, unread, closing, x)
  }

  lemma NothingYet(v: Server)
    ensures Explains(v, "", [], "", 0, "", false)
  {
    hide Serve, Clean;
  }

  lemma MoreReceived(v: Server, received: string, requests: seq<Request>, owed: string, served: nat, unread: string,
                     chunk: string)
    requires Explains(v, received, requests, owed, served, unread, false)
    ensures Explains(v, received + chunk, requests, owed, served, unread + chunk, false)
  {
    hide Serve, Clean, Prepend;
    forall x
      ensures Agrees(v, received + chunk, requests, owed, served, unread + chunk, false, x)
    {
      assert Agrees(v, received, requests, owed, served, unread, false, chunk + x);
      assert (received + chunk) + x == received + (chunk + x);
      assert (unread + chunk) + x == unread + (chunk + x);
    }
  }

  lemma ServeWhole(v: Server, served: nat, unread: string, x: string)
    requires FirstFrame(v, unread).Whole? && Clean(v, served, unread + x)
    ensures var f := FirstFrame(v, unread);
            if GoesOn(v, served, f.request)
            then Clean(v, served + 1, f.rest + x) &&
                 Serve(v, served, unread + x) ==
                 Prepend([f.request], Answer(v, served, f.request), Serve(v, served + 1, f.rest + x))
            else Serve(v, served, unread + x) == Outcome([f.request], Answer(v, served, f.request), true)
  {
    hide FirstFrame, GoesOn, Answer, Straddles;
    WholeExtends(v, unread, x);
  }

  lemma RequestTaken(v: Server, received: string, requests: seq<Request>, owed: string, served: nat, unread: string)
    requires Explains(v, received, requests, owed, served, unread, false) && FirstFrame(v, unread).Whole?
    ensures var f := FirstFrame(v, unread);
            Explains(v, received, requests + [f.request], owed + Answer(v, served, f.request), served + 1, f.rest,
                     !GoesOn(v, served, f.request))
  {
    hide Serve, Clean, FirstFrame, GoesOn, Answer;
    var f := FirstFrame(v, unread);
    var requests', owed' := requests + [f.request], owed + Answer(v, served, f.request);
    var served', closing := served + 1, !GoesOn(v, served, f.request);
    forall x
      ensures Agrees(v, received, requests', owed', served', f.rest, closing, x)
    {
      assert Agrees(v, received, requests, owed, served, unread, false, x);
      if Clean(v, 0, received + x) {
        ServeWhole(v, served, unread, x);
        if GoesOn(v, served, f.request) {
          var o := Serve(v, served + 1, f.rest + x);
          assert requests + ([f.request] + o.requests) == requests + [f.request] + o.requests;
          assert owed + (Answer(v, served, f.request) + o.written) == owed + Answer(v, served, f.request) + o.written;
        }
      }
    }
  }

  lemma ServeReject(v: Server, served: nat, unread: string, x: string)
    requires unread != "" && FirstFrame(v, unread).Reject? && Clean(v, served, unread + x)
    ensures Serve(v, served, unread + x) == Outcome([], Bytes(Failure(v, FirstFrame(v, unread).status), false), true)
  {
    hide FrameHead, Bytes;
    HeadRejectExtends(v, unread, x);
  }

  lemma InputRejected(v: Server, received: string, requests: seq<Request>, owed: string, served: nat, unread: string)
    requires Explains(v, received, requests, owed, served, unread, false)
    requires unread != "" && FirstFrame(v, unread).Reject?
    ensures Explains(v, received, requests, owed + Bytes(Failure(v, FirstFrame(v, unread).status), false), served,
                     unread, true)
  {
    hide Serve, Clean, FirstFrame, Bytes;
    var owed' := owed + Bytes(Failure(v, FirstFrame(v, unread).status), false);
    forall x
      ensures Agrees(v, received, requests, owed', served, unread, true, x)
    {
      assert Agrees(v, received, requests, owed, served, unread, false, x);
      if Clean(v, 0, received + x) {
        ServeReject(v, served, unread, x);
        assert requests + [] == requests;
      }
    }
  }

  /** Nothing more can be said about the input yet. */
  predicate Stuck(v: Server, unread: string) {
    unread == "" || FirstFrame(v, unread).More?
  }

  /** Once closing, what was done is the meaning of what was received and anything after it. */
  lemma ExplainsForGood(v: Server, received: string, requests: seq<Request>, owed: string, served: nat, unread: string,
                        x: string)
    requires Explains(v, received, requests, owed, served, unread, true) && Clean(v, 0, received + x)
    ensures Serve(v, 0, received + x) == Outcome(requests, owed, true)
  {
    hide Serve, Clean;
    assert Agrees(v, received, requests, owed, served, unread, true, x);
  }

  /** At rest, what was done is the meaning of what was received. */
  lemma ExplainsNow(v: Server, received: string, requests: seq<Request>, owed: string, served: nat, unread: string,
                    closing: bool)
    requires Explains(v, received, requests, owed, served, unread, closing) && Clean(v, 0, received)
    ensures closing ==> Serve(v, 0, received) == Outcome(requests, owed, true)
    ensures !closing && Stuck(v, unread) ==> Serve(v, 0, received) == Outcome(requests, owed, false)
    ensures requests <= Serve(v, 0, received).requests && owed <= Serve(v, 0, received).written
  {
    hide Clean, FirstFrame;
    assert Agrees(v, received, requests, owed, served, unread, closing, "");
    assert received + "" == received && unread + "" == unread;
    assert requests + [] == requests && owed + "" == owed;
  }
}
