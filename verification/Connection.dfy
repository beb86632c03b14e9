/** One connection of the asynchronous HTTP server: incremental framing, pipelining,
    partial vectored writes and keep-alive, for handlers that answer at once. Reads bring
    arbitrary chunks; the socket takes arbitrary amounts. */
module Connections {
  import opened Prelude
  import opened Text
  import opened HttpMessage
  import opened Framing

  datatype Phase = ReadingHead | ReadingBody | Writing

  /** The response being written: a head, and a body that is a slice of a shared buffer
      or an inline string, each with how much of it has gone out. */
  datatype Outgoing = Outgoing(
    head: string,
    headSent: nat,
    shared: string,
    offset: nat,
    length: nat,
    bodySent: nat,
    inlineBody: string
  )

  const IDLE := Outgoing("", 0, "", 0, 0, 0, "")

  /** Sizes agree, so that no read runs past a buffer. */
  predicate OutOk(o: Outgoing) {
    && o.headSent <= |o.head| && o.bodySent <= o.length
    && (if o.shared != "" then o.offset + o.length <= |o.shared| else o.offset == 0 && o.length == |o.inlineBody|)
    && (o.bodySent > 0 ==> o.headSent == |o.head|)
  }

  function BodyOf(o: Outgoing): (b: string)
    requires OutOk(o)
    ensures |b| == o.length
  {
    if o.shared != "" then o.shared[o.offset..o.offset + o.length] else o.inlineBody
  }

  /** What is still to go out. */
  function Remaining(o: Outgoing): string
    requires OutOk(o)
  {
    o.head[o.headSent..] + BodyOf(o)[o.bodySent..]
  }

  /** What sendmsg reports: some bytes taken, no room, or an error. */
  datatype Written = Took(n: nat) | NoRoom | Failed

  method SendMsg(total: nat) returns (w: Written)
    requires total > 0
    ensures w.Took? ==> 1 <= w.n <= total
  {
    if * {
      w := NoRoom;
    } else if * {
      w := Failed;
    } else {
      var n: int :| 1 <= n <= total;
      w := Took(n);
    }
  }

  /** The step of flush after sendmsg took `n` bytes: the head goes out first. */
  function Advance(o: Outgoing, n: nat): Outgoing
    requires OutOk(o) && n <= |Remaining(o)|
  {
    var headLeft := |o.head| - o.headSent;
    var step := if n < headLeft then n else headLeft;
    o.(headSent := o.headSent + step, bodySent := o.bodySent + (n - step))
  }

  lemma AdvanceSends(o: Outgoing, n: nat)
    requires OutOk(o) && n <= |Remaining(o)|
    ensures OutOk(Advance(o, n)) && Remaining(o) == Remaining(o)[..n] + Remaining(Advance(o, n))
  {
    hide BodyOf;
    SameBody(o, n);
    SendSome(o.head, o.headSent, BodyOf(o), o.bodySent, n);
  }

  /** Taking `n` octets off two texts in a row, the first being used up first. */
  lemma SendSome(head: string, h: nat, body: string, b: nat, n: nat)
    requires h <= |head| && b <= |body| && n <= |head| - h + |body| - b
    ensures var left, step := head[h..] + body[b..], if n < |head| - h then n else |head| - h;
            left == left[..n] + (head[h + step..] + body[b + (n - step)..])
  {
    var first, second := head[h..], body[b..];
    if n < |first| {
      DropTwice(head, h, n);
      DropFirst(first, second, n);
    } else {
      DropTwice(body, b, n - |first|);
      DropSecond(first, second, n);
      assert head[|head|..] + second[n - |first|..] == second[n - |first|..];
    }
  }

  lemma SameBody(o: Outgoing, n: nat)
    requires OutOk(o) && n <= |Remaining(o)|
    ensures OutOk(Advance(o, n)) && BodyOf(Advance(o, n)) == BodyOf(o)
  {
  }

  lemma DropTwice(s: string, a: nat, b: nat)
    requires a + b <= |s|
    ensures s[a..][b..] == s[a + b..]
  {
  }

  lemma DropFirst(a: string, b: string, n: nat)
    requires n <= |a|
    ensures a + b == (a + b)[..n] + (a[n..] + b)
  {
  }

  lemma DropSecond(a: string, b: string, n: nat)
    requires |a| <= n <= |a| + |b|
    ensures a + b == (a + b)[..n] + b[n - |a|..]
  {
  }

  /** The write loop of flush. Whatever the socket takes, the bytes gone and the bytes
      left are the response, in order. */
  method Push(out: Outgoing, sent: string) returns (out': Outgoing, sent': string, result: Written)
    requires OutOk(out)
    ensures OutOk(out') && sent' + Remaining(out') == sent + Remaining(out)
    ensures result.Took? ==> Remaining(out') == ""
  {
    hide Advance, Remaining;
    out', sent' := out, sent;
    var left := Remaining(out');
    while left != ""
      invariant OutOk(out') && left == Remaining(out')
      invariant sent' + Remaining(out') == sent + Remaining(out)
      decreases |left|
    {
      result := SendMsg(|left|);
      if !result.Took? {
        return;
      }
      AdvanceSends(out', result.n);
      assert sent' + (left[..result.n] + Remaining(Advance(out', result.n))) ==
             sent' + left[..result.n] + Remaining(Advance(out', result.n));
      sent' := sent' + left[..result.n];
      out' := Advance(out', result.n);
      left := Remaining(out');
    }
    result := Took(0);
  }

  class Connection {
    const server: Server
    var phase: Phase
    var inbox: string
    var request: Request
    var expectedBody: nat
    var out: Outgoing
    var keepAlive: bool
    var served: nat
    var open: bool
    var sent: string                    // what the socket has taken so far
    ghost var received: string
    ghost var dispatched: seq<Request>
    ghost var unread: string            // input not yet dispatched, the parsed head included
    ghost var finished: bool            // closed by the server's own decision

    ghost predicate Closing()
      reads this
    {
      finished || (phase.Writing? && !keepAlive)
    }

    /** What was received means what was dispatched, sent and is about to be sent, and
        then whatever the unread input means. */
    ghost predicate Accounted()
      reads this
    {
      OutOk(out) && Explains(server, received, dispatched, sent + Remaining(out), served, unread, Closing())
    }

    /** A head has been taken from the front of the unread input. */
    ghost predicate HeadTaken()
      reads this
    {
      var h := FrameHead(server, unread);
      h.HeadOk? && h.request == request && h.length == expectedBody && inbox == unread[h.marker + 4..]
    }

    ghost predicate Ready()
      reads this
    {
      && Accounted() && (phase.Writing? || out == IDLE)
      && (if phase.ReadingBody? then HeadTaken() else unread == inbox)
      && (finished ==> !open && !phase.Writing?)
    }

    /** Between events the connection is never waiting for bytes it already has. */
    ghost predicate Valid()
      reads this
    {
      Ready() && (open && !phase.Writing? ==> Stuck(server, unread))
    }

    constructor (v: Server)
      ensures Valid() && server == v && open && received == "" && dispatched == [] && sent == ""
    {
      NothingYet(v);
      server, phase, inbox := v, ReadingHead, "";
      request, expectedBody := Request("", "", "", "", map[], ""), 0;
      out, keepAlive, served, open, sent := IDLE, false, 0, true, "";
      received, dispatched, unread, finished := "", [], "", false;
    }

    /** flush: sends what it can; a finished response either ends the connection or makes
        it ready for the next request. */
    method Flush()
      requires Ready() && open && phase.Writing?
      modifies this
      ensures Ready()
      ensures received == old(received) && dispatched == old(dispatched) && unread == old(unread) && inbox == old(inbox)
      ensures open && !phase.Writing? ==> phase.ReadingHead? && old(keepAlive)
    {
      hide Explains, Remaining, BodyOf;
      ghost var owed := sent + Remaining(out);
      var result: Written;
      out, sent, result := Push(out, sent);
      if result.NoRoom? {
        return;
      }
      if result.Failed? {
        open := false;
        return;
      }
      NothingRemains();
      assert sent + "" == sent;
      if !keepAlive {
        open, finished, out, phase := false, true, IDLE, ReadingHead;
      } else {
        phase, out := ReadingHead, IDLE;
      }
    }

    /** begin_response, once the request is accounted for: a slice outside its buffer
        closes the connection with nothing written. */
    method BeginResponse(r: Response, keep: bool, ghost owed: string)
      requires open && !finished && out == IDLE && unread == inbox
      requires owed == sent + Bytes(r, keep)
      requires Explains(server, received, dispatched, owed, served, unread, !keep || Payload(r).None?)
      modifies this
      ensures Ready() && received == old(received) && dispatched == old(dispatched)
      ensures unread == old(unread) && inbox == old(inbox)
      ensures open && !phase.Writing? ==> phase.ReadingHead? && keep
    {
      hide Explains;
      NothingRemains();
      keepAlive := keep;
      if r.shared != "" && (r.offset > |r.shared| || r.length > |r.shared| - r.offset) {
        assert sent + "" == sent;
        open, finished, phase := false, true, ReadingHead;
        return;
      }
      var head := if keep then r.keepHead else r.closeHead;
      if r.shared != "" {
        out := Outgoing(head, 0, r.shared, r.offset, r.length, 0, "");
      } else {
        out := Outgoing(head, 0, "", 0, |r.body|, 0, r.body);
      }
      assert Remaining(out) == Bytes(r, keep);
      phase := Writing;
      Flush();
    }

    /** fail */
    method Fail(status: nat)
      requires Ready() && open && phase.ReadingHead? && unread != ""
      requires FirstFrame(server, unread) == Reject(status)
      modifies this
      ensures Ready() && received == old(received)
      ensures !open || phase.Writing?
    {
      hide Explains, FirstFrame, Bytes, Remaining;
      NothingRemains();
      assert sent + "" == sent;
      InputRejected(server, received, dispatched, sent, served, unread);
      BeginResponse(Failure(server, status), false, sent + Bytes(Failure(server, status), false));
    }

    /** dispatch: the handler's answer, and whether the connection goes on after it. */
    method Dispatch()
      requires open && !finished && out == IDLE && phase.ReadingBody?
      requires FirstFrame(server, unread) == Whole(request, inbox)
      requires Explains(server, received, dispatched, sent, served, unread, false)
      modifies this
      ensures Ready() && received == old(received) && dispatched == old(dispatched) + [old(request)]
      ensures unread == inbox == old(inbox)
      ensures open && !phase.Writing? ==> phase.ReadingHead?
    {
      hide Explains, FirstFrame, Payload, Remaining;
      var response := server.handler(served, request);
      var wantsClose := Says(request, "connection", "close");
      var wantsKeepAlive := Says(request, "connection", "keep-alive");
      var keep := server.keepAliveEnabled && !wantsClose && (request.version == "HTTP/1.1" || wantsKeepAlive) &&
                  served + 1 < server.maxRequests;
      RequestTaken(server, received, dispatched, sent, served, unread);
      dispatched, unread := dispatched + [request], inbox;
      served := served + 1;
      BeginResponse(response, keep, sent + Bytes(response, keep));
    }

    /** The head part of consume_input's loop: either the head is taken, or the input is
        refused, or nothing can be done yet. */
    method TakeHead() returns (again: bool)
      requires Ready() && open && phase.ReadingHead? && unread != ""
      modifies this
      ensures Ready() && received == old(received)
      ensures again ==> open && phase.ReadingBody? && unread == old(unread)
      ensures !again && open && !phase.Writing? ==> Stuck(server, unread)
    {
      hide Explains, Remaining, ParseHead, ContentLength, FindFrom;
      again := false;
      var marker := Find(inbox, BLANK_LINE);
      if marker.None? {
        if |inbox| >= server.maxHeaderBytes {
          Fail(431);
        }
        return;
      }
      if marker.value > server.maxHeaderBytes {
        Fail(431);
        return;
      }
      var parsed := ParseRequestHead(inbox[..marker.value]);
      if parsed.None? {
        Fail(400);
        return;
      }
      var length := ContentLength(parsed.value);
      if length.None? {
        Fail(400);
        return;
      }
      if length.value > server.maxBodyBytes {
        Fail(413);
        return;
      }
      request, expectedBody := parsed.value, length.value;
      inbox := inbox[marker.value + 4..];
      phase := ReadingBody;
      again := true;
    }

    /** The body part: a complete request is dispatched. */
    method TakeBody() returns (again: bool)
      requires Ready() && open && phase.ReadingBody?
      modifies this
      ensures Ready() && received == old(received)
      ensures again ==> open && phase.ReadingHead? && unread != "" && |unread| < |old(unread)|
      ensures !again && open && !phase.Writing? ==> Stuck(server, unread)
    {
      hide Explains, FrameHead;
      again := false;
      NothingRemains();
      assert sent + "" == sent;
      if |inbox| < expectedBody {
        return;
      }
      ghost var m := FrameHead(server, unread).marker + 4;
      assert unread[m..][..expectedBody] == unread[m..m + expectedBody];
      assert unread[m..][expectedBody..] == unread[m + expectedBody..];
      request := request.(body := inbox[..expectedBody]);
      inbox := inbox[expectedBody..];
      Dispatch();
      again := open && phase.ReadingHead? && inbox != "";
    }

    /** consume_input */
    method ConsumeInput()
      requires Ready() && open && !phase.Writing? && unread != ""
      modifies this
      ensures Valid() && received == old(received)
    {
      hide Accounted, HeadTaken, FirstFrame;
      var again := true;
      while again
        invariant Ready() && received == old(received)
        invariant again ==> open && !phase.Writing? && unread != ""
        invariant !again && open && !phase.Writing? ==> Stuck(server, unread)
        decreases again, |unread|
      {
        if phase.ReadingHead? {
          again := TakeHead();
        }
        if again {
          again := TakeBody();
        }
      }
    }

    /** One recv of on_readable; a connection mid-response reads nothing. */
    method OnReadable(chunk: string)
      requires Valid() && open && chunk != ""
      modifies this
      ensures Valid()
      ensures received == old(received) + if old(phase).Writing? then "" else chunk
    {
      hide Explains, Stuck, Remaining, FrameHead, OutOk;
      if phase.Writing? {
        assert received + "" == received;
        return;
      }
      MoreReceived(server, received, dispatched, sent + Remaining(out), served, unread, chunk);
      if phase.ReadingBody? {
        HeadOkExtends(server, unread, chunk);
        ghost var m := FrameHead(server, unread).marker + 4;
        assert (unread + chunk)[m..] == unread[m..] + chunk;
      }
      inbox := inbox + chunk;
      received, unread := received + chunk, unread + chunk;
      ConsumeInput();
    }

    /** on_writable: a finished response lets pipelined input be served at once. */
    method OnWritable()
      requires Valid() && open
      modifies this
      ensures Valid() && received == old(received)
    {
      hide Accounted, HeadTaken, FirstFrame;
      if !phase.Writing? {
        return;
      }
      Flush();
      if open && phase.ReadingHead? && inbox != "" {
        ConsumeInput();
      }
    }

    /** The peer closes, or a read fails. */
    method OnPeerGone()
      requires Valid()
      modifies this
      ensures Valid() && !open && received == old(received) && sent == old(sent) && dispatched == old(dispatched)
    {
      hide Explains;
      open := false;
    }

    /** Whatever the chunks and whatever the socket took: a connection at rest has handed
        over exactly the requests, and written exactly the bytes, that its whole input
        means; one the server closed likewise; any other is on its way there. */
    lemma InputDecidesOutcome()
      requires Valid() && Clean(server, 0, received)
      ensures open && !phase.Writing? ==> Serve(server, 0, received) == Outcome(dispatched, sent, false)
      ensures finished ==> Serve(server, 0, received) == Outcome(dispatched, sent, true)
      ensures dispatched <= Serve(server, 0, received).requests && sent <= Serve(server, 0, received).written
    {
      hide Explains, Serve, Clean, Stuck;
      NothingRemains();
      assert sent + "" == sent;
      ExplainsNow(server, received, dispatched, sent + Remaining(out), served, unread, Closing());
      assert sent <= sent + Remaining(out);
    }

    /** Nothing is left to do for a peer that sends `stream`: the server closed the
        connection, however much of the stream it had read by then, or all of it was read
        and the connection is at rest. */
    ghost predicate Settled(stream: string)
      reads this
    {
      if finished then received <= stream else open && !phase.Writing? && received == stream
    }

    /** What a settled connection has done is decided by the peer's stream alone: error
        answers, refused keep-alive and the bound on requests included. */
    lemma StreamDecidesOutcome(stream: string)
      requires Valid() && Settled(stream) && Clean(server, 0, stream)
      ensures Serve(server, 0, stream) == Outcome(dispatched, sent, finished)
    {
      hide Explains, Serve, Clean, Stuck;
      if finished {
        var x := stream[|received|..];
        assert stream == received + x;
        NothingRemains();
        assert sent + "" == sent;
        ExplainsForGood(server, received, dispatched, sent, served, unread, x);
      } else {
        InputDecidesOutcome();
      }
    }
  }

  /** Two connections of one server whose peers send the same bytes, in whatever chunks, and
      whose sockets take whatever portions: once both are settled they have handed over the
      same requests, written the same bytes, and both or neither were closed. */
  lemma SplitDoesNotMatter(a: Connection, b: Connection, stream: string)
    requires a.Valid() && b.Valid() && a.server == b.server && Clean(a.server, 0, stream)
    requires a.Settled(stream) && b.Settled(stream)
    ensures a.dispatched == b.dispatched && a.sent == b.sent && a.finished == b.finished
  {
    hide Connection.Valid;
    a.StreamDecidesOutcome(stream);
    b.StreamDecidesOutcome(stream);
  }

  lemma NothingRemains()
    ensures Remaining(IDLE) == ""
  {
  }
}
