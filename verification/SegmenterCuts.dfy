/** Where the segmenter cuts: the segments and parts of the ledger tile the frames written, none
    lost, repeated or reordered, and every cut is made exactly when its rule says. */
module SegmenterCuts {
  import opened Prelude
  import opened Media
  import opened SegmenterRuns
  import opened SegmenterLedger

  /** How many frames the published segments hold. */
  function Done(spans: seq<Span>): nat {
    if spans == [] then 0 else spans[|spans| - 1].to
  }

  /** Each segment begins where the one before it ended. */
  ghost predicate Chain(spans: seq<Span>, count: nat) {
    forall k | 0 <= k < |spans| :: spans[k].opening.from == Done(spans[..k]) < spans[k].to <= count
  }

  ghost predicate Tiled(l: Ledger, count: nat) {
    && Chain(l.spans, count) && Done(l.spans) <= count
    && (if l.open.Some? then l.open.value.from == Done(l.spans) else Done(l.spans) == count)
  }

  lemma CloseTiled(c: Config, l: Ledger, count: nat, lastTs: timestamp)
    requires Tiled(l, count)
    ensures Tiled(Close(c, l, count, lastTs), count) && Close(c, l, count, lastTs).open.None?
  {
    hide EndPart, Chain;
    var r := Close(c, l, count, lastTs);
    if l.open.Some? && l.open.value.from < count {
      ChainMoreSpans(l.spans, r.spans[|l.spans|], count);
    }
  }

  lemma ChainMoreSpans(spans: seq<Span>, span: Span, count: nat)
    requires Chain(spans, count) && span.opening.from == Done(spans) < span.to <= count
    ensures Chain(spans + [span], count)
  {
    var after := spans + [span];
    forall k | 0 <= k < |after|
      ensures after[k].opening.from == Done(after[..k]) < after[k].to <= count
    {
      assert after[..k] == spans[..k];
      if k == |spans| {
        assert spans[..k] == spans;
      }
    }
  }

  lemma TiledMore(l: Ledger, e: Ledger, count: nat)
    requires Tiled(l, count) && l.open.Some? && e.spans == l.spans && e.open == l.open
    ensures Tiled(e, count + 1)
  {
  }

  lemma RoomTiled(c: Config, l: Ledger, r: Reception, m: Message)
    requires Tiled(l, |r.written|) && Placed(l, |r.written|) && m.VideoFrame?
    ensures Tiled(MakeRoom(c, l, r, m), |r.written|) && MakeRoom(c, l, r, m).open.Some?
  {
    hide Close, JumpsTo, SegmentBytes;
    CloseTiled(c, l, |r.written|, r.lastTs);
  }

  lemma TiledStep(c: Config, l: Ledger, r: Reception, m: Message)
    requires Tiled(l, |r.written|) && Placed(l, |r.written|) && (l.open.Some? <==> r.open)
    ensures Tiled(Enter(c, l, r, m), |Receive(r, m).written|)
  {
    hide Close, MakeRoom, Tiled;
    CloseTiled(c, l, |r.written|, r.lastTs);
    TiledFlag(Close(c, l, |r.written|, r.lastTs), |r.written|);
    if m.VideoFrame? && !r.finalized && r.video.Some? {
      RoomTiled(c, l, r, m);
      if m.packets.Some? {
        TiledMore(MakeRoom(c, l, r, m), Enter(c, l, r, m), |r.written|);
      }
    } else if m.AudioFrame? && !r.finalized && r.audio.Some? && r.open {
      TiledMore(l, Enter(c, l, r, m), |r.written|);
    }
  }

  lemma TiledFlag(l: Ledger, count: nat)
    requires Tiled(l, count)
    ensures Tiled(l.(flag := true), count)
  {
  }

  lemma {:induction false} BookedTiled(c: Config, messages: seq<Message>)
    ensures Tiled(Booked(c, messages), |Received(messages).written|)
  {
    hide Enter, Receive, Tiled, Placed;
    if messages == [] {
      NothingTiled();
    } else {
      var before := messages[..|messages| - 1];
      BookedTiled(c, before);
      BookedPlaced(c, before);
      TiledStep(c, Booked(c, before), Received(before), messages[|messages| - 1]);
    }
  }

  lemma NothingTiled()
    ensures Tiled(Ledger([], None, [], 0, 0, false), 0)
  {
  }

  // ------------------------------------------------------------ conservation

  /** A segment's octets without the two table packets in front. */
  function Body(data: seq<byte>): seq<byte> {
    if |data| < 2 * PACKET then [] else data[2 * PACKET..]
  }

  function Bodies(segments: seq<Segment>): seq<byte> {
    if segments == [] then [] else Bodies(segments[..|segments| - 1]) + Body(segments[|segments| - 1].data)
  }

  /** Every segment was opened with two table packets. */
  ghost predicate Tabled(l: Ledger) {
    && (forall k | 0 <= k < |l.spans| :: |l.spans[k].opening.tables| == 2 * PACKET)
    && (l.open.Some? ==> |l.open.value.tables| == 2 * PACKET)
  }

  lemma TabledStep(c: Config, l: Ledger, r: Reception, m: Message)
    requires Tabled(l) && Placed(l, |r.written|) && Muxed(m)
    ensures Tabled(Enter(c, l, r, m))
  {
    hide JumpsTo, SegmentBytes, Close, EndPart;
    CloseTabled(c, l, |r.written|, r.lastTs);
    if m.VideoFrame? {
      OnlyParts(c, MakeRoom(c, l, r, m), |r.written| + 1, m.at, false);
    } else if m.AudioFrame? {
      OnlyParts(c, l, |r.written| + 1, m.at, false);
    }
  }

  lemma CloseTabled(c: Config, l: Ledger, count: nat, lastTs: timestamp)
    requires Tabled(l)
    ensures Tabled(Close(c, l, count, lastTs))
  {
  }

  lemma {:induction false} BookedTabled(c: Config, messages: seq<Message>)
    requires AllMuxed(messages)
    ensures Tabled(Booked(c, messages))
  {
    hide Received, Enter, Muxed;
    if messages != [] {
      var before := messages[..|messages| - 1];
      BookedTabled(c, before);
      BookedPlaced(c, before);
      TabledStep(c, Booked(c, before), Received(before), messages[|messages| - 1]);
    }
  }

  lemma {:induction false} BodiesOf(c: Config, written: seq<Sample>, spans: seq<Span>)
    requires SpansWithin(spans, |written|)
    requires forall k | 0 <= k < |spans| :: |spans[k].opening.tables| == 2 * PACKET
    requires forall k | 0 <= k < |spans| :: spans[k].opening.from == Done(spans[..k])
    ensures Done(spans) <= |written|
    ensures Bodies(SegmentsOf(c, written, spans)) == Packets(written[..Done(spans)])
  {
    hide PartsOf, KeyPrefix, SegmentName, Packets;
    if spans == [] {
      NoPackets();
    } else {
      var n := |spans| - 1;
      var before, o := spans[..n], spans[n].opening;
      forall k | 0 <= k < n
        ensures before[k].opening.from == Done(before[..k])
      {
        assert before[..k] == spans[..k];
      }
      BodiesOf(c, written, before);
      var samples := written[o.from..spans[n].to];
      assert written[..spans[n].to] == written[..o.from] + samples;
      PacketsJoin(written[..o.from], samples);
      var segments := SegmentsOf(c, written, spans);
      assert segments[..|segments| - 1] == SegmentsOf(c, written, before);
      assert (o.tables + Packets(samples))[2 * PACKET..] == Packets(samples);
    }
  }

  /** Over every run: the media of the published segments, in a row, followed by that of the open
      one, is the media of the frames written, octet for octet; none is lost, repeated or
      reordered. */
  lemma MediaConserved(c: Config, messages: seq<Message>)
    requires AllMuxed(messages)
    ensures var s := Run(c, messages);
            Bodies(Segments(s.output)) + (if s.acc.segmentOpen then Body(s.acc.current) else []) ==
            Packets(Received(messages).written)
  {
    hide Run, Received, Booked, Packets, Segments, SegmentsOf, PartsOf, Bodies;
    PublishesTheLedger(c, messages);
    BookedTiled(c, messages);
    BookedTabled(c, messages);
    var written, l := Received(messages).written, Booked(c, messages);
    BodiesOf(c, written, l.spans);
    var done := Done(l.spans);
    assert written == written[..done] + written[done..];
    PacketsJoin(written[..done], written[done..]);
    if l.open.Some? {
      assert SegmentBytes(l.open.value, written)[2 * PACKET..] == Packets(written[done..]);
    } else {
      assert written[..done] == written;
    }
  }

  // ------------------------------------------------------------- segment cuts

  /** No video frame after the first calls for a cut: none is a keyframe past the target, and
      none comes when the segment already has its octets or its time. */
  ghost predicate Unforced(c: Config, o: Opening, samples: seq<Sample>) {
    forall i | 0 < i < |samples| && samples[i].video ::
      && !(samples[i].key && samples[i].at - o.at >= c.targetMs)
      && |o.tables| + |Packets(samples[..i])| < c.maxBytes && samples[i].at - o.at < c.maxMs
  }

  /** When the last video frame is for, if there is one. */
  function LastVideo(samples: seq<Sample>): Option<timestamp> {
    if samples == [] then None else
      var x := samples[|samples| - 1];
      if x.video then Some(x.at) else LastVideo(samples[..|samples| - 1])
  }

  /** No video frame jumps from the one before. */
  ghost predicate Steady(c: Config, samples: seq<Sample>) {
    forall j | 0 <= j < |samples| && samples[j].video && LastVideo(samples[..j]).Some? ::
      -c.thresholdMs <= samples[j].at - LastVideo(samples[..j]).value <= c.thresholdMs
  }

  ghost predicate Uncut(c: Config, o: Opening, samples: seq<Sample>) {
    Unforced(c, o, samples) && Steady(c, samples)
  }

  /** The last video frame, if there is one, is where the clock stands. */
  ghost predicate ClockAt(r: Reception, from: nat) {
    from <= |r.written| &&
    (LastVideo(r.written[from..]).Some? ==> r.haveLast && r.lastTs == LastVideo(r.written[from..]).value)
  }

  lemma UnforcedMore(c: Config, o: Opening, samples: seq<Sample>, x: Sample)
    requires Unforced(c, o, samples)
    requires x.video && samples != [] ==>
               && !(x.key && x.at - o.at >= c.targetMs)
               && |o.tables| + |Packets(samples)| < c.maxBytes && x.at - o.at < c.maxMs
    ensures Unforced(c, o, samples + [x])
  {
    hide Packets;
    var after := samples + [x];
    forall i | 0 < i < |after| && after[i].video
      ensures !(after[i].key && after[i].at - o.at >= c.targetMs)
      ensures |o.tables| + |Packets(after[..i])| < c.maxBytes && after[i].at - o.at < c.maxMs
    {
      assert after[..i] == samples[..i];
      if i == |samples| {
        assert samples[..i] == samples;
      }
    }
  }

  lemma SteadyMore(c: Config, r: Reception, from: nat, x: Sample)
    requires ClockAt(r, from) && Steady(c, r.written[from..])
    requires x.video && from < |r.written| ==> !JumpsTo(c, r, x.at)
    ensures Steady(c, r.written[from..] + [x])
  {
    hide LastVideo;
    var samples := r.written[from..];
    var after := samples + [x];
    NoVideo();
    forall j | 0 <= j < |after| && after[j].video && LastVideo(after[..j]).Some?
      ensures -c.thresholdMs <= after[j].at - LastVideo(after[..j]).value <= c.thresholdMs
    {
      assert after[..j] == samples[..j];
      if j == |samples| {
        assert samples[..j] == samples;
      }
    }
  }

  lemma NoVideo()
    ensures LastVideo([]) == None
  {
  }

  lemma UncutMore(c: Config, o: Opening, r: Reception, x: Sample)
    requires o.from <= |r.written| && Uncut(c, o, r.written[o.from..]) && ClockAt(r, o.from)
    requires x.video && o.from < |r.written| ==>
               && !JumpsTo(c, r, x.at) && !(x.key && x.at - o.at >= c.targetMs)
               && |SegmentBytes(o, r.written)| < c.maxBytes && x.at - o.at < c.maxMs
    ensures Uncut(c, o, (r.written + [x])[o.from..])
  {
    hide Packets, Unforced, Steady, ClockAt, JumpsTo;
    assert (r.written + [x])[o.from..] == r.written[o.from..] + [x];
    UnforcedMore(c, o, r.written[o.from..], x);
    SteadyMore(c, r, o.from, x);
  }

  ghost predicate CutsRight(c: Config, l: Ledger, written: seq<Sample>) {
    && (forall k | 0 <= k < |l.spans| ::
          var o := l.spans[k].opening;
          o.from < l.spans[k].to <= |written| && Uncut(c, o, written[o.from..l.spans[k].to]))
    && (l.open.Some? ==> l.open.value.from <= |written| && Uncut(c, l.open.value, written[l.open.value.from..]))
  }

  lemma CloseRight(c: Config, l: Ledger, written: seq<Sample>, lastTs: timestamp)
    requires CutsRight(c, l, written)
    ensures CutsRight(c, Close(c, l, |written|, lastTs), written)
  {
    hide Uncut;
    if l.open.Some? {
      assert written[l.open.value.from..|written|] == written[l.open.value.from..];
    }
  }

  lemma RoomRight(c: Config, l: Ledger, r: Reception, m: Message)
    requires CutsRight(c, l, r.written) && Placed(l, |r.written|) && m.VideoFrame?
    ensures var u := MakeRoom(c, l, r, m);
            && CutsRight(c, u, r.written) && u.open.Some?
            && var o := u.open.value;
               o.from < |r.written| ==>
                 && u == l && !JumpsTo(c, r, m.at) && !(m.key && m.at - o.at >= c.targetMs)
                 && |SegmentBytes(o, r.written)| < c.maxBytes && m.at - o.at < c.maxMs
  {
    hide Close, JumpsTo, SegmentBytes, Packets;
    CloseRight(c, l, r.written, r.lastTs);
    CloseTakes(c, l, |r.written|, r.lastTs);
    assert r.written[|r.written|..] == [];
  }

  lemma CloseTakes(c: Config, l: Ledger, count: nat, lastTs: timestamp)
    ensures Close(c, l, count, lastTs).open.None?
  {
  }

  lemma RightMore(c: Config, l: Ledger, e: Ledger, r: Reception, x: Sample)
    requires CutsRight(c, l, r.written) && l.open.Some? && e.open == l.open && e.spans == l.spans
    requires ClockAt(r, l.open.value.from)
    requires var o := l.open.value;
             x.video && o.from < |r.written| ==>
               && !JumpsTo(c, r, x.at) && !(x.key && x.at - o.at >= c.targetMs)
               && |SegmentBytes(o, r.written)| < c.maxBytes && x.at - o.at < c.maxMs
    ensures CutsRight(c, e, r.written + [x])
  {
    hide Uncut, JumpsTo, SegmentBytes, ClockAt;
    UncutMore(c, l.open.value, r, x);
    forall k | 0 <= k < |l.spans|
      ensures var from, to := l.spans[k].opening.from, l.spans[k].to;
              (r.written + [x])[from..to] == r.written[from..to]
    {
    }
  }

  ghost predicate ClockRight(l: Ledger, r: Reception) {
    l.open.Some? ==> ClockAt(r, l.open.value.from)
  }

  lemma ClockMore(r: Reception, q: Reception, from: nat, x: Sample)
    requires ClockAt(r, from) && q.written == r.written + [x]
    requires q.haveLast && q.lastTs == if x.video || !r.haveLast then x.at else r.lastTs
    ensures ClockAt(q, from)
  {
    assert q.written[from..] == r.written[from..] + [x];
    assert (r.written[from..] + [x])[..|r.written[from..]|] == r.written[from..];
  }

  lemma ClockStep(c: Config, l: Ledger, r: Reception, m: Message)
    requires ClockRight(l, r) && Placed(l, |r.written|) && (l.open.Some? <==> r.open)
    ensures ClockRight(Enter(c, l, r, m), Receive(r, m))
  {
    hide JumpsTo, SegmentBytes, EndPart, ClockAt, Close;
    CloseTakes(c, l, |r.written|, r.lastTs);
    if m.VideoFrame? && !r.finalized && r.video.Some? {
      var u := MakeRoom(c, l, r, m);
      NewClock(r, |r.written|);
      if m.packets.Some? {
        OnlyParts(c, u, |r.written| + 1, m.at, false);
        ClockMore(r, Receive(r, m), u.open.value.from, Sample(m.at, true, m.key, m.packets.value));
      } else {
        SameClockAt(r, Receive(r, m), u.open.value.from);
      }
    } else if m.AudioFrame? && !r.finalized && r.audio.Some? && r.open {
      OnlyParts(c, l, |r.written| + 1, m.at, false);
      ClockMore(r, Receive(r, m), l.open.value.from, Sample(m.at, false, false, m.sound));
    } else if l.open.Some? {
      SameClockAt(r, Receive(r, m), l.open.value.from);
    }
  }

  lemma SameClockAt(r: Reception, q: Reception, from: nat)
    ensures q.written == r.written && q.lastTs == r.lastTs && q.haveLast == r.haveLast ==>
              ClockAt(r, from) == ClockAt(q, from)
  {
  }

  lemma RightStep(c: Config, l: Ledger, r: Reception, m: Message)
    requires CutsRight(c, l, r.written) && ClockRight(l, r) && Placed(l, |r.written|) && (l.open.Some? <==> r.open)
    ensures CutsRight(c, Enter(c, l, r, m), Receive(r, m).written)
  {
    hide CutsRight, Close, MakeRoom, EndPart, JumpsTo, SegmentBytes, ClockAt;
    CloseRight(c, l, r.written, r.lastTs);
    FlagRight(c, Close(c, l, |r.written|, r.lastTs), r.written);
    if m.VideoFrame? && !r.finalized && r.video.Some? {
      var u := MakeRoom(c, l, r, m);
      RoomRight(c, l, r, m);
      if m.packets.Some? {
        RoomPlaced(c, l, r, m);
        NewClock(r, u.open.value.from);
        OnlyParts(c, u, |r.written| + 1, m.at, false);
        RightMore(c, u, Enter(c, l, r, m), r, Sample(m.at, true, m.key, m.packets.value));
      }
    } else if m.AudioFrame? && !r.finalized && r.audio.Some? && r.open {
      OnlyParts(c, l, |r.written| + 1, m.at, false);
      RightMore(c, l, Enter(c, l, r, m), r, Sample(m.at, false, false, m.sound));
    }
  }

  lemma NewClock(r: Reception, from: nat)
    requires from <= |r.written|
    ensures from == |r.written| ==> ClockAt(r, from)
  {
    if from == |r.written| {
      assert r.written[from..] == [];
    }
  }

  lemma FlagRight(c: Config, l: Ledger, written: seq<Sample>)
    requires CutsRight(c, l, written)
    ensures CutsRight(c, l.(flag := true), written)
  {
    hide Uncut;
  }

  lemma {:induction false} BookedRight(c: Config, messages: seq<Message>)
    ensures CutsRight(c, Booked(c, messages), Received(messages).written)
    ensures ClockRight(Booked(c, messages), Received(messages))
  {
    hide Enter, Receive, Placed, ClockAt, Uncut;
    if messages != [] {
      var before, m := messages[..|messages| - 1], messages[|messages| - 1];
      BookedRight(c, before);
      BookedPlaced(c, before);
      RightStep(c, Booked(c, before), Received(before), m);
      ClockStep(c, Booked(c, before), Received(before), m);
    }
  }

  // ---------------------------------------------------------- unflagged cuts

  /** Opened for a keyframe, no sooner than the target after the other. */
  predicate LaterKey(c: Config, a: Opening, b: Opening) {
    b.key && b.at - a.at >= c.targetMs
  }

  ghost predicate DueRight(c: Config, l: Ledger, finalized: bool) {
    && (forall k | 0 < k < |l.spans| && !l.spans[k].flagged :: LaterKey(c, l.spans[k - 1].opening, l.spans[k].opening))
    && (l.spans != [] && !l.flag ==>
          if l.open.Some? then LaterKey(c, l.spans[|l.spans| - 1].opening, l.open.value) else finalized)
  }

  lemma CloseDue(c: Config, l: Ledger, count: nat, lastTs: timestamp, finalized: bool)
    requires DueRight(c, l, finalized)
    ensures DueRight(c, Close(c, l, count, lastTs).(flag := true), finalized)
    ensures DueRight(c, Close(c, l, count, lastTs), true)
  {
    hide LaterKey, EndPart;
  }

  lemma RoomDue(c: Config, l: Ledger, r: Reception, m: Message)
    requires DueRight(c, l, r.finalized) && Placed(l, |r.written|) && m.VideoFrame? && !r.finalized && c.targetMs >= 0
    ensures DueRight(c, MakeRoom(c, l, r, m), r.finalized)
  {
    hide JumpsTo, SegmentBytes, EndPart;
  }

  lemma DueStep(c: Config, l: Ledger, r: Reception, m: Message)
    requires DueRight(c, l, r.finalized) && Placed(l, |r.written|) && c.targetMs >= 0
    ensures DueRight(c, Enter(c, l, r, m), Receive(r, m).finalized)
  {
    hide Close, MakeRoom, EndPart, LaterKey;
    CloseDue(c, l, |r.written|, r.lastTs, r.finalized);
    if m.VideoFrame? && !r.finalized {
      RoomDue(c, l, r, m);
      OnlyParts(c, MakeRoom(c, l, r, m), |r.written| + 1, m.at, false);
    } else if m.AudioFrame? {
      OnlyParts(c, l, |r.written| + 1, m.at, false);
    }
  }

  lemma {:induction false} BookedDue(c: Config, messages: seq<Message>)
    requires c.targetMs >= 0
    ensures DueRight(c, Booked(c, messages), Received(messages).finalized)
  {
    hide Enter, Receive, LaterKey;
    if messages != [] {
      var before := messages[..|messages| - 1];
      BookedDue(c, before);
      BookedPlaced(c, before);
      DueStep(c, Booked(c, before), Received(before), messages[|messages| - 1]);
    }
  }

  // --------------------------------------------------------------- part cuts

  /** Where the part after `parts` begins, and when. */
  function PartsEnd(o: Opening, parts: seq<PartSpan>): nat {
    if parts == [] then o.from else parts[|parts| - 1].to
  }

  function PartsTime(o: Opening, written: seq<Sample>, parts: seq<PartSpan>): timestamp {
    if parts == [] then o.at else
      var to := parts[|parts| - 1].to;
      if 0 < to <= |written| then written[to - 1].at else 0
  }

  /** None of the frames lies the part target after `start`. */
  predicate Short(c: Config, written: seq<Sample>, from: nat, to: nat, start: timestamp)
    requires to <= |written|
  {
    forall i | from <= i < to :: written[i].at - start < c.partTargetMs
  }

  /** The last frame, and none before it, lies the part target after the start, and so long the
      part lasts. */
  predicate Full(c: Config, written: seq<Sample>, p: PartSpan) {
    && p.from < p.to <= |written| && written[p.to - 1].at - p.start >= c.partTargetMs
    && Short(c, written, p.from, p.to - 1, p.start) && p.duration == written[p.to - 1].at - p.start
  }

  /** Parts each begin where and when the one before ended. */
  ghost predicate Chained(o: Opening, written: seq<Sample>, parts: seq<PartSpan>) {
    forall j | 0 <= j < |parts| ::
      && parts[j].from == PartsEnd(o, parts[..j]) && parts[j].start == PartsTime(o, written, parts[..j])
      && parts[j].from < parts[j].to <= |written|
  }

  ghost predicate AllFull(c: Config, written: seq<Sample>, parts: seq<PartSpan>) {
    forall j | 0 <= j < |parts| :: Full(c, written, parts[j])
  }

  /** The parts of a published segment tile it; all but the last, which the end of the segment
      may have cut short, are full. */
  ghost predicate SpanParts(c: Config, written: seq<Sample>, span: Span) {
    if c.partTargetMs <= 0 then span.parts == [] else
      var last := |span.parts| - 1;
      && last >= 0 && Chained(span.opening, written, span.parts) && AllFull(c, written, span.parts[..last])
      && PartsEnd(span.opening, span.parts) == span.to
      && (|| Full(c, written, span.parts[last])
          || Short(c, written, span.parts[last].from, span.parts[last].to, span.parts[last].start))
  }

  ghost predicate OpenRight(c: Config, written: seq<Sample>, l: Ledger) {
    l.open.Some? ==>
      && l.partFrom <= |written| && l.partFrom == PartsEnd(l.open.value, l.parts)
      && l.partStart == PartsTime(l.open.value, written, l.parts)
      && if c.partTargetMs <= 0 then l.parts == [] else
           && Chained(l.open.value, written, l.parts) && AllFull(c, written, l.parts)
           && Short(c, written, l.partFrom, |written|, l.partStart)
  }

  lemma ChainMore(o: Opening, written: seq<Sample>, parts: seq<PartSpan>, p: PartSpan)
    requires Chained(o, written, parts) && p.from < p.to <= |written|
    requires p.from == PartsEnd(o, parts) && p.start == PartsTime(o, written, parts)
    ensures Chained(o, written, parts + [p])
  {
    hide PartsEnd, PartsTime;
    var after := parts + [p];
    forall j | 0 <= j < |after|
      ensures after[..j] == parts[..j]
    {
    }
    assert parts[..|parts|] == parts;
  }

  lemma ChainStays(o: Opening, written: seq<Sample>, x: Sample, parts: seq<PartSpan>)
    requires Chained(o, written, parts)
    ensures Chained(o, written + [x], parts) && PartsTime(o, written + [x], parts) == PartsTime(o, written, parts)
  {
    forall j | 0 <= j < |parts|
      ensures PartsTime(o, written + [x], parts[..j]) == PartsTime(o, written, parts[..j])
    {
      if j > 0 {
        assert parts[..j][j - 1] == parts[j - 1];
      }
    }
  }

  lemma FullStays(c: Config, written: seq<Sample>, x: Sample, p: PartSpan)
    requires Full(c, written, p)
    ensures Full(c, written + [x], p)
  {
  }

  lemma AllFullStay(c: Config, written: seq<Sample>, x: Sample, parts: seq<PartSpan>)
    requires AllFull(c, written, parts)
    ensures AllFull(c, written + [x], parts)
  {
    hide Full;
    forall j | 0 <= j < |parts|
      ensures Full(c, written + [x], parts[j])
    {
      FullStays(c, written, x, parts[j]);
    }
  }

  ghost predicate SpansParts(c: Config, written: seq<Sample>, spans: seq<Span>) {
    forall k | 0 <= k < |spans| :: SpanParts(c, written, spans[k])
  }

  lemma SpanPartsStay(c: Config, written: seq<Sample>, x: Sample, span: Span)
    requires SpanParts(c, written, span)
    ensures SpanParts(c, written + [x], span)
  {
    hide Full, Chained;
    if c.partTargetMs > 0 {
      ChainStays(span.opening, written, x, span.parts);
      LastPlaced(span.opening, written, span.parts);
      forall j | 0 <= j < |span.parts| && Full(c, written, span.parts[j])
        ensures Full(c, written + [x], span.parts[j])
      {
        FullStays(c, written, x, span.parts[j]);
      }
      AllFullStay(c, written, x, span.parts[..|span.parts| - 1]);
    }
  }

  lemma LastPlaced(o: Opening, written: seq<Sample>, parts: seq<PartSpan>)
    requires Chained(o, written, parts) && parts != []
    ensures parts[|parts| - 1].to <= |written|
  {
  }

  lemma OpenMore(c: Config, written: seq<Sample>, l: Ledger, x: Sample)
    requires OpenRight(c, written, l) && l.open.Some?
    ensures OpenRight(c, written + [x], EndPart(c, l, |written| + 1, x.at, false))
  {
    hide Full, Chained, AllFull;
    var after := written + [x];
    if c.partTargetMs > 0 {
      ChainStays(l.open.value, written, x, l.parts);
      AllFullStay(c, written, x, l.parts);
      if x.at - l.partStart >= c.partTargetMs {
        var p := PartSpan(l.partFrom, |after|, l.partStart, AtLeastZero(x.at - l.partStart));
        NowFull(c, written, x, p);
        ChainMore(l.open.value, after, l.parts, p);
        FullMore(c, after, l.parts, p);
      }
    }
  }

  lemma NowFull(c: Config, written: seq<Sample>, x: Sample, p: PartSpan)
    requires p.from <= |written| && p.to == |written| + 1 && x.at - p.start >= c.partTargetMs > 0
    requires p.duration == x.at - p.start && Short(c, written, p.from, |written|, p.start)
    ensures Full(c, written + [x], p)
  {
  }

  lemma FullMore(c: Config, written: seq<Sample>, parts: seq<PartSpan>, p: PartSpan)
    requires AllFull(c, written, parts) && Full(c, written, p)
    ensures AllFull(c, written, parts + [p])
  {
    hide Full;
  }

  lemma CloseParts(c: Config, written: seq<Sample>, l: Ledger, lastTs: timestamp)
    requires OpenRight(c, written, l) && SpansParts(c, written, l.spans)
    ensures SpansParts(c, written, Close(c, l, |written|, lastTs).spans)
  {
    hide Full, Chained, AllFull, SpanParts;
    if l.open.Some? && l.open.value.from < |written| {
      var span := Span(l.open.value, |written|, AtLeastZero(lastTs - l.open.value.at), l.flag,
                       EndPart(c, l, |written|, lastTs, true).parts);
      ClosedSpan(c, written, l, lastTs, span);
    }
  }

  lemma ClosedSpan(c: Config, written: seq<Sample>, l: Ledger, lastTs: timestamp, span: Span)
    requires OpenRight(c, written, l) && l.open.Some? && l.open.value.from < |written|
    requires span.opening == l.open.value && span.to == |written|
    requires span.parts == EndPart(c, l, |written|, lastTs, true).parts
    ensures SpanParts(c, written, span)
  {
    hide Full, Chained, AllFull;
    if c.partTargetMs > 0 {
      if l.partFrom < |written| {
        var p := PartSpan(l.partFrom, |written|, l.partStart, AtLeastZero(lastTs - l.partStart));
        ChainMore(l.open.value, written, l.parts, p);
        assert span.parts[..|l.parts|] == l.parts;
      } else {
        AllButLast(c, written, l.parts);
      }
    }
  }

  lemma AllButLast(c: Config, written: seq<Sample>, parts: seq<PartSpan>)
    requires AllFull(c, written, parts) && parts != []
    ensures AllFull(c, written, parts[..|parts| - 1]) && Full(c, written, parts[|parts| - 1])
  {
    hide Full;
  }

  ghost predicate PartsRight(c: Config, written: seq<Sample>, l: Ledger) {
    OpenRight(c, written, l) && SpansParts(c, written, l.spans)
  }

  lemma RoomParts(c: Config, l: Ledger, r: Reception, m: Message)
    requires PartsRight(c, r.written, l) && Placed(l, |r.written|) && m.VideoFrame?
    ensures PartsRight(c, r.written, MakeRoom(c, l, r, m)) && MakeRoom(c, l, r, m).open.Some?
  {
    hide JumpsTo, SegmentBytes, Close, SpansParts, Full;
    CloseParts(c, r.written, l, r.lastTs);
    CloseTakes(c, l, |r.written|, r.lastTs);
  }

  lemma WriteParts(c: Config, l: Ledger, written: seq<Sample>, x: Sample)
    requires PartsRight(c, written, l) && l.open.Some?
    ensures PartsRight(c, written + [x], EndPart(c, l, |written| + 1, x.at, false))
  {
    hide SpanParts, OpenRight, EndPart;
    OnlyParts(c, l, |written| + 1, x.at, false);
    OpenMore(c, written, l, x);
    forall k | 0 <= k < |l.spans|
      ensures SpanParts(c, written + [x], l.spans[k])
    {
      SpanPartsStay(c, written, x, l.spans[k]);
    }
  }

  lemma PartsStep(c: Config, l: Ledger, r: Reception, m: Message)
    requires PartsRight(c, r.written, l) && Placed(l, |r.written|) && (l.open.Some? <==> r.open)
    ensures PartsRight(c, Receive(r, m).written, Enter(c, l, r, m))
  {
    hide SpansParts, Close, MakeRoom, EndPart, Full, Short;
    CloseParts(c, r.written, l, r.lastTs);
    CloseTakes(c, l, |r.written|, r.lastTs);
    if m.VideoFrame? && !r.finalized && r.video.Some? {
      RoomParts(c, l, r, m);
      if m.packets.Some? {
        WriteParts(c, MakeRoom(c, l, r, m), r.written, Sample(m.at, true, m.key, m.packets.value));
      }
    } else if m.AudioFrame? && !r.finalized && r.audio.Some? && r.open {
      WriteParts(c, l, r.written, Sample(m.at, false, false, m.sound));
    }
  }

  lemma {:induction false} BookedParts(c: Config, messages: seq<Message>)
    ensures PartsRight(c, Received(messages).written, Booked(c, messages))
  {
    hide Enter, Receive, PartsRight;
    if messages == [] {
      NoParts(c);
    } else {
      var before := messages[..|messages| - 1];
      BookedParts(c, before);
      BookedPlaced(c, before);
      PartsStep(c, Booked(c, before), Received(before), messages[|messages| - 1]);
    }
  }

  lemma NoParts(c: Config)
    ensures PartsRight(c, [], Ledger([], None, [], 0, 0, false))
  {
  }

  // ---------------------------------------------------------------- theorems

  /** Over every run, of published segment `k`: its frames are those written after segment
      `k - 1`; none of its video frames after the first called for a cut or jumped; unless it is
      flagged or the first, it was opened for a keyframe no sooner than the target after the one
      before; and its parts tile its frames, each but the last cut at the first frame that lies
      the part target after its start. */
  lemma CutsAreExact(c: Config, messages: seq<Message>, k: nat)
    requires AllMuxed(messages) && k < |Segments(Run(c, messages).output)|
    ensures var written, spans := Received(messages).written, Booked(c, messages).spans;
            && |spans| == |Segments(Run(c, messages).output)| && SpanWithin(spans[k], |written|)
            && Segments(Run(c, messages).output)[k] == SegmentOf(c, written, k, spans[k])
            && spans[k].opening.from == (if k == 0 then 0 else spans[k - 1].to)
            && Uncut(c, spans[k].opening, written[spans[k].opening.from..spans[k].to])
            && (k > 0 && !spans[k].flagged && c.targetMs >= 0 ==> LaterKey(c, spans[k - 1].opening, spans[k].opening))
            && SpanParts(c, written, spans[k])
  {
    hide Run, Received, Booked, Uncut, SpanParts, LaterKey, SegmentOf, Segments;
    var written, spans := Received(messages).written, Booked(c, messages).spans;
    PublishesTheLedger(c, messages);
    SegmentAt(c, written, spans, k);
    BookedTiled(c, messages);
    BookedRight(c, messages);
    BookedParts(c, messages);
    if c.targetMs >= 0 {
      BookedDue(c, messages);
    }
    if k > 0 {
      assert spans[..k][k - 1] == spans[k - 1];
    }
  }

  lemma {:induction false} SegmentAt(c: Config, written: seq<Sample>, spans: seq<Span>, k: nat)
    requires SpansWithin(spans, |written|)
    ensures |SegmentsOf(c, written, spans)| == |spans|
    ensures k < |spans| ==> SegmentsOf(c, written, spans)[k] == SegmentOf(c, written, k, spans[k])
  {
    hide SegmentOf;
    if spans != [] {
      SegmentAt(c, written, spans[..|spans| - 1], k);
    }
  }
}
