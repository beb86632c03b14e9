/** The segmenter's output said in terms of the messages alone: which frames are written, which
    of them make up each segment and each part, and with what octets, durations and flags. The
    ledger knows no buffers and no offsets, only places in the list of frames written; the runs
    of `SegmenterRuns` are proved to publish exactly what it says. */
module SegmenterLedger {
  import opened Prelude
  import opened Media
  import opened SegmenterRuns

  /** A media frame handed to the muxer, with the octets its write appends. */
  datatype Sample = Sample(at: timestamp, video: bool, key: bool, packets: seq<byte>)

  /** What has been received, whatever becomes of it. `open`: there is a segment for audio to go into. */
  datatype Reception = Reception(
    video: Option<VideoParams>,
    audio: Option<AudioParams>,
    finalized: bool,
    open: bool,
    lastTs: timestamp,
    haveLast: bool,
    written: seq<Sample>
  )

  /** A frame is written exactly when it is a video frame that converts, with the parameter sets
      known, or an audio frame, with its configuration known and a segment to go into. */
  function Receive(r: Reception, m: Message): Reception {
    match m
    case VideoHeader(video) =>
      if r.finalized then r else r.(video := Some(video), open := r.open && (r.video.None? || r.video.value == video))
    case AudioHeader(audio) =>
      if r.finalized then r else r.(audio := Some(audio), open := r.open && (r.audio.None? || r.audio.value == audio))
    case VideoFrame(at, key, _, packets) =>
      if r.finalized || r.video.None? then r
      else if packets.None? then r.(open := true)
      else r.(open := true, lastTs := at, haveLast := true,
              written := r.written + [Sample(at, true, key, packets.value)])
    case AudioFrame(at, sound) =>
      if r.finalized || r.audio.None? || !r.open then r
      else r.(lastTs := if r.haveLast then r.lastTs else at, haveLast := true,
              written := r.written + [Sample(at, false, false, sound)])
    case Reconnect => r.(video := None, audio := None, open := false, haveLast := false)
    case MediaGap => r.(video := None, audio := None, open := false)
    case Finalize => if r.finalized then r else r.(finalized := true, open := false)
  }

  function Received(messages: seq<Message>): Reception {
    if messages == [] then Reception(None, None, false, false, 0, false, [])
    else Receive(Received(messages[..|messages| - 1]), messages[|messages| - 1])
  }

  function Packets(samples: seq<Sample>): seq<byte> {
    if samples == [] then [] else Packets(samples[..|samples| - 1]) + samples[|samples| - 1].packets
  }

  // ------------------------------------------------------------------- ledger

  /** The frame a segment was opened for, and how many frames were written before. */
  datatype Opening = Opening(at: timestamp, key: bool, tables: seq<byte>, from: nat)

  /** Frames `from` to `to`, the time the part starts at and how long it lasts. */
  datatype PartSpan = PartSpan(from: nat, to: nat, start: timestamp, duration: nat)

  datatype Span = Span(opening: Opening, to: nat, duration: nat, flagged: bool, parts: seq<PartSpan>)

  datatype Ledger = Ledger(
    spans: seq<Span>,         // the segments published
    open: Option<Opening>,
    parts: seq<PartSpan>,     // parts of the open segment
    partFrom: nat,
    partStart: timestamp,
    flag: bool                // the next segment is a discontinuity
  )

  /** The frames since the last part make a part, if it is long enough or is forced. */
  function EndPart(c: Config, l: Ledger, count: nat, at: timestamp, force: bool): Ledger {
    if c.partTargetMs > 0 && l.partFrom < count && (force || at - l.partStart >= c.partTargetMs)
    then l.(parts := l.parts + [PartSpan(l.partFrom, count, l.partStart, AtLeastZero(at - l.partStart))],
            partFrom := count, partStart := at)
    else l
  }

  /** A segment without frames leaves no trace; one with frames is published. */
  function Close(c: Config, l: Ledger, count: nat, lastTs: timestamp): Ledger {
    if l.open.None? || l.open.value.from >= count then l.(open := None)
    else
      var e := EndPart(c, l, count, lastTs, true);
      e.(open := None, flag := false,
         spans := l.spans + [Span(l.open.value, count, AtLeastZero(lastTs - l.open.value.at), l.flag, e.parts)])
  }

  function Interrupt(c: Config, l: Ledger, count: nat, lastTs: timestamp): Ledger {
    Close(c, l, count, lastTs).(flag := true)
  }

  predicate JumpsTo(c: Config, r: Reception, at: timestamp) {
    r.haveLast && (at - r.lastTs > c.thresholdMs || r.lastTs - at > c.thresholdMs)
  }

  /** The octets of the segment opened by `o`, given the frames written. */
  function SegmentBytes(o: Opening, written: seq<Sample>): seq<byte>
    requires o.from <= |written|
  {
    o.tables + Packets(written[o.from..])
  }

  /** What a video frame does before it is written. */
  function MakeRoom(c: Config, l: Ledger, r: Reception, m: Message): Ledger
    requires m.VideoFrame? && (l.open.Some? ==> l.open.value.from <= |r.written|)
  {
    var n := |r.written|;
    var u :=
      if JumpsTo(c, r, m.at) then Interrupt(c, l, n, r.lastTs)
      else if l.open.None? then l
      else if m.key && m.at - l.open.value.at >= c.targetMs then Close(c, l, n, r.lastTs)
      else if |SegmentBytes(l.open.value, r.written)| >= c.maxBytes || m.at - l.open.value.at >= c.maxMs
      then Interrupt(c, l, n, r.lastTs)
      else l;
    if u.open.Some? then u
    else u.(open := Some(Opening(m.at, m.key, m.tables, n)), parts := [], partFrom := n, partStart := m.at)
  }

  function Enter(c: Config, l: Ledger, r: Reception, m: Message): Ledger
    requires l.open.Some? ==> l.open.value.from <= |r.written|
  {
    var n := |r.written|;
    match m
    case VideoHeader(video) =>
      if !r.finalized && r.video.Some? && r.video.value != video then Interrupt(c, l, n, r.lastTs) else l
    case AudioHeader(audio) =>
      if !r.finalized && r.audio.Some? && r.audio.value != audio then Interrupt(c, l, n, r.lastTs) else l
    case VideoFrame(at, _, _, packets) =>
      if r.finalized || r.video.None? then l
      else if packets.None? then MakeRoom(c, l, r, m)
      else EndPart(c, MakeRoom(c, l, r, m), n + 1, at, false)
    case AudioFrame(at, _) =>
      if r.finalized || r.audio.None? || l.open.None? then l else EndPart(c, l, n + 1, at, false)
    case Reconnect => Interrupt(c, l, n, r.lastTs)
    case MediaGap => Interrupt(c, l, n, r.lastTs)
    case Finalize => if r.finalized then l else Close(c, l, n, r.lastTs)
  }

  /** Where the parts of the open segment end, and where it begins. */
  predicate Placed(l: Ledger, count: nat) {
    && l.partFrom <= count
    && (l.open.Some? ==> l.open.value.from <= l.partFrom && (l.parts == [] ==> l.partFrom == l.open.value.from))
  }

  lemma RoomPlaced(c: Config, l: Ledger, r: Reception, m: Message)
    requires Placed(l, |r.written|) && m.VideoFrame?
    ensures Placed(MakeRoom(c, l, r, m), |r.written|) && MakeRoom(c, l, r, m).open.Some?
  {
    hide SegmentBytes, JumpsTo;
  }

  lemma PlacedKept(c: Config, l: Ledger, r: Reception, m: Message)
    requires Placed(l, |r.written|) && (l.open.Some? <==> r.open)
    ensures Placed(Enter(c, l, r, m), |Receive(r, m).written|)
    ensures Enter(c, l, r, m).open.Some? <==> Receive(r, m).open
  {
    hide MakeRoom;
    if m.VideoFrame? {
      RoomPlaced(c, l, r, m);
    }
  }

  function Booked(c: Config, messages: seq<Message>): (l: Ledger)
    ensures Placed(l, |Received(messages).written|) && (l.open.Some? <==> Received(messages).open)
  {
    if messages == [] then Ledger([], None, [], 0, 0, false) else
      var before, m := messages[..|messages| - 1], messages[|messages| - 1];
      PlacedKept(c, Booked(c, before), Received(before), m);
      Enter(c, Booked(c, before), Received(before), m)
  }

  // --------------------------------------------------- what the ledger means

  /** The segment's tables come first in its first part. */
  function PartOf(c: Config, written: seq<Sample>, o: Opening, sequence: nat, index: nat, p: PartSpan): Part
    requires p.from < p.to <= |written|
  {
    Part(sequence, index, PartName(c.prefix, sequence, index, c.suffix),
         (if index == 0 then o.tables else []) + Packets(written[p.from..p.to]), p.duration, written[p.from].key)
  }

  ghost predicate PartsWithin(parts: seq<PartSpan>, count: nat) {
    forall j | 0 <= j < |parts| :: parts[j].from < parts[j].to <= count
  }

  function PartsOf(c: Config, written: seq<Sample>, o: Opening, sequence: nat, parts: seq<PartSpan>): (r: seq<Part>)
    requires PartsWithin(parts, |written|)
  {
    if parts == [] then [] else
      var n := |parts| - 1;
      PartsOf(c, written, o, sequence, parts[..n]) + [PartOf(c, written, o, sequence, n, parts[n])]
  }

  /** Length of the tables and frames up to and with the first keyframe, or zero. */
  function KeyPrefix(o: Opening, samples: seq<Sample>): nat {
    if samples == [] then 0 else
      var before, n := KeyPrefix(o, samples[..|samples| - 1]), |samples| - 1;
      if before == 0 && samples[n].key then |o.tables| + |Packets(samples)| else before
  }

  ghost predicate SpanWithin(span: Span, count: nat) {
    span.opening.from < span.to <= count && PartsWithin(span.parts, span.to)
  }

  /** The segment a span stands for. */
  function SegmentOf(c: Config, written: seq<Sample>, index: nat, span: Span): Segment
    requires SpanWithin(span, |written|)
  {
    var o, n := span.opening, c.initialSequence + index;
    var samples := written[o.from..span.to];
    PartsStay(span.parts, span.to, |written|);
    Segment(n, SegmentName(c.prefix, n, c.suffix), o.tables + Packets(samples), span.duration, span.flagged,
            PartsOf(c, written, o, n, span.parts), None, KeyPrefix(o, samples))
  }

  lemma PartsStay(parts: seq<PartSpan>, count: nat, more: nat)
    requires PartsWithin(parts, count) && count <= more
    ensures PartsWithin(parts, more)
  {
  }

  ghost predicate SpansWithin(spans: seq<Span>, count: nat) {
    forall k | 0 <= k < |spans| :: SpanWithin(spans[k], count)
  }

  function SegmentsOf(c: Config, written: seq<Sample>, spans: seq<Span>): (r: seq<Segment>)
    requires SpansWithin(spans, |written|)
  {
    if spans == [] then [] else
      var n := |spans| - 1;
      SegmentsOf(c, written, spans[..n]) + [SegmentOf(c, written, n, spans[n])]
  }

  /** The segments among the callbacks. */
  function Segments(output: seq<Output>): seq<Segment> {
    if output == [] then [] else
      var before, item := Segments(output[..|output| - 1]), output[|output| - 1];
      if item.SegmentOut? then before + [item.segment] else before
  }

  // --------------------------------------------------------------- agreement

  /** The state has received what the ledger's reception says. */
  predicate SameReception(s: State, r: Reception) {
    && s.videoConfig == r.video && s.audioConfig == r.audio && s.finalized == r.finalized
    && s.acc.segmentOpen == r.open && s.clock.lastTs == r.lastTs && s.clock.haveLast == r.haveLast
  }

  /** Every write appended something. */
  ghost predicate Filled(written: seq<Sample>) {
    forall i | 0 <= i < |written| :: |written[i].packets| >= PACKET
  }

  /** Where the open part begins in the buffer. */
  function Offset(l: Ledger, written: seq<Sample>): nat
    requires l.open.Some? && l.open.value.from <= l.partFrom <= |written|
  {
    if l.parts == [] then 0 else |l.open.value.tables| + |Packets(written[l.open.value.from..l.partFrom])|
  }

  /** The open segment's buffer is what the ledger says. */
  ghost predicate SameBuffer(c: Config, a: Accumulation, written: seq<Sample>, l: Ledger, sequence: nat) {
    && (a.segmentOpen <==> l.open.Some?)
    && (l.open.Some? ==>
       var o := l.open.value;
       && |o.tables| == 2 * PACKET && Placed(l, |written|) && PartsWithin(l.parts, |written|)
       && a.current == SegmentBytes(o, written) && a.segmentStart == o.at
       && a.partStart == l.partStart && a.partIndex == |l.parts| && a.partOffset == Offset(l, written)
       && (a.partHasMedia <==> l.partFrom < |written|)
       && (a.partIndependent <==> l.partFrom < |written| && written[l.partFrom].key)
       && a.openParts == PartsOf(c, written, o, sequence, l.parts)
       && a.iframePrefix == KeyPrefix(o, written[o.from..]))
  }

  /** The state holds what the ledger says. */
  ghost predicate SameBooks(c: Config, s: State, written: seq<Sample>, l: Ledger) {
    && SameBuffer(c, s.acc, written, l, s.nextSequence)
    && s.pending == l.flag && s.nextSequence == c.initialSequence + |l.spans|
    && SpansWithin(l.spans, |written|) && Segments(s.output) == SegmentsOf(c, written, l.spans)
  }

  lemma {:induction false} PacketsJoin(a: seq<Sample>, b: seq<Sample>)
    ensures Packets(a + b) == Packets(a) + Packets(b)
  {
    if b == [] {
      assert a + b == a;
    } else {
      PacketsJoin(a, b[..|b| - 1]);
      assert (a + b)[..|a + b| - 1] == a + b[..|b| - 1];
      Regroup(Packets(a), Packets(b[..|b| - 1]), b[|b| - 1].packets);
    }
  }

  lemma Regroup(a: seq<byte>, b: seq<byte>, x: seq<byte>)
    ensures (a + b) + x == a + (b + x)
  {
  }

  lemma SomePackets(written: seq<Sample>, from: nat)
    requires Filled(written) && from < |written|
    ensures |Packets(written[from..])| >= PACKET
  {
    var samples := written[from..];
    assert samples[|samples| - 1] == written[|written| - 1];
  }

  /** The buffer from the open part's place on. */
  lemma BufferFrom(c: Config, a: Accumulation, written: seq<Sample>, l: Ledger, sequence: nat)
    requires SameBuffer(c, a, written, l, sequence) && l.open.Some?
    ensures a.partOffset <= |a.current|
    ensures a.current[a.partOffset..] ==
            (if l.parts == [] then l.open.value.tables else []) + Packets(written[l.partFrom..])
    ensures |a.current| == |l.open.value.tables| + |Packets(written[l.open.value.from..])|
  {
    hide PartsOf, KeyPrefix, Packets;
    var o := l.open.value;
    if l.parts != [] {
      var head, tail := written[o.from..l.partFrom], written[l.partFrom..];
      assert written[o.from..] == head + tail;
      PacketsJoin(head, tail);
      assert a.current == (o.tables + Packets(head)) + Packets(tail);
    }
  }

  lemma {:induction false} PartsOfMore(c: Config, written: seq<Sample>, more: seq<Sample>, o: Opening, sequence: nat,
                                       parts: seq<PartSpan>)
    requires PartsWithin(parts, |written|)
    ensures PartsWithin(parts, |written + more|)
    ensures PartsOf(c, written + more, o, sequence, parts) == PartsOf(c, written, o, sequence, parts)
  {
    hide Packets, PartName;
    if parts != [] {
      var n := |parts| - 1;
      PartsOfMore(c, written, more, o, sequence, parts[..n]);
      assert (written + more)[parts[n].from..parts[n].to] == written[parts[n].from..parts[n].to];
    }
  }

  /** The part rule sees in the buffer what the ledger sees in the frames. */
  lemma DueAgrees(c: Config, a: Accumulation, written: seq<Sample>, l: Ledger, sequence: nat, at: timestamp,
                  force: bool)
    requires SameBuffer(c, a, written, l, sequence) && Filled(written)
    requires l.open.Some? && l.open.value.from < |written|
    ensures PartDue(c, a, at, force) <==>
              c.partTargetMs > 0 && l.partFrom < |written| && (force || at - l.partStart >= c.partTargetMs)
  {
    hide Packets, KeyPrefix, PartsOf, PartsWithin;
    BufferFrom(c, a, written, l, sequence);
    if l.partFrom < |written| {
      SomePackets(written, l.partFrom);
    } else {
      assert written[l.partFrom..] == [];
      NoPackets();
    }
  }

  lemma NoPackets()
    ensures Packets([]) == []
  {
  }

  lemma PartAgrees(c: Config, a: Accumulation, written: seq<Sample>, l: Ledger, sequence: nat, at: timestamp)
    requires SameBuffer(c, a, written, l, sequence)
    requires l.open.Some? && l.partFrom < |written| && a.partOffset <= |a.current|
    ensures NextPart(c, a, sequence, at) ==
            PartOf(c, written, l.open.value, sequence, |l.parts|,
                   PartSpan(l.partFrom, |written|, l.partStart, AtLeastZero(at - l.partStart)))
  {
    hide Packets, KeyPrefix, PartsOf, PartsWithin, PartName, SegmentBytes;
    BufferFrom(c, a, written, l, sequence);
    assert written[l.partFrom..|written|] == written[l.partFrom..];
  }

  lemma OneMorePart(c: Config, written: seq<Sample>, o: Opening, sequence: nat, parts: seq<PartSpan>, p: PartSpan)
    requires PartsWithin(parts, |written|) && p.from < p.to <= |written|
    ensures PartsWithin(parts + [p], |written|)
    ensures PartsOf(c, written, o, sequence, parts + [p]) ==
            PartsOf(c, written, o, sequence, parts) + [PartOf(c, written, o, sequence, |parts|, p)]
  {
    hide PartOf;
    assert (parts + [p])[..|parts|] == parts;
  }

  lemma EndPartAgrees(c: Config, s: State, written: seq<Sample>, l: Ledger, at: timestamp, force: bool)
    requires SameBuffer(c, s.acc, written, l, s.nextSequence) && Filled(written)
    requires l.open.Some? && l.open.value.from < |written|
    ensures SameBuffer(c, ClosePart(c, s, at, force).acc, written, EndPart(c, l, |written|, at, force), s.nextSequence)
    ensures EndPart(c, l, |written|, at, force).open == l.open
  {
    hide Packets, KeyPrefix, PartOf, NextPart, PartDue, SegmentBytes, Filled, PartsOf, PartsWithin;
    DueAgrees(c, s.acc, written, l, s.nextSequence, at, force);
    if PartDue(c, s.acc, at, force) {
      BufferFrom(c, s.acc, written, l, s.nextSequence);
      PartAgrees(c, s.acc, written, l, s.nextSequence, at);
      OneMorePart(c, written, l.open.value, s.nextSequence, l.parts,
                  PartSpan(l.partFrom, |written|, l.partStart, AtLeastZero(at - l.partStart)));
      assert written[l.open.value.from..|written|] == written[l.open.value.from..];
    }
  }

  // ------------------------------------------------------------- the steps

  lemma {:induction false} SegmentsOfMore(c: Config, written: seq<Sample>, more: seq<Sample>, spans: seq<Span>)
    requires SpansWithin(spans, |written|)
    ensures SpansWithin(spans, |written + more|)
    ensures SegmentsOf(c, written + more, spans) == SegmentsOf(c, written, spans)
  {
    hide Packets, KeyPrefix, SegmentName, PartsOf;
    if spans != [] {
      var n := |spans| - 1;
      SegmentsOfMore(c, written, more, spans[..n]);
      var o := spans[n].opening;
      assert (written + more)[o.from..spans[n].to] == written[o.from..spans[n].to];
      PartsStay(spans[n].parts, spans[n].to, |written|);
      PartsOfMore(c, written, more, o, c.initialSequence + n, spans[n].parts);
    }
  }

  /** A frame is written. */
  lemma WriteAgrees(c: Config, a: Accumulation, written: seq<Sample>, l: Ledger, sequence: nat, frame: Frame, x: Sample)
    requires SameBuffer(c, a, written, l, sequence) && l.open.Some? && |x.packets| >= PACKET
    requires x.key <==> frame == Video(true)
    ensures SameBuffer(c, AddFrame(a, frame, x.packets), written + [x], l, sequence)
  {
    hide Packets, KeyPrefix, PartsOf, PartsWithin;
    var o, after := l.open.value, written + [x];
    assert after[o.from..] == written[o.from..] + [x];
    assert after[o.from..l.partFrom] == written[o.from..l.partFrom];
    MorePackets(written[o.from..], x);
    MorePrefix(o, written[o.from..], x);
    PartsOfMore(c, written, [x], o, sequence, l.parts);
    BufferFrom(c, a, written, l, sequence);
    assert a.current + x.packets == o.tables + (Packets(written[o.from..]) + x.packets);
  }

  lemma MorePackets(samples: seq<Sample>, x: Sample)
    ensures Packets(samples + [x]) == Packets(samples) + x.packets
  {
    assert (samples + [x])[..|samples|] == samples;
  }

  lemma MorePrefix(o: Opening, samples: seq<Sample>, x: Sample)
    ensures KeyPrefix(o, samples + [x]) ==
            if KeyPrefix(o, samples) == 0 && x.key then |o.tables| + |Packets(samples + [x])| else KeyPrefix(o, samples)
  {
    assert (samples + [x])[..|samples|] == samples;
  }

  /** flush_segment publishes what the ledger closes. */
  lemma CloseAgrees(c: Config, s: State, written: seq<Sample>, l: Ledger)
    requires SameBooks(c, s, written, l) && Filled(written)
    ensures SameBooks(c, Flush(c, s), written, Close(c, l, |written|, s.clock.lastTs))
  {
    hide Packets, KeyPrefix, PartsOf, SegmentsOf, Segments, SegmentName, ClosePart, EndPart, SegmentBytes;
    if l.open.Some? {
      BufferFrom(c, s.acc, written, l, s.nextSequence);
      if l.open.value.from < |written| {
        SomePackets(written, l.open.value.from);
        FlushedAgrees(c, s, written, l);
      } else {
        assert written[l.open.value.from..] == [];
        NoPackets();
      }
    }
  }

  lemma FlushedAgrees(c: Config, s: State, written: seq<Sample>, l: Ledger)
    requires SameBooks(c, s, written, l) && Filled(written)
    requires l.open.Some? && l.open.value.from < |written| && |s.acc.current| > 2 * PACKET
    ensures SameBooks(c, Flush(c, s), written, Close(c, l, |written|, s.clock.lastTs))
  {
    hide Packets, KeyPrefix, PartsOf, SegmentsOf, Segments, SegmentName, ClosePart, EndPart, SegmentBytes, SegmentOf,
         NextSegment;
    var t, e := ClosePart(c, s, s.clock.lastTs, true), EndPart(c, l, |written|, s.clock.lastTs, true);
    var r := Close(c, l, |written|, s.clock.lastTs);
    EndPartAgrees(c, s, written, l, s.clock.lastTs, true);
    PartsOnly(c, s, s.clock.lastTs, true);
    OnlyParts(c, l, |written|, s.clock.lastTs, true);
    assert r.spans[..|l.spans|] == l.spans;
    SegmentAgrees(c, t, written, e);
    OneMoreSegment(t.output, NextSegment(c, t), t.acc.frames);
    OneMoreSpan(c, written, l.spans, r.spans[|l.spans|]);
  }

  /** Closing a part publishes no segment and moves nothing but the part. */
  lemma PartsOnly(c: Config, s: State, at: timestamp, force: bool)
    ensures var t := ClosePart(c, s, at, force);
            && Segments(t.output) == Segments(s.output) && t == s.(acc := t.acc, output := t.output)
            && t.acc.segmentOpen == s.acc.segmentOpen && t.acc.current == s.acc.current
  {
    var t := ClosePart(c, s, at, force);
    if t.output != s.output {
      assert t.output[..|s.output|] == s.output;
    }
  }

  lemma OnlyParts(c: Config, l: Ledger, count: nat, at: timestamp, force: bool)
    ensures var e := EndPart(c, l, count, at, force);
            e == l.(parts := e.parts, partFrom := e.partFrom, partStart := e.partStart)
  {
  }

  lemma OneMoreSegment(output: seq<Output>, segment: Segment, frames: seq<Frame>)
    ensures Segments(output + [SegmentOut(segment, frames)]) == Segments(output) + [segment]
  {
    assert (output + [SegmentOut(segment, frames)])[..|output|] == output;
  }

  lemma OneMoreSpan(c: Config, written: seq<Sample>, spans: seq<Span>, span: Span)
    requires SpansWithin(spans, |written|) && SpanWithin(span, |written|)
    ensures SpansWithin(spans + [span], |written|)
    ensures SegmentsOf(c, written, spans + [span]) ==
            SegmentsOf(c, written, spans) + [SegmentOf(c, written, |spans|, span)]
  {
    hide SegmentOf;
    assert (spans + [span])[..|spans|] == spans;
  }

  /** The segment flushed is the one the ledger's span stands for. */
  lemma SegmentAgrees(c: Config, t: State, written: seq<Sample>, e: Ledger)
    requires SameBuffer(c, t.acc, written, e, t.nextSequence)
    requires e.open.Some? && e.open.value.from < |written|
    requires t.pending == e.flag && t.nextSequence == c.initialSequence + |e.spans|
    ensures var span := Span(e.open.value, |written|, AtLeastZero(t.clock.lastTs - e.open.value.at), e.flag, e.parts);
            SpanWithin(span, |written|) && NextSegment(c, t) == SegmentOf(c, written, |e.spans|, span)
  {
    hide Packets, KeyPrefix, PartsOf, SegmentName;
    assert written[e.open.value.from..|written|] == written[e.open.value.from..];
  }

  lemma InterruptAgrees(c: Config, s: State, written: seq<Sample>, l: Ledger)
    requires SameBooks(c, s, written, l) && Filled(written)
    ensures SameBooks(c, Break(c, s), written, Interrupt(c, l, |written|, s.clock.lastTs))
    ensures !Break(c, s).acc.segmentOpen
  {
    hide Flush, Close, SegmentsOf, Segments;
    CloseAgrees(c, s, written, l);
    FlushGrows(c, s);
  }

  /** A segment opened now. */
  lemma OpenAgrees(c: Config, s: State, written: seq<Sample>, l: Ledger, at: timestamp, key: bool, tables: seq<byte>)
    requires SameBooks(c, s, written, l) && l.open.None? && |tables| == 2 * PACKET
    ensures SameBooks(c, s.(acc := StartSegment(at, tables)), written,
                      l.(open := Some(Opening(at, key, tables, |written|)), parts := [], partFrom := |written|,
                         partStart := at))
  {
    hide SegmentsOf, Segments;
    assert written[|written|..] == [];
  }

  /** The cut rules see in the state what the ledger sees. */
  lemma RoomAgrees(c: Config, s: State, r: Reception, l: Ledger, m: Message)
    requires SameReception(s, r) && SameBooks(c, s, r.written, l) && Filled(r.written)
    requires Placed(l, |r.written|) && m.VideoFrame? && |m.tables| == 2 * PACKET
    ensures SameBooks(c, Cut(c, s, m.at, m.key, m.tables), r.written, MakeRoom(c, l, r, m))
  {
    hide Flush, Close, Break, Interrupt, SegmentsOf, Segments, StartSegment, PartsOf, KeyPrefix, Packets, Filled,
         SegmentBytes;
    CloseAgrees(c, s, r.written, l);
    InterruptAgrees(c, s, r.written, l);
    FlushGrows(c, s);
    var v := CloseIfDue(c, AfterJump(c, s, m.at), m.at, m.key);
    if v.acc.segmentOpen {
      assert v == s;
    } else {
      var u := if JumpsTo(c, r, m.at) then Interrupt(c, l, |r.written|, r.lastTs)
               else if l.open.None? then l
               else if m.key && m.at - l.open.value.at >= c.targetMs then Close(c, l, |r.written|, r.lastTs)
               else Interrupt(c, l, |r.written|, r.lastTs);
      assert SameBooks(c, v, r.written, u);
      OpenAgrees(c, v, r.written, u, m.at, m.key, m.tables);
    }
  }

  /** A frame is written, and closes a part if it is time. */
  lemma FrameAgrees(c: Config, s: State, written: seq<Sample>, l: Ledger, frame: Frame, x: Sample, clock: Clock)
    requires SameBooks(c, s, written, l) && Filled(written) && l.open.Some? && |x.packets| >= PACKET
    requires x.key <==> frame == Video(true)
    ensures Filled(written + [x])
    ensures SameBooks(c, ClosePart(c, s.(acc := AddFrame(s.acc, frame, x.packets), clock := clock), x.at, false),
                      written + [x], EndPart(c, l, |written| + 1, x.at, false))
  {
    hide SegmentsOf, Segments, PartsOf, KeyPrefix, Packets, AddFrame, ClosePart, EndPart, SegmentBytes, SameBuffer;
    OpenPlaced(c, s.acc, written, l, s.nextSequence);
    var w := s.(acc := AddFrame(s.acc, frame, x.packets), clock := clock);
    WriteAgrees(c, s.acc, written, l, s.nextSequence, frame, x);
    EndPartAgrees(c, w, written + [x], l, x.at, false);
    PartsOnly(c, w, x.at, false);
    OnlyParts(c, l, |written| + 1, x.at, false);
    SegmentsOfMore(c, written, [x], l.spans);
  }

  lemma OpenPlaced(c: Config, a: Accumulation, written: seq<Sample>, l: Ledger, sequence: nat)
    requires SameBuffer(c, a, written, l, sequence) && l.open.Some?
    ensures l.open.value.from <= |written|
  {
  }

  lemma VideoAgrees(c: Config, s: State, r: Reception, l: Ledger, m: Message)
    requires SameReception(s, r) && SameBooks(c, s, r.written, l) && Filled(r.written) && Muxed(m)
    requires Placed(l, |r.written|) && m.VideoFrame? && Accepted(s, m)
    ensures SameBooks(c, Apply(c, s, m), Receive(r, m).written, Enter(c, l, r, m)) && Filled(Receive(r, m).written)
  {
    hide SameBooks, Cut, MakeRoom, ClosePart, EndPart, AddFrame, To90k, Filled;
    RoomAgrees(c, s, r, l, m);
    RoomPlaced(c, l, r, m);
    if m.packets.Some? {
      var u := Cut(c, s, m.at, m.key, m.tables);
      var x := Sample(m.at, true, m.key, m.packets.value);
      FrameAgrees(c, u, r.written, MakeRoom(c, l, r, m), Video(m.key), x,
                  Tick(u.clock, m.at, CutsTimeline(c, s.clock, m.at)));
    }
  }

  lemma AudioAgrees(c: Config, s: State, r: Reception, l: Ledger, m: Message)
    requires SameReception(s, r) && SameBooks(c, s, r.written, l) && Filled(r.written) && Muxed(m)
    requires l.open.Some? <==> r.open
    requires Placed(l, |r.written|) && m.AudioFrame?
    ensures SameBooks(c, Apply(c, s, m), Receive(r, m).written, Enter(c, l, r, m)) && Filled(Receive(r, m).written)
  {
    hide SameBooks, ClosePart, EndPart, AddFrame, Filled, Placed;
    if !s.finalized && s.audioConfig.Some? && s.acc.segmentOpen {
      FrameAgrees(c, s, r.written, l, Audio, Sample(m.at, false, false, m.sound), WriteAudio(s, m.at, m.sound).clock);
    }
  }

  lemma BooksIgnore(c: Config, s: State, t: State, written: seq<Sample>, l: Ledger)
    requires SameBooks(c, s, written, l)
    requires t == s.(videoConfig := t.videoConfig, audioConfig := t.audioConfig, clock := t.clock,
                     finalized := t.finalized)
    ensures SameBooks(c, t, written, l)
  {
    hide SameBuffer, Segments, SegmentsOf;
  }

  lemma StepAgrees(c: Config, s: State, r: Reception, l: Ledger, m: Message)
    requires SameReception(s, r) && SameBooks(c, s, r.written, l) && Filled(r.written) && Muxed(m)
    requires Placed(l, |r.written|) && (l.open.Some? <==> r.open)
    ensures SameBooks(c, Apply(c, s, m), Receive(r, m).written, Enter(c, l, r, m)) && Filled(Receive(r, m).written)
  {
    hide SameBooks, Flush, Close, Break, Interrupt, Filled, Muxed, Placed, OnFrame, ClosePart, EndPart, MakeRoom;
    CloseAgrees(c, s, r.written, l);
    InterruptAgrees(c, s, r.written, l);
    if m.VideoFrame? {
      if Accepted(s, m) {
        VideoAgrees(c, s, r, l, m);
      }
    } else if m.AudioFrame? {
      AudioAgrees(c, s, r, l, m);
    } else {
      var after, n := Apply(c, s, m), |r.written|;
      BooksIgnore(c, s, s.(videoConfig := after.videoConfig, audioConfig := after.audioConfig), r.written, l);
      var t := if m.Finalize? then Flush(c, s) else Break(c, s);
      BooksIgnore(c, t, t.(videoConfig := after.videoConfig, audioConfig := after.audioConfig, clock := after.clock,
                           finalized := after.finalized),
                  r.written, if m.Finalize? then Close(c, l, n, r.lastTs) else Interrupt(c, l, n, r.lastTs));
    }
  }

  lemma CutKeepsReception(c: Config, s: State, at: timestamp, key: bool, tables: seq<byte>)
    ensures var t := Cut(c, s, at, key, tables);
            && t.videoConfig == s.videoConfig && t.audioConfig == s.audioConfig && t.finalized == s.finalized
            && t.acc.segmentOpen && t.clock == s.clock.(base := t.clock.base)
  {
    hide Flush;
    FlushKeepsClock(c, s);
    FlushKeepsAll(c, s);
  }

  lemma VideoReception(c: Config, s: State, r: Reception, m: Message)
    requires SameReception(s, r) && Accepted(s, m)
    ensures SameReception(Apply(c, s, m), Receive(r, m))
  {
    hide Cut, ClosePart, To90k;
    CutKeepsReception(c, s, m.at, m.key, m.tables);
    if m.packets.Some? {
      var u := Cut(c, s, m.at, m.key, m.tables);
      PartsOnly(c, WriteVideo(u, m.at, m.key, m.packets.value, CutsTimeline(c, s.clock, m.at)), m.at, false);
    }
  }

  lemma ReceptionStep(c: Config, s: State, r: Reception, m: Message)
    requires SameReception(s, r)
    ensures SameReception(Apply(c, s, m), Receive(r, m))
  {
    hide Flush, ClosePart, OnFrame, Segments;
    FlushKeepsClock(c, s);
    FlushKeepsAll(c, s);
    if m.VideoFrame? {
      if Accepted(s, m) {
        VideoReception(c, s, r, m);
      }
    } else if m.AudioFrame? {
      PartsOnly(c, WriteAudio(s, m.at, m.sound), m.at, false);
    }
  }

  lemma FlushKeepsAll(c: Config, s: State)
    ensures var t := Flush(c, s);
            t.videoConfig == s.videoConfig && t.audioConfig == s.audioConfig && t.finalized == s.finalized
  {
  }

  lemma {:induction false} RunAgrees(c: Config, messages: seq<Message>)
    requires AllMuxed(messages)
    ensures var s, r := Run(c, messages), Received(messages);
            SameReception(s, r) && Filled(r.written) && SameBooks(c, s, r.written, Booked(c, messages))
  {
    hide Apply, Receive, Enter, SameBooks, SameReception, Muxed, Filled, Placed;
    if messages == [] {
      NothingAgrees(c);
    } else {
      var before, m := messages[..|messages| - 1], messages[|messages| - 1];
      RunAgrees(c, before);
      ReceptionStep(c, Run(c, before), Received(before), m);
      BookedPlaced(c, before);
      StepAgrees(c, Run(c, before), Received(before), Booked(c, before), m);
    }
  }

  lemma BookedPlaced(c: Config, messages: seq<Message>)
    ensures Placed(Booked(c, messages), |Received(messages).written|)
    ensures Booked(c, messages).open.Some? <==> Received(messages).open
  {
    hide Booked, Received, Placed;
    var l := Booked(c, messages);
  }

  lemma NothingAgrees(c: Config)
    ensures var s, r := Init(c), Received([]);
            SameReception(s, r) && Filled(r.written) && SameBooks(c, s, r.written, Booked(c, []))
  {
  }

  // ---------------------------------------------------------------- theorems

  /** Over every run the segments published are exactly those of the ledger: the number, the name,
      the tables of the frame that opened it followed by the packets of its frames, the time, the
      flag, the parts and the length of the keyframe prefix; and the buffer of the open segment
      holds its tables and the packets of its frames so far. */
  lemma PublishesTheLedger(c: Config, messages: seq<Message>)
    requires AllMuxed(messages)
    ensures var s, written, l := Run(c, messages), Received(messages).written, Booked(c, messages);
            && SpansWithin(l.spans, |written|) && Segments(s.output) == SegmentsOf(c, written, l.spans)
            && (s.acc.segmentOpen <==> l.open.Some?)
            && (l.open.Some? ==>
                  && l.open.value.from <= |written| && s.acc.current == SegmentBytes(l.open.value, written)
                  && PartsWithin(l.parts, |written|)
                  && s.acc.openParts == PartsOf(c, written, l.open.value, s.nextSequence, l.parts))
  {
    hide Run, Received, Booked, PartsOf, SegmentsOf, Packets, KeyPrefix, Segments;
    RunAgrees(c, messages);
  }
}
