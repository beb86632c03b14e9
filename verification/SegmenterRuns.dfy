/** What the segmenter does with one stream's media, as a function from the messages
    received to the parts and segments published, and what holds over every such run.
    Class `Segmenter` does the same work on its fields. The TS muxer is outside the model:
    a message carries the packets its write would append. */
module SegmenterRuns {
  import opened Prelude
  import opened Media
  import L = LiveEdge

  type timestamp = t: int | 0 <= t < 0x1_0000_0000  // RTMP milliseconds

  const PACKET := 188

  datatype Config = Config(
    targetMs: int,
    maxBytes: nat,
    maxMs: int,
    thresholdMs: int,
    prefix: string,
    suffix: string,
    initialSequence: nat,
    partTargetMs: int  // <= 0: no partial segments
  )

  datatype VideoParams = VideoParams(sps: seq<seq<byte>>, pps: seq<seq<byte>>)
  datatype AudioParams = AudioParams(frequencyIndex: nat, channels: nat, objectType: nat)

  datatype Message =
    | VideoHeader(video: VideoParams)
    | VideoFrame(at: timestamp, key: bool, tables: seq<byte>, packets: Option<seq<byte>>)  // None: not convertible
    | AudioHeader(audio: AudioParams)
    | AudioFrame(at: timestamp, sound: seq<byte>)
    | Reconnect
    | MediaGap
    | Finalize

  /** PAT and PMT are one packet each, and every muxer write appends at least one. */
  predicate Muxed(m: Message) {
    && (m.VideoFrame? ==> |m.tables| == 2 * PACKET && (m.packets.Some? ==> |m.packets.value| >= PACKET))
    && (m.AudioFrame? ==> |m.sound| >= PACKET)
  }

  predicate Converted(m: Message) {
    m.VideoFrame? ==> m.packets.Some?
  }

  /** Trace: a media frame handed to the muxer. */
  datatype Frame = Video(key: bool) | Audio

  /** Trace: the decoding time of a video frame written; `cut` when the frame is the
      first after a detected jump or a reconnect. */
  datatype Stamp = Stamp(dts: nat, cut: bool)

  /** A call of the part or the segment callback, with the frames the bytes hold. */
  datatype Output =
    | PartOut(part: Part, frames: seq<Frame>)
    | SegmentOut(segment: Segment, frames: seq<Frame>)

  /** The bytes of the segment being built, and where its open part begins in them. */
  datatype Accumulation = Accumulation(
    current: seq<byte>,
    segmentOpen: bool,
    segmentStart: timestamp,
    openParts: seq<Part>,
    partOffset: nat,
    partIndex: nat,
    partStart: timestamp,
    partIndependent: bool,
    partHasMedia: bool,
    iframePrefix: nat,
    frames: seq<Frame>,     // trace: frames of the open segment
    partFrames: seq<Frame>  // trace: frames of the open part
  )

  datatype Clock = Clock(
    lastTs: timestamp,
    haveLast: bool,
    base: int,              // timeline_base_ms_
    times: seq<Stamp>,      // trace
    resumed: bool           // trace: a reconnect came after the last of them
  )

  datatype State = State(
    videoConfig: Option<VideoParams>,
    audioConfig: Option<AudioParams>,
    acc: Accumulation,
    clock: Clock,
    pending: bool,          // pending_discontinuity_
    nextSequence: nat,
    finalized: bool,
    output: seq<Output>     // the callbacks made so far
  )

  const NOTHING := Accumulation([], false, 0, [], 0, 0, 0, false, false, 0, [], [])

  function Init(c: Config): State {
    State(None, None, NOTHING, Clock(0, false, 0, [], false), false, c.initialSequence, false, [])
  }

  function AtLeastZero(n: int): nat {
    if n < 0 then 0 else n
  }

  /** to_90k */
  function To90k(base: int, ms: int): nat {
    AtLeastZero(ms + base) * 90
  }

  /** is_discontinuous */
  predicate Jumps(c: Config, k: Clock, at: timestamp) {
    k.haveLast && (at - k.lastTs > c.thresholdMs || k.lastTs - at > c.thresholdMs)
  }

  /** start_segment */
  function StartSegment(at: timestamp, tables: seq<byte>): Accumulation {
    Accumulation(tables, true, at, [], 0, 0, at, false, false, 0, [], [])
  }

  /** Whether maybe_close_part publishes. */
  predicate PartDue(c: Config, a: Accumulation, at: timestamp, force: bool) {
    c.partTargetMs > 0 && a.segmentOpen && |a.current| > a.partOffset && (force || at - a.partStart >= c.partTargetMs)
  }

  function NextPart(c: Config, a: Accumulation, sequence: nat, at: timestamp): Part
    requires a.partOffset <= |a.current|
  {
    Part(sequence, a.partIndex, PartName(c.prefix, sequence, a.partIndex, c.suffix), a.current[a.partOffset..],
         AtLeastZero(at - a.partStart), a.partIndependent)
  }

  /** maybe_close_part */
  function ClosePart(c: Config, s: State, at: timestamp, force: bool): State {
    if !PartDue(c, s.acc, at, force) then s else
      var part := NextPart(c, s.acc, s.nextSequence, at);
      s.(acc := s.acc.(partOffset := |s.acc.current|, partStart := at, partIndex := s.acc.partIndex + 1,
                       partIndependent := false, partHasMedia := false, openParts := s.acc.openParts + [part],
                       partFrames := []),
         output := s.output + [PartOut(part, s.acc.partFrames)])
  }

  function NextSegment(c: Config, s: State): Segment {
    Segment(s.nextSequence, SegmentName(c.prefix, s.nextSequence, c.suffix), s.acc.current,
            AtLeastZero(s.clock.lastTs - s.acc.segmentStart), s.pending, s.acc.openParts, None, s.acc.iframePrefix)
  }

  /** flush_segment */
  function Flush(c: Config, s: State): State {
    if !s.acc.segmentOpen || s.acc.current == [] then s.(acc := s.acc.(segmentOpen := false))
    else if |s.acc.current| <= 2 * PACKET then s.(acc := s.acc.(current := [], segmentOpen := false))
    else
      var t := ClosePart(c, s, s.clock.lastTs, true);
      t.(nextSequence := t.nextSequence + 1, pending := false,
         acc := t.acc.(current := [], openParts := [], partOffset := 0, partIndex := 0, partHasMedia := false,
                       iframePrefix := 0, segmentOpen := false),
         output := t.output + [SegmentOut(NextSegment(c, t), t.acc.frames)])
  }

  /** Every interruption of the media: close what is open, flag what comes next. */
  function Break(c: Config, s: State): State {
    Flush(c, s).(pending := true)
  }

  function BaseAt(c: Config, k: Clock, at: timestamp): int {
    if Jumps(c, k, at) then k.base + k.lastTs - at + 1 else k.base
  }

  /** Before a frame is written: a jump moves the timeline on, a due or forced cut closes
      the segment, and a segment is opened if none is. */
  function Cut(c: Config, s: State, at: timestamp, key: bool, tables: seq<byte>): State {
    var v := CloseIfDue(c, AfterJump(c, s, at), at, key);
    if v.acc.segmentOpen then v else v.(acc := StartSegment(at, tables))
  }

  function AfterJump(c: Config, s: State, at: timestamp): State {
    if Jumps(c, s.clock, at)
    then Break(c, s).(clock := s.clock.(base := s.clock.base + s.clock.lastTs - at + 1)) else s
  }

  function CloseIfDue(c: Config, s: State, at: timestamp, key: bool): State {
    var elapsed := at - s.acc.segmentStart;
    if !s.acc.segmentOpen then s
    else if key && elapsed >= c.targetMs then Flush(c, s)
    else if |s.acc.current| >= c.maxBytes || elapsed >= c.maxMs then Break(c, s)
    else s
  }

  function AddFrame(a: Accumulation, frame: Frame, packets: seq<byte>): Accumulation {
    var key := frame == Video(true);
    a.(partIndependent := a.partIndependent || (key && !a.partHasMedia), current := a.current + packets,
       partHasMedia := true,
       iframePrefix := if key && a.iframePrefix == 0 then |a.current| + |packets| else a.iframePrefix,
       frames := a.frames + [frame], partFrames := a.partFrames + [frame])
  }

  /** Whether a frame written now is the first after a jump or a reconnect. */
  predicate CutsTimeline(c: Config, k: Clock, at: timestamp) {
    Jumps(c, k, at) || (k.resumed && k.times != [])
  }

  function Tick(k: Clock, at: timestamp, cut: bool): Clock {
    Clock(at, true, k.base, k.times + [Stamp(To90k(k.base, at), cut)], false)
  }

  function WriteVideo(s: State, at: timestamp, key: bool, packets: seq<byte>, cut: bool): State {
    s.(acc := AddFrame(s.acc, Video(key), packets), clock := Tick(s.clock, at, cut))
  }

  function WriteAudio(s: State, at: timestamp, packets: seq<byte>): State {
    s.(acc := AddFrame(s.acc, Audio, packets),
       clock := if s.clock.haveLast then s.clock else s.clock.(lastTs := at, haveLast := true))
  }

  /** The message is a video frame the segmenter does not drop. */
  predicate Accepted(s: State, m: Message) {
    m.VideoFrame? && !s.finalized && s.videoConfig.Some?
  }

  function OnFrame(c: Config, s: State, at: timestamp, key: bool, tables: seq<byte>,
                   packets: Option<seq<byte>>): State
  {
    var u := Cut(c, s, at, key, tables);
    if packets.None? then u
    else ClosePart(c, WriteVideo(u, at, key, packets.value, CutsTimeline(c, s.clock, at)), at, false)
  }

  function Apply(c: Config, s: State, m: Message): State {
    match m
    case VideoHeader(video) =>
      if s.finalized then s
      else (if s.videoConfig.Some? && s.videoConfig.value != video then Break(c, s) else s).(videoConfig := Some(video))
    case VideoFrame(at, key, tables, packets) =>
      if !Accepted(s, m) then s else OnFrame(c, s, at, key, tables, packets)
    case AudioHeader(audio) =>
      if s.finalized then s
      else (if s.audioConfig.Some? && s.audioConfig.value != audio then Break(c, s) else s).(audioConfig := Some(audio))
    case AudioFrame(at, sound) =>
      if s.finalized || s.audioConfig.None? || !s.acc.segmentOpen then s
      else ClosePart(c, WriteAudio(s, at, sound), at, false)
    case Reconnect =>
      Break(c, s).(clock := s.clock.(haveLast := false, base := s.clock.base + s.clock.lastTs + 1, resumed := true),
                   videoConfig := None, audioConfig := None)
    case MediaGap => Break(c, s).(videoConfig := None, audioConfig := None)
    case Finalize => if s.finalized then s else Flush(c, s).(finalized := true)
  }

  function Run(c: Config, messages: seq<Message>): State {
    if messages == [] then Init(c) else Apply(c, Run(c, messages[..|messages| - 1]), messages[|messages| - 1])
  }

  ghost predicate AllMuxed(messages: seq<Message>) {
    forall i | 0 <= i < |messages| :: Muxed(messages[i])
  }

  ghost predicate AllConverted(messages: seq<Message>) {
    forall i | 0 <= i < |messages| :: Converted(messages[i])
  }

  // ------------------------------------------------------- what is published

  function Concat(parts: seq<Part>): seq<byte> {
    if parts == [] then [] else Concat(parts[..|parts| - 1]) + parts[|parts| - 1].data
  }

  /** Segments published. */
  function Count(output: seq<Output>): nat {
    if output == [] then 0
    else Count(output[..|output| - 1]) + if output[|output| - 1].SegmentOut? then 1 else 0
  }

  /** Parts published since the last segment. */
  function Pending(output: seq<Output>): seq<Part> {
    if output == [] || output[|output| - 1].SegmentOut? then []
    else Pending(output[..|output| - 1]) + [output[|output| - 1].part]
  }

  /** A part's name, number and place; its frames, of which the first decides whether a
      player may start there. A segment's name and number; its parts are those published
      since the last one, and are its bytes. */
  predicate ItemOk(c: Config, before: seq<Output>, item: Output) {
    var n := c.initialSequence + Count(before);
    && item.frames != []
    && match item
       case PartOut(p, frames) =>
         && c.partTargetMs > 0
         && p.segmentSequence == n && p.index == |Pending(before)| && p.data != []
         && p.name == PartName(c.prefix, n, p.index, c.suffix)
         && (p.independent <==> frames[0] == Video(true))
       case SegmentOut(segment, _) =>
         && segment.sequence == n && segment.name == SegmentName(c.prefix, n, c.suffix)
         && segment.parts == Pending(before)
         && (c.partTargetMs > 0 ==> Concat(segment.parts) == segment.data)
         && (c.partTargetMs <= 0 ==> segment.parts == [])
  }

  ghost predicate OutputOk(c: Config, output: seq<Output>) {
    forall i | 0 <= i < |output| :: ItemOk(c, output[..i], output[i])
  }

  lemma OneMoreItem(c: Config, output: seq<Output>, item: Output)
    requires OutputOk(c, output) && ItemOk(c, output, item)
    ensures OutputOk(c, output + [item])
    ensures Count(output + [item]) == Count(output) + if item.SegmentOut? then 1 else 0
    ensures Pending(output + [item]) == if item.SegmentOut? then [] else Pending(output) + [item.part]
  {
    var after := output + [item];
    forall i | 0 <= i < |after|
      ensures ItemOk(c, after[..i], after[i])
    {
      assert after[..i] == output[..i];
      if i == |output| {
        assert output[..i] == output;
      }
    }
    assert after[..|output|] == output;
  }

  // --------------------------------------------------------------- invariant

  /** The open segment's buffer, parts and frames agree. */
  ghost predicate BufferOk(c: Config, s: State) {
    if !s.acc.segmentOpen then s.acc.current == [] && s.acc.openParts == []
    else
      && 2 * PACKET <= |s.acc.current| && s.acc.partOffset <= |s.acc.current|
      && Concat(s.acc.openParts) == s.acc.current[..s.acc.partOffset]
      && s.acc.partIndex == |s.acc.openParts|
      && (s.acc.frames != [] <==> |s.acc.current| > 2 * PACKET)
      && (s.acc.openParts != [] ==> s.acc.frames != [])
      && (s.acc.openParts == [] ==> s.acc.partFrames == s.acc.frames)
      && (s.acc.openParts != [] ==> (s.acc.partFrames != [] <==> |s.acc.current| > s.acc.partOffset))
      && (s.acc.partHasMedia <==> s.acc.partFrames != [])
      && (s.acc.partIndependent <==> s.acc.partFrames != [] && s.acc.partFrames[0] == Video(true))
      && (c.partTargetMs <= 0 ==> s.acc.openParts == [])
  }

  ghost predicate PublishedOk(c: Config, s: State) {
    && OutputOk(c, s.output)
    && s.nextSequence == c.initialSequence + Count(s.output)
    && Pending(s.output) == s.acc.openParts
  }

  ghost predicate Inv(c: Config, s: State) {
    BufferOk(c, s) && PublishedOk(c, s)
  }

  lemma PartItem(c: Config, s: State, at: timestamp, force: bool)
    requires Inv(c, s) && PartDue(c, s.acc, at, force) && s.acc.frames != []
    ensures var t := ClosePart(c, s, at, force);
            |t.output| == |s.output| + 1 && t.output == s.output + [t.output[|s.output|]] &&
            ItemOk(c, s.output, t.output[|s.output|])
  {
    hide OutputOk, Count, Pending, Concat;
  }

  lemma PartBuffer(c: Config, s: State, at: timestamp, force: bool)
    requires BufferOk(c, s) && PartDue(c, s.acc, at, force) && s.acc.frames != []
    ensures BufferOk(c, ClosePart(c, s, at, force))
  {
    var t := ClosePart(c, s, at, force);
    assert t.acc.openParts[..|s.acc.openParts|] == s.acc.openParts;
    assert s.acc.current == s.acc.current[..s.acc.partOffset] + s.acc.current[s.acc.partOffset..];
    assert s.acc.current[..|s.acc.current|] == s.acc.current;
  }

  lemma ClosePartKeeps(c: Config, s: State, at: timestamp, force: bool)
    requires Inv(c, s) && (s.acc.segmentOpen ==> s.acc.frames != [])
    ensures Inv(c, ClosePart(c, s, at, force))
    ensures force && c.partTargetMs > 0 && s.acc.segmentOpen ==>
              Concat(ClosePart(c, s, at, force).acc.openParts) == s.acc.current
  {
    hide OutputOk, ItemOk, Concat, Count, Pending;
    var t := ClosePart(c, s, at, force);
    assert s.acc.current[..|s.acc.current|] == s.acc.current;
    if PartDue(c, s.acc, at, force) {
      PartItem(c, s, at, force);
      PartBuffer(c, s, at, force);
      OneMoreItem(c, s.output, t.output[|s.output|]);
    }
  }

  lemma FlushKeeps(c: Config, s: State)
    requires Inv(c, s)
    ensures Inv(c, Flush(c, s)) && !Flush(c, s).acc.segmentOpen
  {
    hide ItemOk, OutputOk, Count, Pending, Concat, NextSegment, NextPart;
    if s.acc.segmentOpen && |s.acc.current| > 2 * PACKET {
      ClosePartKeeps(c, s, s.clock.lastTs, true);
      FlushedItem(c, s);
      var t := ClosePart(c, s, s.clock.lastTs, true);
      OneMoreItem(c, t.output, Flush(c, s).output[|t.output|]);
    }
  }

  lemma FlushedItem(c: Config, s: State)
    requires Inv(c, s) && s.acc.segmentOpen && |s.acc.current| > 2 * PACKET
    ensures var t := ClosePart(c, s, s.clock.lastTs, true);
            Flush(c, s).output[..|t.output|] == t.output && |Flush(c, s).output| == |t.output| + 1 &&
            ItemOk(c, t.output, Flush(c, s).output[|t.output|])
  {
    hide OutputOk, Count, Pending, Concat;
    ClosePartKeeps(c, s, s.clock.lastTs, true);
  }

  lemma CutKeeps(c: Config, s: State, at: timestamp, key: bool, tables: seq<byte>)
    requires Inv(c, s) && |tables| == 2 * PACKET
    ensures Inv(c, Cut(c, s, at, key, tables)) && Cut(c, s, at, key, tables).acc.segmentOpen
  {
    hide Flush, OutputOk, Count, Pending;
    FlushKeeps(c, s);
    if Jumps(c, s.clock, at) {
    } else if s.acc.segmentOpen {
    }
    assert Concat([]) == [];
  }

  lemma FrameKeepsInv(c: Config, s: State, at: timestamp, key: bool, tables: seq<byte>, packets: Option<seq<byte>>)
    requires Inv(c, s) && Muxed(VideoFrame(at, key, tables, packets))
    ensures Inv(c, OnFrame(c, s, at, key, tables, packets))
  {
    hide Cut, ClosePart, OutputOk, Count, Pending, Concat, To90k;
    CutKeeps(c, s, at, key, tables);
    if packets.Some? {
      var u := Cut(c, s, at, key, tables);
      var w := WriteVideo(u, at, key, packets.value, CutsTimeline(c, s.clock, at));
      assert w.acc.current[..w.acc.partOffset] == u.acc.current[..u.acc.partOffset];
      ClosePartKeeps(c, w, at, false);
    }
  }

  lemma StepKeepsInv(c: Config, s: State, m: Message)
    requires Inv(c, s) && Muxed(m)
    ensures Inv(c, Apply(c, s, m))
  {
    hide Flush, OnFrame, ClosePart, OutputOk, Count, Pending, Concat;
    FlushKeeps(c, s);
    match m
    case VideoFrame(at, key, tables, packets) =>
      FrameKeepsInv(c, s, at, key, tables, packets);
    case AudioFrame(at, sound) =>
      if s.acc.segmentOpen {
        var w := WriteAudio(s, at, sound);
        assert w.acc.current[..w.acc.partOffset] == s.acc.current[..s.acc.partOffset];
        ClosePartKeeps(c, w, at, false);
      }
    case _ =>
  }

  lemma {:induction false} RunKeepsInv(c: Config, messages: seq<Message>)
    requires AllMuxed(messages)
    ensures Inv(c, Run(c, messages))
  {
    hide Apply, BufferOk;
    if messages == [] {
      InitInv(c);
    } else {
      RunKeepsInv(c, messages[..|messages| - 1]);
      StepKeepsInv(c, Run(c, messages[..|messages| - 1]), messages[|messages| - 1]);
    }
  }

  lemma InitInv(c: Config)
    ensures Inv(c, Init(c))
  {
  }

  // ------------------------------------------------------------------- names

  function Name(item: Output): string {
    match item
    case PartOut(p, _) => p.name
    case SegmentOut(segment, _) => segment.name
  }

  /** Between two outputs the segment count cannot fall, and while it stands still the
      parts pile up. */
  lemma {:induction false} Progress(output: seq<Output>, i: nat, j: nat)
    requires i < j <= |output|
    ensures Count(output[..i]) + (if output[i].SegmentOut? then 1 else 0) <= Count(output[..j])
    ensures Count(output[..i]) == Count(output[..j]) ==> |Pending(output[..i])| < |Pending(output[..j])|
    decreases j
  {
    assert output[..j][..j - 1] == output[..j - 1];
    if i < j - 1 {
      Progress(output, i, j - 1);
    }
  }

  /** No segment or part name is used twice in a run. */
  lemma NamesNeverRepeat(c: Config, messages: seq<Message>, i: nat, j: nat)
    requires AllMuxed(messages)
    requires i < j < |Run(c, messages).output|
    ensures Name(Run(c, messages).output[i]) != Name(Run(c, messages).output[j])
  {
    hide Run, Count, Pending, Concat, SegmentName, PartName;
    RunKeepsInv(c, messages);
    var output := Run(c, messages).output;
    Progress(output, i, j);
    assert ItemOk(c, output[..i], output[i]) && ItemOk(c, output[..j], output[j]);
    var m, n := c.initialSequence + Count(output[..i]), c.initialSequence + Count(output[..j]);
    var a, b := |Pending(output[..i])|, |Pending(output[..j])|;
    if Name(output[i]) == Name(output[j]) {
      match (output[i], output[j])
      case (PartOut(_, _), PartOut(_, _)) => PartNameInjective(c.prefix, m, a, n, b, c.suffix);
      case (SegmentOut(_, _), SegmentOut(_, _)) => SegmentNameInjective(c.prefix, m, n, c.suffix);
      case (PartOut(_, _), SegmentOut(_, _)) => PartIsNoSegmentName(c.prefix, m, a, n, c.suffix);
      case (SegmentOut(_, _), PartOut(_, _)) => PartIsNoSegmentName(c.prefix, n, b, m, c.suffix);
    }
  }

  /** With parts enabled, the parts published for a segment are its bytes, and a part is
      marked independent exactly when the first media frame in it is a keyframe. */
  lemma PartsMakeTheSegment(c: Config, messages: seq<Message>, i: nat)
    requires AllMuxed(messages) && c.partTargetMs > 0
    requires i < |Run(c, messages).output|
    ensures var output := Run(c, messages).output;
            match output[i]
            case PartOut(p, frames) => p.data != [] && frames != [] && (p.independent <==> frames[0] == Video(true))
            case SegmentOut(segment, _) =>
              segment.parts == Pending(output[..i]) && Concat(Pending(output[..i])) == segment.data
  {
    hide Run;
    RunKeepsInv(c, messages);
    var output := Run(c, messages).output;
    assert ItemOk(c, output[..i], output[i]);
  }

  // --------------------------------------------------------- order of arrival

  function LastOf(parts: seq<Part>): Part
    requires parts != []
  {
    parts[|parts| - 1]
  }

  function EventOf(item: Output): L.Event {
    match item
    case PartOut(p, _) => L.PartAdded(L.Position(p.segmentSequence, p.index))
    case SegmentOut(segment, _) =>
      L.SegmentAdded(L.Position(segment.sequence, if segment.parts == [] then -1 else LastOf(segment.parts).index))
  }

  /** What the callbacks mean to the live edge of the store behind them. */
  function Events(output: seq<Output>): seq<L.Event> {
    if output == [] then [] else Events(output[..|output| - 1]) + [EventOf(output[|output| - 1])]
  }

  ghost predicate EdgeMatches(c: Config, output: seq<Output>) {
    var e := L.EdgeAfter(Events(output));
    var n := c.initialSequence + Count(output);
    && !e.ended
    && (if Pending(output) == [] then e.open == None
        else LastOf(Pending(output)).index == |Pending(output)| - 1 &&
             e.open == Some(L.Position(n, |Pending(output)| - 1)))
    && (if Count(output) == 0 then e.complete == None else e.complete.Some? && e.complete.value.sequence == n - 1)
  }

  lemma EventStep(c: Config, before: seq<Output>, item: Output)
    requires ItemOk(c, before, item) && L.InOrder(Events(before)) && EdgeMatches(c, before)
    ensures L.InOrder(Events(before + [item])) && EdgeMatches(c, before + [item])
  {
    hide Concat, PartName, SegmentName;
    var after := before + [item];
    assert after[..|before|] == before;
    L.OneMoreEvent(Events(before), EventOf(item));
    assert Events(after)[..|Events(before)|] == Events(before);
  }

  lemma PrefixOk(c: Config, output: seq<Output>)
    requires output != [] && OutputOk(c, output)
    ensures OutputOk(c, output[..|output| - 1]) && ItemOk(c, output[..|output| - 1], output[|output| - 1])
  {
    hide ItemOk;
    var before := output[..|output| - 1];
    forall i | 0 <= i < |before|
      ensures ItemOk(c, before[..i], before[i])
    {
      assert before[..i] == output[..i] && ItemOk(c, output[..i], output[i]);
    }
  }

  lemma {:induction false} EventsInOrder(c: Config, output: seq<Output>)
    requires OutputOk(c, output)
    ensures L.InOrder(Events(output)) && EdgeMatches(c, output)
  {
    hide ItemOk;
    if output != [] {
      PrefixOk(c, output);
      EventsInOrder(c, output[..|output| - 1]);
      EventStep(c, output[..|output| - 1], output[|output| - 1]);
      assert output == output[..|output| - 1] + [output[|output| - 1]];
    }
  }

  /** The name the next part must have, if one comes before the segment it belongs to. */
  function NextPartName(c: Config, output: seq<Output>): string {
    PartName(c.prefix, c.initialSequence + Count(output), |Pending(output)|, c.suffix)
  }

  lemma NextPartHasIt(c: Config, output: seq<Output>, p: Part, frames: seq<Frame>)
    requires ItemOk(c, output, PartOut(p, frames))
    ensures p.name == NextPartName(c, output)
  {
  }

  /** The newest open part is numbered by what came before it. */
  lemma NewestPart(c: Config, output: seq<Output>)
    requires OutputOk(c, output) && Pending(output) != []
    ensures LastOf(Pending(output)).segmentSequence == c.initialSequence + Count(output)
    ensures LastOf(Pending(output)).index == |Pending(output)| - 1
  {
    hide Concat, PartName, SegmentName;
    PrefixOk(c, output);
  }

  /** The segmenter is an in-order producer for the store behind it. */
  lemma PublishesInOrder(c: Config, messages: seq<Message>)
    requires AllMuxed(messages)
    ensures L.InOrder(Events(Run(c, messages).output))
  {
    hide Run;
    RunKeepsInv(c, messages);
    EventsInOrder(c, Run(c, messages).output);
  }

  lemma ClosePartGrows(c: Config, s: State, at: timestamp, force: bool)
    ensures s.output <= ClosePart(c, s, at, force).output
  {
  }

  lemma FlushGrows(c: Config, s: State)
    ensures s.output <= Flush(c, s).output && !Flush(c, s).acc.segmentOpen
  {
  }

  lemma FrameGrows(c: Config, s: State, at: timestamp, key: bool, tables: seq<byte>, packets: Option<seq<byte>>)
    ensures s.output <= OnFrame(c, s, at, key, tables, packets).output
  {
    hide Flush, ClosePart, AddFrame, Tick;
    FlushGrows(c, s);
    if packets.Some? {
      var u := Cut(c, s, at, key, tables);
      assert s.output <= u.output;
      ClosePartGrows(c, WriteVideo(u, at, key, packets.value, CutsTimeline(c, s.clock, at)), at, false);
    }
  }

  /** Nothing published is ever taken back. */
  lemma OutputGrows(c: Config, s: State, m: Message)
    ensures s.output <= Apply(c, s, m).output
  {
    hide Flush, OnFrame, ClosePart, AddFrame;
    FlushGrows(c, s);
    if m.AudioFrame? {
      ClosePartGrows(c, WriteAudio(s, m.at, m.sound), m.at, false);
    } else if m.VideoFrame? {
      FrameGrows(c, s, m.at, m.key, m.tables, m.packets);
    }
  }

  // ------------------------------------------------------- segment boundaries

  /** Short enough, and the first ever, or opening on a keyframe, or flagged. */
  predicate GoodSegment(c: Config, before: seq<Output>, item: Output) {
    item.SegmentOut? ==>
      && (c.maxMs > 0 ==> item.segment.duration < c.maxMs)
      && item.frames != []
      && (Count(before) == 0 || item.frames[0] == Video(true) || item.segment.discontinuity)
  }

  ghost predicate GoodOutput(c: Config, output: seq<Output>) {
    forall i | 0 <= i < |output| :: GoodSegment(c, output[..i], output[i])
  }

  /** The segment the next frame goes into may start where it does. */
  predicate GoodStart(s: State, first: Frame) {
    Count(s.output) == 0 || first == Video(true) || s.pending
  }

  ghost predicate ShapeOk(c: Config, s: State) {
    && GoodOutput(c, s.output)
    && (if s.acc.segmentOpen
        then
          && s.clock.haveLast && s.acc.frames != [] && GoodStart(s, s.acc.frames[0])
          && (c.maxMs > 0 ==> s.clock.lastTs - s.acc.segmentStart < c.maxMs)
        else s.finalized || s.pending || Count(s.output) == 0)
  }

  lemma MoreGoodOutput(c: Config, output: seq<Output>, item: Output)
    requires GoodOutput(c, output) && GoodSegment(c, output, item)
    ensures GoodOutput(c, output + [item])
    ensures Count(output + [item]) == Count(output) + if item.SegmentOut? then 1 else 0
  {
    var after := output + [item];
    forall i | 0 <= i < |after|
      ensures GoodSegment(c, after[..i], after[i])
    {
      assert after[..i] == output[..i];
      if i == |output| {
        assert output[..i] == output;
      }
    }
    assert after[..|output|] == output;
  }

  lemma ClosePartShape(c: Config, s: State, at: timestamp, force: bool)
    requires GoodOutput(c, s.output)
    ensures var t := ClosePart(c, s, at, force); GoodOutput(c, t.output) && Count(t.output) == Count(s.output)
  {
    hide GoodOutput, Count;
    if PartDue(c, s.acc, at, force) {
      var t := ClosePart(c, s, at, force);
      MoreGoodOutput(c, s.output, t.output[|s.output|]);
    }
  }

  lemma FlushShape(c: Config, s: State)
    requires ShapeOk(c, s) && BufferOk(c, s)
    ensures var t := Flush(c, s);
            GoodOutput(c, t.output) && !t.acc.segmentOpen && (!s.acc.segmentOpen ==> t == s)
  {
    hide GoodOutput, Count;
    if s.acc.segmentOpen {
      ClosePartShape(c, s, s.clock.lastTs, true);
      var t := ClosePart(c, s, s.clock.lastTs, true);
      MoreGoodOutput(c, t.output, Flush(c, s).output[|t.output|]);
    }
  }

  lemma CutShape(c: Config, s: State, at: timestamp, key: bool, tables: seq<byte>)
    requires ShapeOk(c, s) && BufferOk(c, s) && !s.finalized
    ensures var u := Cut(c, s, at, key, tables);
            && GoodOutput(c, u.output) && u.acc.segmentOpen
            && (if u.acc.frames == [] then GoodStart(u, Video(key)) else GoodStart(u, u.acc.frames[0]))
            && (c.maxMs > 0 ==> at - u.acc.segmentStart < c.maxMs)
  {
    hide Flush, GoodOutput, Count, BufferOk;
    FlushShape(c, s);
  }

  lemma FrameKeepsShape(c: Config, s: State, at: timestamp, key: bool, tables: seq<byte>, packets: seq<byte>)
    requires ShapeOk(c, s) && BufferOk(c, s) && !s.finalized
    ensures ShapeOk(c, OnFrame(c, s, at, key, tables, Some(packets)))
  {
    hide Cut, GoodOutput, Count, BufferOk;
    CutShape(c, s, at, key, tables);
    var u := Cut(c, s, at, key, tables);
    var w := WriteVideo(u, at, key, packets, CutsTimeline(c, s.clock, at));
    ClosePartShape(c, w, at, false);
  }

  lemma StepKeepsShape(c: Config, s: State, m: Message)
    requires ShapeOk(c, s) && BufferOk(c, s) && Converted(m)
    ensures ShapeOk(c, Apply(c, s, m))
  {
    hide Flush, OnFrame, GoodOutput, Count, BufferOk;
    FlushShape(c, s);
    match m
    case VideoFrame(at, key, tables, packets) =>
      if Accepted(s, m) {
        FrameKeepsShape(c, s, at, key, tables, packets.value);
      }
    case AudioFrame(at, sound) =>
      if s.acc.segmentOpen {
        ClosePartShape(c, WriteAudio(s, at, sound), at, false);
      }
    case _ =>
  }

  lemma {:induction false} RunKeepsShape(c: Config, messages: seq<Message>)
    requires AllMuxed(messages) && AllConverted(messages)
    ensures ShapeOk(c, Run(c, messages))
  {
    hide Apply, Inv;
    if messages != [] {
      var before := messages[..|messages| - 1];
      RunKeepsShape(c, before);
      RunKeepsInv(c, before);
      BufferOfInv(c, Run(c, before));
      StepKeepsShape(c, Run(c, before), messages[|messages| - 1]);
    }
  }

  lemma BufferOfInv(c: Config, s: State)
    requires Inv(c, s)
    ensures BufferOk(c, s)
  {
  }

  /** Over every run whose frames all convert: each published segment is shorter than the
      bound and, apart from the first, opens on a keyframe or carries the flag. */
  lemma SegmentsAreWellCut(c: Config, messages: seq<Message>, i: nat)
    requires AllMuxed(messages) && AllConverted(messages)
    requires i < |Run(c, messages).output| && Run(c, messages).output[i].SegmentOut?
    ensures var output := Run(c, messages).output;
            var segment, frames := output[i].segment, output[i].frames;
            && (c.maxMs > 0 ==> segment.duration < c.maxMs)
            && frames != []
            && (Count(output[..i]) > 0 ==> frames[0] == Video(true) || segment.discontinuity)
  {
    hide Run, Count;
    RunKeepsShape(c, messages);
    var output := Run(c, messages).output;
    assert GoodSegment(c, output[..i], output[i]);
  }

  // ---------------------------------------------------------------- timeline

  /** Where the output clock stands, before clamping. */
  function Position(k: Clock): int {
    if k.haveLast then k.lastTs + k.base else k.base - 1
  }

  function Last(times: seq<Stamp>): nat
    requires times != []
  {
    times[|times| - 1].dts
  }

  /** At a jump or a reconnect the clock moves on, or is still clamped at zero. */
  ghost predicate CutsOk(times: seq<Stamp>) {
    forall i | 0 < i < |times| && times[i].cut ::
      times[i - 1].dts < times[i].dts || times[i - 1].dts == times[i].dts == 0
  }

  ghost predicate TimesOk(k: Clock) {
    && (k.times != [] ==> Last(k.times) <= AtLeastZero(Position(k)) * 90)
    && (k.times != [] && k.resumed ==> Last(k.times) <= AtLeastZero(k.base - 1) * 90)
    && CutsOk(k.times)
  }

  /** No frame at which a jump is detected fails to convert. */
  predicate Tame(c: Config, s: State, m: Message) {
    Accepted(s, m) && m.packets.None? ==> !Jumps(c, s.clock, m.at)
  }

  ghost predicate AllTame(c: Config, messages: seq<Message>) {
    forall i | 0 <= i < |messages| :: Tame(c, Run(c, messages[..i]), messages[i])
  }

  /** A frame within the threshold does not step back. */
  predicate Forward(c: Config, s: State, m: Message) {
    Accepted(s, m) && m.packets.Some? && s.clock.haveLast && !Jumps(c, s.clock, m.at) ==> s.clock.lastTs <= m.at
  }

  ghost predicate AllForward(c: Config, messages: seq<Message>) {
    forall i | 0 <= i < |messages| :: Forward(c, Run(c, messages[..i]), messages[i])
  }

  ghost predicate Monotone(k: Clock) {
    && (forall i | 0 < i < |k.times| :: k.times[i - 1].dts <= k.times[i].dts)
    && (forall i | 0 < i < |k.times| && k.times[i].cut :: k.times[i - 1].dts < k.times[i].dts)
    && (if k.times == [] then k.base >= 0 else Position(k) >= 0 && (k.resumed ==> k.base >= 1))
  }

  predicate SameClock(s: State, t: State) {
    t.clock == s.clock
  }

  lemma FlushKeepsClock(c: Config, s: State)
    ensures SameClock(s, Flush(c, s)) && !Flush(c, s).acc.segmentOpen
  {
    hide ClosePart;
    ClosePartKeepsClock(c, s, s.clock.lastTs, true);
  }

  lemma ClosePartKeepsClock(c: Config, s: State, at: timestamp, force: bool)
    ensures var t := ClosePart(c, s, at, force); SameClock(s, t) && t.acc.segmentOpen == s.acc.segmentOpen
  {
  }

  predicate SameConfig(s: State, t: State) {
    t.videoConfig == s.videoConfig && t.finalized == s.finalized
  }

  lemma ClosePartKeepsConfig(c: Config, s: State, at: timestamp, force: bool)
    ensures SameConfig(s, ClosePart(c, s, at, force))
  {
  }

  lemma FlushKeepsConfig(c: Config, s: State)
    ensures SameConfig(s, Flush(c, s))
  {
    hide ClosePart;
    ClosePartKeepsConfig(c, s, s.clock.lastTs, true);
  }

  lemma FrameKeepsConfig(c: Config, s: State, at: timestamp, key: bool, tables: seq<byte>, packets: Option<seq<byte>>)
    ensures SameConfig(s, OnFrame(c, s, at, key, tables, packets))
  {
    hide Flush, ClosePart, To90k;
    FlushKeepsConfig(c, s);
    FlushKeepsClock(c, s);
    var u := Cut(c, s, at, key, tables);
    assert SameConfig(s, u);
    if packets.Some? {
      ClosePartKeepsConfig(c, WriteVideo(u, at, key, packets.value, CutsTimeline(c, s.clock, at)), at, false);
    }
  }

  lemma FrameMovesClock(c: Config, s: State, at: timestamp, key: bool, tables: seq<byte>, packets: seq<byte>)
    ensures OnFrame(c, s, at, key, tables, Some(packets)).clock == FrameClock(c, s.clock, at)
  {
    hide Flush, ClosePart, To90k;
    FlushKeepsClock(c, s);
    var u := Cut(c, s, at, key, tables);
    assert u.clock == s.clock.(base := BaseAt(c, s.clock, at));
    ClosePartKeepsClock(c, WriteVideo(u, at, key, packets, CutsTimeline(c, s.clock, at)), at, false);
  }

  /** The clock after a video frame is written. */
  function FrameClock(c: Config, k: Clock, at: timestamp): Clock {
    var base := BaseAt(c, k, at);
    Clock(at, true, base, k.times + [Stamp(To90k(base, at), CutsTimeline(c, k, at))], false)
  }

  /** The clock after the first audio frame of a timeline no video frame has started. */
  function AudioClock(k: Clock, at: timestamp): Clock {
    if k.haveLast then k else k.(lastTs := at, haveLast := true)
  }

  lemma UnconvertedMovesBase(c: Config, s: State, at: timestamp, key: bool, tables: seq<byte>)
    ensures OnFrame(c, s, at, key, tables, None).clock == s.clock.(base := BaseAt(c, s.clock, at))
  {
    hide Flush;
    FlushKeepsClock(c, s);
  }

  /** Which messages move the clock, and to where: a reconnect; a video frame, written or not;
      and audio before any video. */
  lemma ClockOf(c: Config, s: State, m: Message)
    ensures var k := Apply(c, s, m).clock;
            if m.Reconnect? then
              k == s.clock.(haveLast := false, base := s.clock.base + s.clock.lastTs + 1, resumed := true)
            else if Accepted(s, m) then
              k == if m.packets.Some? then FrameClock(c, s.clock, m.at) else s.clock.(base := BaseAt(c, s.clock, m.at))
            else if m.AudioFrame? then k == s.clock || k == AudioClock(s.clock, m.at)
            else k == s.clock
  {
    hide Flush, ClosePart, OnFrame, FrameClock, BaseAt;
    FlushKeepsClock(c, s);
    match m
    case VideoFrame(at, key, tables, packets) =>
      if Accepted(s, m) {
        if packets.Some? {
          FrameMovesClock(c, s, at, key, tables, packets.value);
        } else {
          UnconvertedMovesBase(c, s, at, key, tables);
        }
      }
    case AudioFrame(at, sound) =>
      ClosePartKeepsClock(c, WriteAudio(s, at, sound), at, false);
    case _ =>
  }

  lemma FrameKeepsTimes(c: Config, k: Clock, at: timestamp)
    requires TimesOk(k)
    ensures TimesOk(FrameClock(c, k, at))
  {
  }

  lemma StepKeepsTimes(c: Config, s: State, m: Message)
    requires TimesOk(s.clock) && Tame(c, s, m)
    ensures TimesOk(Apply(c, s, m).clock)
  {
    hide Apply, FrameClock, CutsOk;
    ClockOf(c, s, m);
    if Accepted(s, m) {
      FrameKeepsTimes(c, s.clock, m.at);
    }
  }

  lemma FrameKeepsMonotone(c: Config, k: Clock, at: timestamp)
    requires TimesOk(k) && Monotone(k) && (k.haveLast && !Jumps(c, k, at) ==> k.lastTs <= at)
    ensures Monotone(FrameClock(c, k, at))
  {
    hide CutsOk;
  }

  lemma StepKeepsMonotone(c: Config, s: State, m: Message)
    requires TimesOk(s.clock) && Monotone(s.clock) && Tame(c, s, m) && Forward(c, s, m)
    ensures Monotone(Apply(c, s, m).clock)
  {
    hide Apply, FrameClock, CutsOk;
    ClockOf(c, s, m);
    if Accepted(s, m) && m.packets.Some? {
      FrameKeepsMonotone(c, s.clock, m.at);
    }
  }

  lemma TameBefore(c: Config, messages: seq<Message>)
    requires messages != [] && AllTame(c, messages)
    ensures AllTame(c, messages[..|messages| - 1])
    ensures Tame(c, Run(c, messages[..|messages| - 1]), messages[|messages| - 1])
  {
    hide Run, Tame;
    var before := messages[..|messages| - 1];
    forall i | 0 <= i < |before|
      ensures Tame(c, Run(c, before[..i]), before[i])
    {
      assert before[..i] == messages[..i] && Tame(c, Run(c, messages[..i]), messages[i]);
    }
  }

  lemma ForwardBefore(c: Config, messages: seq<Message>)
    requires messages != [] && AllForward(c, messages)
    ensures AllForward(c, messages[..|messages| - 1])
    ensures Forward(c, Run(c, messages[..|messages| - 1]), messages[|messages| - 1])
  {
    hide Run, Forward;
    var before := messages[..|messages| - 1];
    forall i | 0 <= i < |before|
      ensures Forward(c, Run(c, before[..i]), before[i])
    {
      assert before[..i] == messages[..i] && Forward(c, Run(c, messages[..i]), messages[i]);
    }
  }

  lemma {:induction false} RunKeepsTimes(c: Config, messages: seq<Message>)
    requires AllTame(c, messages)
    ensures TimesOk(Run(c, messages).clock)
  {
    hide Apply, AllTame, Tame;
    if messages != [] {
      TameBefore(c, messages);
      RunKeepsTimes(c, messages[..|messages| - 1]);
      StepKeepsTimes(c, Run(c, messages[..|messages| - 1]), messages[|messages| - 1]);
    }
  }

  lemma {:induction false} RunKeepsMonotone(c: Config, messages: seq<Message>)
    requires AllTame(c, messages) && AllForward(c, messages)
    ensures Monotone(Run(c, messages).clock)
  {
    hide Apply, TimesOk, AllTame, AllForward, Tame, Forward;
    if messages != [] {
      var before := messages[..|messages| - 1];
      TameBefore(c, messages);
      ForwardBefore(c, messages);
      RunKeepsMonotone(c, before);
      RunKeepsTimes(c, before);
      StepKeepsMonotone(c, Run(c, before), messages[|messages| - 1]);
    }
  }

  lemma {:induction false} Sorted(times: seq<Stamp>, i: nat, j: nat)
    requires forall k | 0 < k < |times| :: times[k - 1].dts <= times[k].dts
    requires i <= j < |times|
    ensures times[i].dts <= times[j].dts
    decreases j
  {
    if i < j {
      Sorted(times, i, j - 1);
    }
  }

  /** Over every run in which no frame at a jump fails to convert and no in-threshold step goes
      back: video decoding times never decrease, and strictly increase at every detected jump
      (rollover, encoder reset, far-forward splice) and at every reconnect. */
  lemma TimelineIsMonotone(c: Config, messages: seq<Message>, i: nat, j: nat)
    requires AllTame(c, messages) && AllForward(c, messages)
    requires i < j < |Run(c, messages).clock.times|
    ensures var times := Run(c, messages).clock.times;
            && times[i].dts <= times[j].dts
            && (times[j].cut ==> times[i].dts < times[j].dts)
  {
    hide Run, AllTame, AllForward;
    RunKeepsMonotone(c, messages);
    Sorted(Run(c, messages).clock.times, i, j);
    Sorted(Run(c, messages).clock.times, i, j - 1);
  }

  /** When every frame converts, in particular none at a jump fails to. */
  lemma ConvertedIsTame(c: Config, messages: seq<Message>)
    requires AllConverted(messages)
    ensures AllTame(c, messages)
  {
    hide Run;
  }

  /** With steps back allowed: at a jump or reconnect the decoding time strictly increases if
      and only if the unclamped clock comes out positive; otherwise it stays at zero. */
  lemma CutIsStrictExactlyWhenPositive(c: Config, messages: seq<Message>, m: Message)
    requires AllTame(c, messages) && Converted(m)
    requires var s := Run(c, messages);
             s.clock.times != [] && Accepted(s, m) && CutsTimeline(c, s.clock, m.at)
    ensures var s, r := Run(c, messages), Apply(c, Run(c, messages), m);
            var clock := if Jumps(c, s.clock, m.at) then s.clock.lastTs + s.clock.base + 1 else m.at + s.clock.base;
            && |r.clock.times| == |s.clock.times| + 1 && r.clock.times[|s.clock.times|].cut
            && (Last(s.clock.times) < Last(r.clock.times) <==> clock > 0)
            && (clock <= 0 ==> Last(s.clock.times) == Last(r.clock.times) == 0)
  {
    hide Run, Apply, AllTame, CutsOk;
    RunKeepsTimes(c, messages);
    ClockOf(c, Run(c, messages), m);
  }

  /** Why a frame at a jump must convert: the base moves although the last timestamp does not,
      so the frame after it, a step forward within the threshold, comes out at zero. */
  lemma UnconvertedJumpBreaksTimeline(tables: seq<byte>, packets: seq<byte>)
    ensures var c := Config(4000, 1000000, 20000, 5000, "segment-", ".ts", 0, 0);
            var f := (at: timestamp) => VideoFrame(at, true, tables, Some(packets));
            var messages := [VideoHeader(VideoParams([], [])), f(0), f(4000),
                             VideoFrame(14000, true, tables, None), f(5000)];
            var times := Run(c, messages).clock.times;
            |times| == 3 && times[1].dts == 360000 && times[2] == Stamp(0, false)
  {
    hide OnFrame, Run;
    var c := Config(4000, 1000000, 20000, 5000, "segment-", ".ts", 0, 0);
    var f := (at: timestamp) => VideoFrame(at, true, tables, Some(packets));
    var messages := [VideoHeader(VideoParams([], [])), f(0), f(4000), VideoFrame(14000, true, tables, None), f(5000)];
    RunStart(c, messages);
    RunStep(c, messages, 0);
    RunStep(c, messages, 1);
    FrameMovesClock(c, Run(c, messages[..1]), 0, true, tables, packets);
    FrameKeepsConfig(c, Run(c, messages[..1]), 0, true, tables, Some(packets));
    RunStep(c, messages, 2);
    FrameMovesClock(c, Run(c, messages[..2]), 4000, true, tables, packets);
    FrameKeepsConfig(c, Run(c, messages[..2]), 4000, true, tables, Some(packets));
    RunStep(c, messages, 3);
    UnconvertedMovesBase(c, Run(c, messages[..3]), 14000, true, tables);
    FrameKeepsConfig(c, Run(c, messages[..3]), 14000, true, tables, None);
    RunStep(c, messages, 4);
    FrameMovesClock(c, Run(c, messages[..4]), 5000, true, tables, packets);
    assert messages[..5] == messages;
  }

  /** The clock can be driven below zero: a far-forward splice makes the base negative, and
      a step back within the threshold takes the sum under zero; the next jump then leaves
      the decoding time where it was. */
  lemma JumpNeedNotAdvance(tables: seq<byte>, packets: seq<byte>)
    ensures var c := Config(4000, 1000000, 20000, 5000, "segment-", ".ts", 0, 0);
            var f := (at: timestamp) => VideoFrame(at, true, tables, Some(packets));
            var messages := [VideoHeader(VideoParams([], [])), f(0), f(10000), f(6000), f(20000)];
            var times := Run(c, messages).clock.times;
            |times| == 4 && times[3].cut && times[2].dts == times[3].dts
  {
    hide OnFrame, Run;
    var c := Config(4000, 1000000, 20000, 5000, "segment-", ".ts", 0, 0);
    var f := (at: timestamp) => VideoFrame(at, true, tables, Some(packets));
    var messages := [VideoHeader(VideoParams([], [])), f(0), f(10000), f(6000), f(20000)];
    RunStart(c, messages);
    RunStep(c, messages, 0);
    RunStep(c, messages, 1);
    FrameMovesClock(c, Run(c, messages[..1]), 0, true, tables, packets);
    FrameKeepsConfig(c, Run(c, messages[..1]), 0, true, tables, Some(packets));
    RunStep(c, messages, 2);
    FrameMovesClock(c, Run(c, messages[..2]), 10000, true, tables, packets);
    FrameKeepsConfig(c, Run(c, messages[..2]), 10000, true, tables, Some(packets));
    RunStep(c, messages, 3);
    FrameMovesClock(c, Run(c, messages[..3]), 6000, true, tables, packets);
    FrameKeepsConfig(c, Run(c, messages[..3]), 6000, true, tables, Some(packets));
    RunStep(c, messages, 4);
    FrameMovesClock(c, Run(c, messages[..4]), 20000, true, tables, packets);
    assert messages[..5] == messages;
  }

  lemma RunStart(c: Config, messages: seq<Message>)
    ensures Run(c, messages[..0]) == Init(c)
  {
  }

  lemma RunStep(c: Config, messages: seq<Message>, k: nat)
    requires k < |messages|
    ensures Run(c, messages[..k + 1]) == Apply(c, Run(c, messages[..k]), messages[k])
  {
    assert messages[..k + 1][..k] == messages[..k];
  }
}
