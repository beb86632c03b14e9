/** One publisher's packaging pipeline (`hls::StreamSink`): the segmenter's callbacks feed
    the store. What the store needs of its producer for its strongest statements (distinct
    names, parts in order, every part accounted for) is what the segmenter delivers.
    Stall repeat and encryption are off here. */
module StreamSinks {
  import opened Prelude
  import opened Media
  import opened StoreParts
  import opened StoreInvariants
  import R = SegmenterRuns
  import opened Segmenting
  import opened Store
  import L = LiveEdge

  function Segments(output: seq<R.Output>): seq<Segment> {
    if output == [] then [] else
      Segments(output[..|output| - 1]) + if output[|output| - 1].SegmentOut? then [output[|output| - 1].segment] else []
  }

  function Parts(output: seq<R.Output>): seq<Part> {
    if output == [] then [] else
      Parts(output[..|output| - 1]) + if output[|output| - 1].PartOut? then [output[|output| - 1].part] else []
  }

  lemma OneMoreOutput(output: seq<R.Output>, item: R.Output)
    ensures Segments(output + [item]) == Segments(output) + if item.SegmentOut? then [item.segment] else []
    ensures Parts(output + [item]) == Parts(output) + if item.PartOut? then [item.part] else []
    ensures R.Events(output + [item]) == R.Events(output) + [R.EventOf(item)]
  {
    assert (output + [item])[..|output|] == output;
  }

  /** Element i of a projection of the output comes from some output, and in order. */
  lemma {:induction false} SegmentsFromOutput(output: seq<R.Output>, i: nat, j: nat)
    requires i < j < |Segments(output)|
    ensures exists a, b :: 0 <= a < b < |output| && output[a].SegmentOut? && output[b].SegmentOut? &&
                           output[a].segment == Segments(output)[i] && output[b].segment == Segments(output)[j]
  {
    var before := output[..|output| - 1];
    if j < |Segments(before)| {
      SegmentsFromOutput(before, i, j);
    } else {
      var a := SegmentFromOutput(before, i);
      assert output[|output| - 1].segment == Segments(output)[j];
    }
  }

  lemma {:induction false} SegmentFromOutput(output: seq<R.Output>, i: nat) returns (a: nat)
    requires i < |Segments(output)|
    ensures a < |output| && output[a].SegmentOut? && output[a].segment == Segments(output)[i]
  {
    var before := output[..|output| - 1];
    if i < |Segments(before)| {
      a := SegmentFromOutput(before, i);
    } else {
      a := |output| - 1;
    }
  }

  lemma {:induction false} PartFromOutput(output: seq<R.Output>, i: nat) returns (a: nat)
    requires i < |Parts(output)|
    ensures a < |output| && output[a].PartOut? && output[a].part == Parts(output)[i]
  {
    var before := output[..|output| - 1];
    if i < |Parts(before)| {
      a := PartFromOutput(before, i);
    } else {
      a := |output| - 1;
    }
  }

  lemma {:induction false} PartsFromOutput(output: seq<R.Output>, i: nat, j: nat)
    requires i < j < |Parts(output)|
    ensures exists a, b :: 0 <= a < b < |output| && output[a].PartOut? && output[b].PartOut? &&
                           output[a].part == Parts(output)[i] && output[b].part == Parts(output)[j]
  {
    var before := output[..|output| - 1];
    if j < |Parts(before)| {
      PartsFromOutput(before, i, j);
    } else {
      var a := PartFromOutput(before, i);
      assert output[|output| - 1].part == Parts(output)[j];
    }
  }

  /** The names a segmenter run publishes are distinct, segments and parts alike. */
  lemma PublishedNamesDistinct(c: R.Config, messages: seq<R.Message>)
    requires R.AllMuxed(messages)
    ensures var output := R.Run(c, messages).output;
            Distinct(SegmentNames(Segments(output))) && Distinct(PartNames(Parts(output)))
  {
    hide R.Run, Segments, Parts;
    var output := R.Run(c, messages).output;
    var segments, parts := Segments(output), Parts(output);
    forall i, j | 0 <= i < j < |segments|
      ensures SegmentNames(segments)[i] != SegmentNames(segments)[j]
    {
      SegmentsFromOutput(output, i, j);
      var a, b :| 0 <= a < b < |output| && output[a].SegmentOut? && output[b].SegmentOut? &&
                  output[a].segment == segments[i] && output[b].segment == segments[j];
      R.NamesNeverRepeat(c, messages, a, b);
    }
    forall i, j | 0 <= i < j < |parts|
      ensures PartNames(parts)[i] != PartNames(parts)[j]
    {
      PartsFromOutput(output, i, j);
      var a, b :| 0 <= a < b < |output| && output[a].PartOut? && output[b].PartOut? &&
                  output[a].part == parts[i] && output[b].part == parts[j];
      R.NamesNeverRepeat(c, messages, a, b);
    }
  }

  /** The segments of a run are numbered from the first on, without a gap. */
  lemma {:induction false} SegmentsNumbered(c: R.Config, output: seq<R.Output>)
    requires R.OutputOk(c, output)
    ensures |Segments(output)| == R.Count(output)
    ensures forall i | 0 <= i < |Segments(output)| :: Segments(output)[i].sequence == c.initialSequence + i
  {
    if output != [] {
      R.PrefixOk(c, output);
      SegmentsNumbered(c, output[..|output| - 1]);
    }
  }

  /** The store's log is the segmenter's output, item for item. */
  ghost predicate Fed(log: Log, shelf: Shelf, output: seq<R.Output>, ended: bool) {
    && log.history == log.produced == Segments(output)
    && log.added == Parts(output) && log.accounted
    && shelf.openParts == R.Pending(output)
    && log.events == R.Events(output) + if ended then [L.Ended] else []
  }

  class StreamSink {
    const store: SegmentStore
    const segmenter: Segmenter
    var finalized: bool
    ghost var messages: seq<R.Message>

    ghost predicate Valid()
      reads this, store, store.clock, segmenter
    {
      && store.Valid() && !store.config.repeatOnStall
      && (store.config.lowLatency <==> segmenter.config.partTargetMs > 0)
      && R.AllMuxed(messages)
      && segmenter.Snapshot() == R.Run(segmenter.config, messages)
      && Fed(store.log, store.shelf, segmenter.output, finalized)
    }

    /** A fresh segmenter in front of a store that is emptied first. */
    constructor (store: SegmentStore, config: R.Config)
      requires store.Valid() && !store.config.repeatOnStall
      requires store.config.lowLatency <==> config.partTargetMs > 0
      modifies store
      ensures Valid() && this.store == store && !finalized
    {
      hide SegmentStore.Valid, Fed, R.Run, R.Init, R.Muxed;
      this.store := store;
      segmenter := new Segmenter(config);
      finalized, messages := false, [];
      new;
      store.Clear();
      NothingYet(config);
    }

    /** The callbacks made after the first `from`, passed on in order. */
    method PassOn(from: nat)
      requires store.Valid() && !store.config.repeatOnStall
      requires store.config.lowLatency <==> segmenter.config.partTargetMs > 0
      requires R.OutputOk(segmenter.config, segmenter.output)
      requires from <= |segmenter.output| && Fed(store.log, store.shelf, segmenter.output[..from], false)
      modifies store`shelf, store`fallbackActive, store`lastAddedAt, store`log, store.clock
      ensures store.Valid() && Fed(store.log, store.shelf, segmenter.output, false)
    {
      hide SegmentStore.Valid, Fed, R.ItemOk;
      var k := from;
      while k < |segmenter.output|
        invariant from <= k <= |segmenter.output|
        invariant store.Valid() && Fed(store.log, store.shelf, segmenter.output[..k], false)
      {
        assert R.ItemOk(segmenter.config, segmenter.output[..k], segmenter.output[k]);
        assert segmenter.output[..k + 1] == segmenter.output[..k] + [segmenter.output[k]];
        PassOnOne(segmenter.output[k], segmenter.output[..k]);
        k := k + 1;
      }
      assert segmenter.output[..k] == segmenter.output;
    }

    method PassOnOne(item: R.Output, ghost before: seq<R.Output>)
      requires store.Valid() && !store.config.repeatOnStall
      requires store.config.lowLatency <==> segmenter.config.partTargetMs > 0
      requires R.ItemOk(segmenter.config, before, item) && Fed(store.log, store.shelf, before, false)
      modifies store`shelf, store`fallbackActive, store`lastAddedAt, store`log, store.clock
      ensures store.Valid() && Fed(store.log, store.shelf, before + [item], false)
    {
      hide SegmentStore.Valid, R.Concat, PartName, SegmentName, Segments, Parts, R.Events, R.Count;
      OneMoreOutput(before, item);
      assert (before + [item])[..|before|] == before;
      match item
      case PartOut(part, _) => store.AddPart(part, None);
      case SegmentOut(segment, _) => store.AddSegment(segment, None);
    }

    /** on_video and on_audio. */
    method Receive(m: R.Message)
      requires Valid() && R.Muxed(m)
      requires m.VideoHeader? || m.VideoFrame? || m.AudioHeader? || m.AudioFrame?
      modifies this`messages, segmenter, store`shelf, store`fallbackActive, store`lastAddedAt, store`log, store.clock
      ensures Valid() && messages == if finalized then old(messages) else old(messages) + [m]
    {
      hide SegmentStore.Valid, Fed, R.Apply, R.Run, R.Muxed;
      if finalized {
        return;
      }
      var from := |segmenter.output|;
      match m {
        case VideoHeader(video) => segmenter.OnVideoHeader(video);
        case VideoFrame(at, key, tables, packets) => segmenter.OnVideoFrame(at, key, tables, packets);
        case AudioHeader(audio) => segmenter.OnAudioHeader(audio);
        case AudioFrame(at, sound) => segmenter.OnAudioFrame(at, sound);
      }
      Took(segmenter.config, messages, m);
      messages := messages + [m];
      assert segmenter.output[..from] == old(segmenter.output);
      PassOn(from);
    }

    /** Serving a playlist in between leaves the pipeline as it is. */
    method Playlist(uriPrefix: string) returns (text: string)
      requires Valid()
      modifies store`shelf, store`fallbackActive, store`lastAddedAt, store`log, store.clock
      ensures Valid() && store.log == old(store.log) && store.shelf == old(store.shelf)
    {
      hide SegmentStore.Valid, Fed, R.Run, PlainWindow, View;
      var now;
      text, now := store.Playlist(uriPrefix);
    }

    /** finalize */
    method Finish()
      requires Valid()
      modifies this, segmenter, store, store.clock
      ensures Valid() && finalized && messages == if old(finalized) then old(messages) else old(messages) + [R.Finalize]
    {
      hide SegmentStore.Valid, R.Apply, R.Run, R.Muxed, Segments, Parts, R.Events, R.Pending;
      if finalized {
        return;
      }
      var from := |segmenter.output|;
      segmenter.Finish();
      TookFinalize(segmenter.config, messages);
      messages := messages + [R.Finalize];
      assert segmenter.output[..from] == old(segmenter.output);
      PassOn(from);
      store.MarkEnded();
      finalized := true;
    }

    /** Over every run of the pipeline the store sees an in-order producer, distinct
        names, numbers without a gap and only accounted parts: its lookups are exact, its
        byte counter is, its edge test answers for the whole publication, and a listed
        segment keeps its number. */
    lemma StoreSeesOrderlyProducer()
      requires Valid()
      ensures L.InOrder(store.log.events) && store.log.accounted
      ensures Distinct(SegmentNames(store.log.history)) && Distinct(PartNames(store.log.added))
      ensures Contiguous(store.log.history)
    {
      hide SegmentStore.Valid, R.Run, R.ItemOk;
      R.RunKeepsInv(segmenter.config, messages);
      SegmentsNumbered(segmenter.config, segmenter.output);
      R.PublishesInOrder(segmenter.config, messages);
      PublishedNamesDistinct(segmenter.config, messages);
      assert segmenter.output == R.Run(segmenter.config, messages).output;
      EndInOrder(R.Events(segmenter.output));
      assert R.Events(segmenter.output) + [] == R.Events(segmenter.output);
    }

    /** Under the names the server configures, the preload hint names the very next part if and
        only if something has been published or numbering starts at zero. */
    lemma HintNamesNextPart()
      requires Valid() && segmenter.config.prefix == "segment-" && segmenter.config.suffix == ".ts"
      ensures PreloadHint(store.shelf.segments, store.shelf.openParts) ==
              R.NextPartName(segmenter.config, segmenter.output) <==>
              store.log.history != [] || store.shelf.openParts != [] || segmenter.config.initialSequence == 0
    {
      hide PreloadHint, R.Run, PartName, R.Count, R.Pending, Segments, Parts, R.Events, R.ItemOk, SegmentStore.Valid;
      var c, output := segmenter.config, segmenter.output;
      var segments, open := store.shelf.segments, store.shelf.openParts;
      R.RunKeepsInv(c, messages);
      SegmentsNumbered(c, output);
      NewestKept(store);
      HintNumbers(segments, open);
      if open != [] {
        R.NewestPart(c, output);
      } else if segments == [] {
        if PartName("segment-", 0, 0, ".ts") == R.NextPartName(c, output) {
          PartNameInjective("segment-", 0, 0, c.initialSequence + R.Count(output), 0, ".ts");
        }
      }
    }
  }

  /** The hint the store would print names a part by these two numbers. */
  lemma HintNumbers(segments: seq<Segment>, open: seq<Part>)
    ensures var sequence := if open != [] then open[|open| - 1].segmentSequence
                            else if segments == [] then 0 else segments[|segments| - 1].sequence + 1;
            var index := if open == [] then 0 else open[|open| - 1].index + 1;
            PreloadHint(segments, open) == PartName("segment-", sequence, index, ".ts")
  {
  }

  lemma NewestKept(store: SegmentStore)
    requires store.Valid()
    ensures Newest(store.shelf.segments) == Newest(store.log.history)
  {
    store.LastIsNewest();
  }

  lemma EndInOrder(events: seq<L.Event>)
    requires L.InOrder(events)
    ensures L.InOrder(events + [L.Ended])
  {
    assert (events + [L.Ended])[..|events|] == events;
  }

  lemma NothingYet(c: R.Config)
    ensures R.Run(c, []) == R.Init(c) && R.Init(c).output == [] && Fed(EMPTY_LOG, EMPTY_SHELF, [], false)
  {
  }

  /** One more message: the run goes on, and what was published stays. */
  lemma Took(c: R.Config, messages: seq<R.Message>, m: R.Message)
    requires R.AllMuxed(messages) && R.Muxed(m)
    ensures R.AllMuxed(messages + [m])
    ensures R.Run(c, messages + [m]) == R.Apply(c, R.Run(c, messages), m)
    ensures R.Run(c, messages).output <= R.Run(c, messages + [m]).output
    ensures R.OutputOk(c, R.Run(c, messages + [m]).output)
  {
    hide R.Apply, R.Muxed, R.BufferOk;
    assert (messages + [m])[..|messages|] == messages;
    R.OutputGrows(c, R.Run(c, messages), m);
    R.RunKeepsInv(c, messages + [m]);
  }

  lemma TookFinalize(c: R.Config, messages: seq<R.Message>)
    requires R.AllMuxed(messages)
    ensures R.AllMuxed(messages + [R.Finalize])
    ensures R.Run(c, messages + [R.Finalize]) == R.Apply(c, R.Run(c, messages), R.Finalize)
    ensures R.Run(c, messages).output <= R.Run(c, messages + [R.Finalize]).output
    ensures R.OutputOk(c, R.Run(c, messages + [R.Finalize]).output)
  {
    hide R.Apply, R.Run;
    Took(c, messages, R.Finalize);
  }
}
