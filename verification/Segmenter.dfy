/** The segmenter as an object: one publishing stream's audio and video messages come in,
    parts and segments go out through the callbacks, whose calls `output` records. Every
    method moves the fields exactly as the run functions of SegmenterRuns do, so every
    theorem there is about this object's callbacks. */
module Segmenting {
  import opened Prelude
  import opened Media
  import opened SegmenterRuns

  class Segmenter {
    const config: Config
    var videoConfig: Option<VideoParams>
    var audioConfig: Option<AudioParams>
    var acc: Accumulation      // current_ and the part being cut from it
    var clock: Clock           // last_ts_, have_last_ts_ and timeline_base_ms_
    var pending: bool          // pending_discontinuity_
    var nextSequence: nat
    var finalized: bool
    var output: seq<Output>    // calls of on_part_ and on_segment_

    /** The fields as a value. */
    function Snapshot(): State
      reads this
    {
      State(videoConfig, audioConfig, acc, clock, pending, nextSequence, finalized, output)
    }

    constructor (c: Config)
      ensures config == c && Snapshot() == Init(c)
    {
      config := c;
      videoConfig, audioConfig, acc, clock := None, None, NOTHING, Clock(0, false, 0, [], false);
      pending, nextSequence, finalized, output := false, c.initialSequence, false, [];
    }

    /** maybe_close_part */
    method MaybeClosePart(at: timestamp, force: bool)
      modifies this
      ensures Snapshot() == ClosePart(config, old(Snapshot()), at, force)
    {
      if config.partTargetMs <= 0 || !acc.segmentOpen || |acc.current| <= acc.partOffset {
        return;
      }
      if !force && at - acc.partStart < config.partTargetMs {
        return;
      }
      var part := NextPart(config, acc, nextSequence, at);
      output := output + [PartOut(part, acc.partFrames)];
      acc := acc.(partOffset := |acc.current|, partStart := at, partIndex := acc.partIndex + 1);
      acc := acc.(partIndependent := false, partHasMedia := false, openParts := acc.openParts + [part],
                  partFrames := []);
    }

    /** flush_segment */
    method FlushSegment()
      modifies this
      ensures Snapshot() == Flush(config, old(Snapshot()))
    {
      hide ClosePart, NextSegment;
      if !acc.segmentOpen || acc.current == [] {
        acc := acc.(segmentOpen := false);
        return;
      }
      if |acc.current| <= 2 * PACKET {
        acc := acc.(current := [], segmentOpen := false);
        return;
      }
      MaybeClosePart(clock.lastTs, true);
      var segment := NextSegment(config, Snapshot());
      nextSequence := nextSequence + 1;
      output := output + [SegmentOut(segment, acc.frames)];
      acc := acc.(current := [], openParts := [], partOffset := 0, partIndex := 0, partHasMedia := false,
                  iframePrefix := 0, segmentOpen := false);
      pending := false;
    }

    /** A sequence header of on_video. */
    method OnVideoHeader(video: VideoParams)
      modifies this
      ensures Snapshot() == Apply(config, old(Snapshot()), VideoHeader(video))
    {
      hide Flush;
      if finalized {
        return;
      }
      if videoConfig.Some? && videoConfig.value != video {
        FlushSegment();
        pending := true;
      }
      videoConfig := Some(video);
    }

    /** on_video at a detected jump: the timeline moves on past it. */
    method CrossJump(at: timestamp)
      modifies this
      ensures Snapshot() == AfterJump(config, old(Snapshot()), at)
    {
      hide Flush;
      FlushKeepsClock(config, Snapshot());
      if clock.haveLast && (at - clock.lastTs > config.thresholdMs || clock.lastTs - at > config.thresholdMs) {
        FlushSegment();
        pending := true;
        clock := clock.(base := clock.base + clock.lastTs - at + 1);
      }
    }

    /** on_video's due and forced cuts. */
    method CutIfDue(at: timestamp, key: bool)
      modifies this
      ensures Snapshot() == CloseIfDue(config, old(Snapshot()), at, key)
    {
      hide Flush;
      var elapsed := at - acc.segmentStart;
      if acc.segmentOpen {
        if key && elapsed >= config.targetMs {
          FlushSegment();
        } else if |acc.current| >= config.maxBytes || elapsed >= config.maxMs {
          FlushSegment();
          pending := true;
        }
      }
    }

    /** The cuts of on_video, up to the segment the frame goes into. */
    method PrepareSegment(at: timestamp, key: bool, tables: seq<byte>)
      modifies this
      ensures Snapshot() == Cut(config, old(Snapshot()), at, key, tables)
    {
      hide AfterJump, CloseIfDue;
      CrossJump(at);
      CutIfDue(at, key);
      if !acc.segmentOpen {
        acc := StartSegment(at, tables);
      }
    }

    /** A coded frame of on_video. */
    method OnVideoFrame(at: timestamp, key: bool, tables: seq<byte>, packets: Option<seq<byte>>)
      modifies this
      ensures Snapshot() == Apply(config, old(Snapshot()), VideoFrame(at, key, tables, packets))
    {
      hide Cut, ClosePart, To90k;
      if finalized || videoConfig.None? {
        return;
      }
      var cut := CutsTimeline(config, clock, at);
      PrepareSegment(at, key, tables);
      if packets.None? {
        return;
      }
      if key && !acc.partHasMedia {
        acc := acc.(partIndependent := true);
      }
      acc := acc.(current := acc.current + packets.value, partHasMedia := true,
                  frames := acc.frames + [Video(key)], partFrames := acc.partFrames + [Video(key)]);
      if key && acc.iframePrefix == 0 {
        acc := acc.(iframePrefix := |acc.current|);
      }
      clock := Clock(at, true, clock.base, clock.times + [Stamp(To90k(clock.base, at), cut)], false);
      MaybeClosePart(at, false);
    }

    /** A sequence header of on_audio. */
    method OnAudioHeader(audio: AudioParams)
      modifies this
      ensures Snapshot() == Apply(config, old(Snapshot()), AudioHeader(audio))
    {
      hide Flush;
      if finalized {
        return;
      }
      if audioConfig.Some? && audioConfig.value != audio {
        FlushSegment();
        pending := true;
      }
      audioConfig := Some(audio);
    }

    /** A coded frame of on_audio: audio never opens a segment. */
    method OnAudioFrame(at: timestamp, sound: seq<byte>)
      modifies this
      ensures Snapshot() == Apply(config, old(Snapshot()), AudioFrame(at, sound))
    {
      hide ClosePart;
      if finalized || audioConfig.None? || !acc.segmentOpen {
        return;
      }
      acc := acc.(current := acc.current + sound, partHasMedia := true,
                  frames := acc.frames + [Audio], partFrames := acc.partFrames + [Audio]);
      if !clock.haveLast {
        clock := clock.(lastTs := at, haveLast := true);
      }
      MaybeClosePart(at, false);
    }

    /** mark_publisher_reconnect */
    method MarkPublisherReconnect()
      modifies this
      ensures Snapshot() == Apply(config, old(Snapshot()), Reconnect)
    {
      hide Flush;
      FlushKeepsClock(config, Snapshot());
      FlushSegment();
      pending := true;
      clock := clock.(haveLast := false, base := clock.base + clock.lastTs + 1, resumed := true);
      videoConfig, audioConfig := None, None;
    }

    /** mark_media_discontinuity */
    method MarkMediaDiscontinuity()
      modifies this
      ensures Snapshot() == Apply(config, old(Snapshot()), MediaGap)
    {
      hide Flush;
      FlushSegment();
      pending := true;
      videoConfig, audioConfig := None, None;
    }

    /** finalize */
    method Finish()
      modifies this
      ensures Snapshot() == Apply(config, old(Snapshot()), Finalize)
    {
      hide Flush;
      if finalized {
        return;
      }
      finalized := true;
      FlushSegment();
      FinalizedFlush(config, old(Snapshot()));
    }
  }

  lemma FinalizedFlush(c: Config, s: State)
    ensures Flush(c, s.(finalized := true)) == Flush(c, s).(finalized := true)
  {
  }
}
