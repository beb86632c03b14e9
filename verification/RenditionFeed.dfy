/** The feed from an encoder's Annex B output to the segmenter (`RenditionFeed::push_video`), and
    what the segmenter gets out of its messages: over every run, the same slices, in order, behind
    the parameter sets that belong to them. */
module RenditionFeeds {
  import opened Prelude
  import opened Media
  import opened AnnexB
  import opened AvcTags

  /** What the segmenter is called with: a video message, or the mark of a source gap, at which it
      forgets its configuration. */
  datatype Message = Message(at: nat, body: seq<byte>) | Gap

  /** The feed's fields, and the messages handed to the segmenter. */
  datatype Feed = Feed(configSent: bool, sps: seq<byte>, pps: seq<byte>, sent: seq<Message>)

  /** The first unit of that type, or nothing. */
  function FirstOf(nals: seq<seq<byte>>, kind: nat): seq<byte> {
    if nals == [] then [] else
      if nals[0] != [] && nals[0][0] % 32 == kind then nals[0] else FirstOf(nals[1..], kind)
  }

  /** The message timestamp: milliseconds, never negative, in 32 bits. */
  function Stamp(dts: int): nat {
    (if ToMs(dts) < 0 then 0 else ToMs(dts)) % 0x1_0000_0000
  }

  /** A configuration goes out before the first sample and whenever the parameter sets change. */
  function Configured(f: Feed, nals: seq<seq<byte>>, dts: int): Feed {
    var sps, pps := FirstOf(nals, SPS), FirstOf(nals, PPS);
    if Complete(sps, pps) && (!f.configSent || sps != f.sps || pps != f.pps)
    then Feed(true, sps, pps, f.sent + [Message(Stamp(dts), ConfigBody(sps, pps))])
    else f
  }

  /** push_video */
  function Pushed(f: Feed, annexb: seq<byte>, pts: int, dts: int, keyframe: bool): Feed {
    var nals := Units(annexb);
    var g := Configured(f, nals, dts);
    if !g.configSent || CarriedOf(nals) == [] then g
    else g.(sent := g.sent + [Message(Stamp(dts), TagHeader(keyframe, pts, dts) + Sample(CarriedOf(nals)))])
  }

  /** mark_discontinuity */
  function Interrupted(f: Feed): Feed {
    Feed(false, [], [], f.sent + [Gap])
  }

  class RenditionFeed {
    var configSent: bool        // video_config_sent_
    var sps: seq<byte>
    var pps: seq<byte>
    var sent: seq<Message>      // calls of segmenter_.on_video

    function Snapshot(): Feed
      reads this
    {
      Feed(configSent, sps, pps, sent)
    }

    constructor ()
      ensures Snapshot() == Feed(false, [], [], [])
    {
      configSent, sps, pps, sent := false, [], [], [];
    }

    /** The loop that looks for the parameter sets. */
    method FindSets(nals: seq<seq<byte>>) returns (s: seq<byte>, p: seq<byte>)
      ensures s == FirstOf(nals, SPS) && p == FirstOf(nals, PPS)
    {
      s, p := [], [];
      for i := 0 to |nals|
        invariant FirstOf(nals, SPS) == if s != [] then s else FirstOf(nals[i..], SPS)
        invariant FirstOf(nals, PPS) == if p != [] then p else FirstOf(nals[i..], PPS)
      {
        assert nals[i..][0] == nals[i] && nals[i..][1..] == nals[i + 1..];
        if nals[i] != [] {
          var kind := nals[i][0] % 32;
          if kind == SPS && s == [] {
            s := nals[i];
          } else if kind == PPS && p == [] {
            p := nals[i];
          }
        }
      }
      assert nals[|nals|..] == [];
    }

    method PushVideo(annexb: seq<byte>, pts: int, dts: int, keyframe: bool)
      modifies this
      ensures Snapshot() == Pushed(old(Snapshot()), annexb, pts, dts, keyframe)
    {
      hide Units, CarriedOf, Sample, TagHeader, FirstOf, ConfigBody, Stamp;
      var nals := SplitNals(annexb);
      NoSets();
      NoUnits();
      if nals == [] {
        return;
      }
      var newSps, newPps := FindSets(nals);
      if Complete(newSps, newPps) && (!configSent || newSps != sps || newPps != pps) {
        sent := sent + [Message(Stamp(dts), ConfigBody(newSps, newPps))];
        sps, pps, configSent := newSps, newPps, true;
      }
      if !configSent {
        return;
      }
      var body, wrote := BuildSample(nals, keyframe, pts, dts);
      if wrote {
        sent := sent + [Message(Stamp(dts), body)];
      }
    }

    method MarkDiscontinuity()
      modifies this
      ensures Snapshot() == Interrupted(old(Snapshot()))
    {
      sent := sent + [Gap];
      configSent, sps, pps := false, [], [];
    }
  }

  lemma NoSets()
    ensures forall kind :: FirstOf([], kind) == []
  {
  }

  // ------------------------------------------------------------- sound units

  /** No start code lies between a position and the next one found. */
  lemma {:induction false} NoneBefore(s: seq<byte>, p: nat, k: nat)
    requires p <= |s| && p <= k < NextCode(s, p)
    ensures CodeLength(s, k) == 0
    decreases k - p
  {
    hide CodeLength;
    if p < k {
      NoneBefore(s, p + 1, k);
    }
  }

  lemma CutIsSound(s: seq<byte>, start: nat, next: nat)
    requires start < next <= |s| && next == NextCode(s, start)
    ensures Sound(s[start..next])
  {
    hide NextCode;
    forall p | 0 <= p < next - start
      ensures CodeLength(s[start..next], p) == 0
    {
      NoneBefore(s, start, start + p);
    }
  }

  lemma {:induction false} UnitsFromAreSound(s: seq<byte>, i: nat)
    requires i <= |s| && (i < |s| ==> CodeLength(s, i) > 0)
    ensures forall k | 0 <= k < |UnitsFrom(s, i)| :: Sound(UnitsFrom(s, i)[k])
    decreases |s| - i
  {
    hide CodeLength, NextCode, Sound;
    if i < |s| {
      var start := i + CodeLength(s, i);
      var next := NextCode(s, start);
      UnitsFromAreSound(s, next);
      if next > start {
        CutIsSound(s, start, next);
      }
    }
  }

  /** Whatever the stream, a unit cut from it is not empty and has no start code inside. */
  lemma UnitsAreSound(s: seq<byte>)
    ensures forall k | 0 <= k < |Units(s)| :: Sound(Units(s)[k])
  {
    hide CodeLength, NextCode, Sound, UnitsFrom;
    UnitsFromAreSound(s, NextCode(s, 0));
  }

  lemma {:induction false} FirstIsSound(nals: seq<seq<byte>>, kind: nat)
    requires forall k | 0 <= k < |nals| :: Sound(nals[k])
    ensures FirstOf(nals, kind) != [] ==> Sound(FirstOf(nals, kind)) && FirstOf(nals, kind)[0] % 32 == kind
    ensures FirstOf(nals, kind) == [] ==> forall k | 0 <= k < |nals| :: nals[k] != [] && nals[k][0] % 32 != kind
  {
    hide Sound;
    if nals != [] {
      SoundIsNotEmpty(nals[0]);
      FirstIsSound(nals[1..], kind);
      if FirstOf(nals, kind) == [] {
        assert forall k | 0 < k < |nals| :: nals[k] == nals[1..][k - 1];
      }
    }
  }

  lemma {:induction false} CarriedAreSound(nals: seq<seq<byte>>)
    requires forall k | 0 <= k < |nals| :: Sound(nals[k])
    ensures forall k | 0 <= k < |CarriedOf(nals)| :: Sound(CarriedOf(nals)[k]) && Carried(CarriedOf(nals)[k])
  {
    hide Sound, Carried;
    if nals != [] {
      CarriedAreSound(nals[..|nals| - 1]);
    }
  }

  // --------------------------------------------------------- reading a sample

  lemma {:induction false} SampleFirst(nal: seq<byte>, rest: seq<seq<byte>>)
    ensures Sample([nal] + rest) == U32Bytes(|nal|) + nal + Sample(rest)
  {
    hide U32Bytes;
    if rest == [] {
      assert [nal] + rest == [nal] && [nal][..0] == [];
      assert U32Bytes(|nal|) + nal + [] == [] + U32Bytes(|nal|) + nal;
    } else {
      var before, last := rest[..|rest| - 1], rest[|rest| - 1];
      assert ([nal] + rest)[..|rest|] == [nal] + before;
      SampleFirst(nal, before);
      assert U32Bytes(|nal|) + nal + Sample(before) + U32Bytes(|last|) + last ==
             U32Bytes(|nal|) + nal + (Sample(before) + U32Bytes(|last|) + last);
    }
  }

  lemma ReadFour(data: seq<byte>, offset: nat)
    requires offset + 4 <= |data|
    ensures ReadBe(data, offset, 4) == U32Value(data[offset..])
  {
    ReadThree(data, offset);
  }

  lemma LengthAt(before: seq<byte>, nal: seq<byte>, rest: seq<byte>)
    requires |nal| < 0x1_0000_0000
    ensures ReadBe(before + (U32Bytes(|nal|) + nal + rest), |before|, 4) == |nal|
  {
    hide ReadBe, U32Value;
    var data := before + (U32Bytes(|nal|) + nal + rest);
    ReadFour(data, |before|);
    assert data[|before|..] == U32Bytes(|nal|) + (nal + rest);
    U32RoundTrip(|nal|, nal + rest);
  }

  lemma {:induction false} SampleUnits(before: seq<byte>, nals: seq<seq<byte>>)
    requires forall k | 0 <= k < |nals| :: 0 < |nals[k]| < 0x1_0000_0000
    ensures AvccUnits(before + Sample(nals), 4, |before|) == Some(nals)
    decreases |nals|
  {
    hide AvccUnits, ReadBe, U32Bytes;
    if nals == [] {
      assert before + Sample(nals) == before;
      AvccEnd(before, 4, |before|);
    } else {
      var nal, rest := nals[0], nals[1..];
      assert nals == [nal] + rest;
      SampleFirst(nal, rest);
      var data := before + Sample(nals);
      LengthAt(before, nal, Sample(rest));
      FourBytes(|nal|);
      var next := before + U32Bytes(|nal|) + nal;
      assert data == next + Sample(rest);
      SampleUnits(next, rest);
      AvccStep(data, 4, |before|);
      assert data[|before| + 4..|before| + 4 + |nal|] == nal;
    }
  }

  lemma FourBytes(n: nat)
    ensures |U32Bytes(n)| == 4
  {
  }

  lemma {:induction false} CarriedAreKept(nals: seq<seq<byte>>, insert: bool)
    requires forall k | 0 <= k < |nals| :: Carried(nals[k])
    ensures KeptOf(nals, insert) == nals
  {
    if nals != [] {
      CarriedAreKept(nals[1..], insert);
      assert nals == [nals[0]] + nals[1..];
    }
  }

  // ------------------------------------------------------------ what is held

  /** The configuration the segmenter holds after these messages. */
  function Held(sent: seq<Message>): Option<Config> {
    if sent == [] || sent[|sent| - 1].Gap? then None else
      var before, tag := Held(sent[..|sent| - 1]), ParseVideoTag(sent[|sent| - 1].body);
      if tag.Some? && tag.value.packetType == HEADER && ParseConfig(tag.value.body).Some?
      then ParseConfig(tag.value.body) else before
  }

  /** The segmenter holds the parameter sets the feed last sent. */
  ghost predicate InStep(f: Feed) {
    if !f.configSent then Held(f.sent) == None
    else
      && Held(f.sent) == Some(Config(4, [f.sps], [f.pps])) && Complete(f.sps, f.pps)
      && Sound(f.sps) && Sound(f.pps) && f.sps[0] % 32 == SPS && f.pps[0] % 32 == PPS
  }

  lemma HeldConfig(sent: seq<Message>, at: nat, sps: seq<byte>, pps: seq<byte>)
    requires Complete(sps, pps)
    ensures Held(sent + [Message(at, ConfigBody(sps, pps))]) == Some(Config(4, [sps], [pps]))
  {
    hide ParseVideoTag, ParseConfig, ConfigBody, ConfigRecord;
    ConfigBodyReadsBack(sps, pps);
    ConfigReadsBack(sps, pps);
    var m := Message(at, ConfigBody(sps, pps));
    assert (sent + [m])[..|sent|] == sent;
  }

  lemma HeldSample(sent: seq<Message>, at: nat, keyframe: bool, pts: int, dts: int, sample: seq<byte>)
    ensures Held(sent + [Message(at, TagHeader(keyframe, pts, dts) + sample)]) == Held(sent)
  {
    hide ParseVideoTag, ParseConfig, TagHeader, ToMs;
    TagReadsBack(keyframe, pts, dts, sample);
    var m := Message(at, TagHeader(keyframe, pts, dts) + sample);
    assert (sent + [m])[..|sent|] == sent;
  }

  lemma ConfiguredInStep(f: Feed, nals: seq<seq<byte>>, dts: int)
    requires InStep(f) && forall k | 0 <= k < |nals| :: Sound(nals[k])
    ensures InStep(Configured(f, nals, dts))
    ensures var sps, pps := FirstOf(nals, SPS), FirstOf(nals, PPS);
            var g := Configured(f, nals, dts);
            Complete(sps, pps) ==> g.configSent && g.sps == sps && g.pps == pps
  {
    hide Held, Sound, FirstOf, ConfigBody, Stamp;
    var sps, pps := FirstOf(nals, SPS), FirstOf(nals, PPS);
    FirstIsSound(nals, SPS);
    FirstIsSound(nals, PPS);
    if Complete(sps, pps) {
      HeldConfig(f.sent, Stamp(dts), sps, pps);
    }
  }

  lemma PushedInStep(f: Feed, annexb: seq<byte>, pts: int, dts: int, keyframe: bool)
    requires InStep(f)
    ensures InStep(Pushed(f, annexb, pts, dts, keyframe))
  {
    hide Held, Sound, Configured, TagHeader, Units, CarriedOf, Sample;
    var nals := Units(annexb);
    UnitsAreSound(annexb);
    ConfiguredInStep(f, nals, dts);
    HeldSample(Configured(f, nals, dts).sent, Stamp(dts), keyframe, pts, dts, Sample(CarriedOf(nals)));
  }

  // ---------------------------------------------------------------- theorems

  datatype Input =
    | AccessUnit(annexb: seq<byte>, pts: int, dts: int, keyframe: bool)
    | SourceGap

  /** The feed after a list of access units and gaps. */
  function Fed(inputs: seq<Input>): Feed {
    if inputs == [] then Feed(false, [], [], []) else
      var before, x := Fed(inputs[..|inputs| - 1]), inputs[|inputs| - 1];
      if x.SourceGap? then Interrupted(before) else Pushed(before, x.annexb, x.pts, x.dts, x.keyframe)
  }

  lemma InterruptedInStep(f: Feed)
    ensures InStep(Interrupted(f))
  {
  }

  lemma {:induction false} FedInStep(inputs: seq<Input>)
    ensures InStep(Fed(inputs))
  {
    hide Pushed, Interrupted, InStep;
    if inputs == [] {
      NothingFed();
    } else {
      var before, x := Fed(inputs[..|inputs| - 1]), inputs[|inputs| - 1];
      FedInStep(inputs[..|inputs| - 1]);
      if x.SourceGap? {
        InterruptedInStep(before);
      } else {
        PushedInStep(before, x.annexb, x.pts, x.dts, x.keyframe);
      }
    }
  }

  lemma NothingFed()
    ensures InStep(Feed(false, [], [], []))
  {
  }

  /** The units that are no parameter set (types 7 and 8) and no delimiter (type 9). */
  function Slices(nals: seq<seq<byte>>): seq<seq<byte>> {
    if nals == [] then [] else
      (if nals[0] == [] || nals[0][0] % 32 in {7, 8, 9} then [] else [nals[0]]) + Slices(nals[1..])
  }

  lemma {:induction false} SlicesOneMore(nals: seq<seq<byte>>, nal: seq<byte>)
    ensures Slices(nals + [nal]) == if Carried(nal) then Slices(nals) + [nal] else Slices(nals)
  {
    if nals == [] {
      assert nals + [nal] == [nal] && [nal][1..] == [];
    } else {
      SlicesOneMore(nals[1..], nal);
      assert (nals + [nal])[1..] == nals[1..] + [nal];
    }
  }

  lemma {:induction false} CarriedAreSlices(nals: seq<seq<byte>>)
    ensures CarriedOf(nals) == Slices(nals)
  {
    hide Carried;
    if nals != [] {
      var before, nal := nals[..|nals| - 1], nals[|nals| - 1];
      CarriedAreSlices(before);
      SlicesOneMore(before, nal);
      assert nals == before + [nal];
    }
  }

  /** What the segmenter makes of a message under a configuration: the frame's flag and the units
      of the stream it muxes. */
  ghost predicate Decodes(m: Message, c: Config, keyframe: bool, units: seq<seq<byte>>) {
    m.Message? &&
    var tag := ParseVideoTag(m.body);
    && tag.Some? && tag.value.packetType == NALU && tag.value.keyframe == keyframe
    && ToAnnexB(tag.value.body, c, keyframe).Some?
    && Units(ToAnnexB(tag.value.body, c, keyframe).value) == units
  }

  lemma SampleDecodes(at: nat, keyframe: bool, pts: int, dts: int, slices: seq<seq<byte>>, sps: seq<byte>,
                      pps: seq<byte>)
    requires forall k | 0 <= k < |slices| :: Sound(slices[k]) && Carried(slices[k]) && |slices[k]| < 0x1_0000_0000
    requires Sound(sps) && Sound(pps)
    ensures Decodes(Message(at, TagHeader(keyframe, pts, dts) + Sample(slices)), Config(4, [sps], [pps]), keyframe,
                    [DELIMITER] + (if keyframe then [sps, pps] else []) + slices)
  {
    hide ParseVideoTag, AvccUnits, LongCoded, Units, Sample, TagHeader, KeptOf, Sound, Carried, ToMs;
    var c := Config(4, [sps], [pps]);
    TagReadsBack(keyframe, pts, dts, Sample(slices));
    forall k | 0 <= k < |slices|
      ensures 0 < |slices[k]|
    {
      SoundIsNotEmpty(slices[k]);
    }
    SampleUnits([], slices);
    assert [] + Sample(slices) == Sample(slices);
    CarriedAreKept(slices, keyframe);
    DelimiterIsSound();
    var units := Preface(c, keyframe) + slices;
    LongCodedTwo(Preface(c, keyframe), slices);
    SplitsLongCoded(units);
    assert Preface(c, keyframe) == [DELIMITER] + (if keyframe then [sps, pps] else []);
  }

  lemma DelimiterIsSound()
    ensures Sound(DELIMITER)
  {
  }

  /** Over every run of the feed, gaps included, and for any further access unit: its slices, in order and
      unchanged, are what the segmenter writes for it, behind a delimiter and, on a keyframe, the
      parameter sets it holds; and those are the access unit's own whenever it brings a complete
      pair. Nothing is sent for it only while no configuration is known or when it has no slice. */
  lemma AccessUnitSurvives(inputs: seq<Input>, x: Input)
    requires x.AccessUnit? && |x.annexb| < 0x1_0000_0000
    ensures var f, nals := Fed(inputs + [x]), Units(x.annexb);
            && Held(f.sent) == (if f.configSent then Some(Config(4, [f.sps], [f.pps])) else None)
            && (Complete(FirstOf(nals, SPS), FirstOf(nals, PPS)) ==>
                  f.configSent && f.sps == FirstOf(nals, SPS) && f.pps == FirstOf(nals, PPS))
            && (f.configSent && Slices(nals) != [] ==>
                  && f.sent != [] && f.sent[|f.sent| - 1].Message?
                  && f.sent[|f.sent| - 1].at == (if x.dts < 0 then 0 else x.dts / 90) % 0x1_0000_0000
                  && Decodes(f.sent[|f.sent| - 1], Config(4, [f.sps], [f.pps]), x.keyframe,
                             [DELIMITER] + (if x.keyframe then [f.sps, f.pps] else []) + Slices(nals)))
            && (!f.configSent || Slices(nals) == [] ==> f == Configured(Fed(inputs), nals, x.dts))
  {
    hide Held, Sound, Configured, TagHeader, Units, CarriedOf, Sample, Decodes, FirstOf, Carried, Complete;
    var f, nals := Fed(inputs), Units(x.annexb);
    assert (inputs + [x])[..|inputs|] == inputs;
    FedInStep(inputs);
    FedInStep(inputs + [x]);
    UnitsAreSound(x.annexb);
    CarriedAreSlices(nals);
    ConfiguredInStep(f, nals, x.dts);
    var g := Configured(f, nals, x.dts);
    if g.configSent && CarriedOf(nals) != [] {
      CarriedAreSound(nals);
      CarriedAreShort(x.annexb);
      SampleDecodes(Stamp(x.dts), x.keyframe, x.pts, x.dts, CarriedOf(nals), g.sps, g.pps);
    }
  }

  lemma {:induction false} UnitsAreShort(s: seq<byte>, i: nat)
    requires i <= |s| && (i < |s| ==> CodeLength(s, i) > 0)
    ensures forall k | 0 <= k < |UnitsFrom(s, i)| :: |UnitsFrom(s, i)[k]| <= |s|
    decreases |s| - i
  {
    hide CodeLength, NextCode;
    if i < |s| {
      UnitsAreShort(s, NextCode(s, i + CodeLength(s, i)));
    }
  }

  lemma CarriedAreShort(s: seq<byte>)
    requires |s| < 0x1_0000_0000
    ensures forall k | 0 <= k < |CarriedOf(Units(s))| :: |CarriedOf(Units(s))[k]| < 0x1_0000_0000
  {
    hide CodeLength, NextCode, UnitsFrom, CarriedOf;
    UnitsAreShort(s, NextCode(s, 0));
    CarriedFit(Units(s));
  }
}
