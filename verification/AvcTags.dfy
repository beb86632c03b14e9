/** Video messages as the segmenter takes them apart again (`parse_video_tag`,
    `parse_decoder_config`, `avcc_to_annexb`). */
module AvcTags {
  import opened Prelude
  import opened Media
  import opened AnnexB

  const KEY_FRAME := 1   // FLV frame type
  const AVC := 7         // FLV codec id
  const HEADER := 0      // AVCPacketType of a decoder configuration
  const NALU := 1        // and of a sample

  /** Big-endian, `width` bytes at `offset`. */
  function ReadBe(data: seq<byte>, offset: nat, width: nat): nat
    requires offset + width <= |data|
  {
    if width == 0 then 0 else 256 * ReadBe(data, offset, width - 1) + data[offset + width - 1]
  }

  /** read_be */
  method ReadBigEndian(data: seq<byte>, offset: nat, width: nat) returns (value: nat)
    requires offset + width <= |data|
    ensures value == ReadBe(data, offset, width)
  {
    value := 0;
    for i := 0 to width
      invariant value == ReadBe(data, offset, i)
    {
      value := 256 * value + data[offset + i];
    }
  }

  // ---------------------------------------------------------------- the header

  datatype VideoTag = VideoTag(keyframe: bool, packetType: nat, compositionMs: int, body: seq<byte>)

  /** A 24-bit number as a signed one. */
  function Signed24(n: nat): int {
    if n >= 0x80_0000 then n - 0x100_0000 else n
  }

  /** parse_video_tag */
  function ParseVideoTag(payload: seq<byte>): Option<VideoTag> {
    if |payload| < 5 || payload[0] % 16 != AVC then None
    else Some(VideoTag(payload[0] / 16 % 16 == KEY_FRAME, payload[1], Signed24(ReadBe(payload, 2, 3)), payload[5..]))
  }

  lemma ReadThree(data: seq<byte>, offset: nat)
    requires offset + 3 <= |data|
    ensures ReadBe(data, offset, 3) ==
            0x1_0000 * (data[offset] as int) + 0x100 * (data[offset + 1] as int) + data[offset + 2] as int
  {
    assert ReadBe(data, offset, 1) == data[offset];
    assert ReadBe(data, offset, 2) == 256 * (data[offset] as int) + data[offset + 1] as int;
  }

  /** Division by ninety as C++ does it, towards zero. */
  lemma ToMsTruncates(ticks: int)
    ensures ticks >= 0 ==> 90 * ToMs(ticks) <= ticks < 90 * (ToMs(ticks) + 1)
    ensures ticks <= 0 ==> 90 * (ToMs(ticks) - 1) < ticks <= 90 * ToMs(ticks)
  {
  }

  /** A sample's header is read back: the frame type, the packet type, and the composition time,
      which comes back as it was if and only if it fits 24 bits with its sign, and otherwise
      differs by a multiple of 2^24. */
  lemma TagReadsBack(keyframe: bool, pts: int, dts: int, sample: seq<byte>)
    ensures var tag, cts := ParseVideoTag(TagHeader(keyframe, pts, dts) + sample), ToMs(pts - dts);
            && tag.Some? && tag.value.keyframe == keyframe && tag.value.packetType == NALU && tag.value.body == sample
            && (tag.value.compositionMs == cts <==> -0x80_0000 <= cts < 0x80_0000)
            && (tag.value.compositionMs - cts) % 0x100_0000 == 0 && -0x80_0000 <= tag.value.compositionMs < 0x80_0000
  {
    hide ToMs;
    var payload := TagHeader(keyframe, pts, dts) + sample;
    assert payload[5..] == sample;
    ReadThree(payload, 2);
    var low := ToMs(pts - dts) % 0x100_0000;
    ThreeBytes(low);
    assert ReadBe(payload, 2, 3) == low;
  }

  lemma ThreeBytes(n: nat)
    requires n < 0x100_0000
    ensures 0x1_0000 * (n / 0x1_0000 % 256) + 0x100 * (n / 0x100 % 256) + n % 256 == n
  {
    assert n / 0x1_0000 < 256;
    assert n / 0x100 == 256 * (n / 0x1_0000) + n / 0x100 % 256;
    assert n == 256 * (n / 0x100) + n % 256;
  }

  // ------------------------------------------------------------- configurations

  datatype Config = Config(lengthSize: nat, sps: seq<seq<byte>>, pps: seq<seq<byte>>)

  /** `count` parameter sets, each behind its 16-bit length, and where they end. */
  function ReadSets(record: seq<byte>, offset: nat, count: nat): (r: Option<(seq<seq<byte>>, nat)>)
    ensures r.Some? ==> |r.value.0| == count && offset <= r.value.1
    decreases count
  {
    if count == 0 then Some(([], offset))
    else if offset + 2 > |record| then None
    else
      var start := offset + 2;
      var end := start + ReadBe(record, offset, 2);
      if end > |record| then None
      else match ReadSets(record, end, count - 1)
        case None => None
        case Some(rest) => Some(([record[start..end]] + rest.0, rest.1))
  }

  /** parse_decoder_config */
  function ParseConfig(record: seq<byte>): Option<Config> {
    if |record| < 6 then None
    else match ReadSets(record, 6, record[5] % 32)
      case None => None
      case Some(sps) =>
        if sps.1 >= |record| then None
        else match ReadSets(record, sps.1 + 1, record[sps.1])
          case None => None
          case Some(pps) =>
            if sps.0 == [] || pps.0 == [] then None else Some(Config(record[4] % 4 + 1, sps.0, pps.0))
  }

  /** More sets in front of those read. */
  function Behind(sets: seq<seq<byte>>, r: Option<(seq<seq<byte>>, nat)>): Option<(seq<seq<byte>>, nat)> {
    match r
    case None => None
    case Some(rest) => Some((sets + rest.0, rest.1))
  }

  /** The two loops of parse_decoder_config. */
  method ReadParameterSets(record: seq<byte>, from: nat, count: nat) returns (r: Option<(seq<seq<byte>>, nat)>)
    ensures r == ReadSets(record, from, count)
  {
    hide ReadBe;
    var sets: seq<seq<byte>>, offset: nat := [], from;
    ghost var all := ReadSets(record, from, count);
    assert all.Some? ==> [] + all.value.0 == all.value.0;
    for i := 0 to count
      invariant all == Behind(sets, ReadSets(record, offset, count - i))
    {
      if offset + 2 > |record| {
        return None;
      }
      var length := ReadBigEndian(record, offset, 2);
      var start := offset + 2;
      if start + length > |record| {
        return None;
      }
      ghost var rest := ReadSets(record, start + length, count - i - 1);
      if rest.Some? {
        assert sets + ([record[start..start + length]] + rest.value.0) ==
               sets + [record[start..start + length]] + rest.value.0;
      }
      sets := sets + [record[start..start + length]];
      offset := start + length;
    }
    assert sets + [] == sets;
    r := Some((sets, offset));
  }

  method ParseDecoderConfig(record: seq<byte>) returns (r: Option<Config>)
    ensures r == ParseConfig(record)
  {
    hide ReadSets;
    if |record| < 6 {
      return None;
    }
    var sps := ReadParameterSets(record, 6, record[5] % 32);
    if sps.None? || sps.value.1 >= |record| {
      return None;
    }
    var pps := ReadParameterSets(record, sps.value.1 + 1, record[sps.value.1]);
    if pps.None? || sps.value.0 == [] || pps.value.0 == [] {
      return None;
    }
    r := Some(Config(record[4] % 4 + 1, sps.value.0, pps.value.0));
  }

  function U16Bytes(n: nat): seq<byte> {
    [n / 0x100 % 256, n % 256]
  }

  /** The AVCDecoderConfigurationRecord push_video writes. */
  function ConfigRecord(sps: seq<byte>, pps: seq<byte>): seq<byte>
    requires |sps| >= 4
  {
    [1, sps[1], sps[2], sps[3], 0xFF, 0xE1] + U16Bytes(|sps|) + sps + [1] + U16Bytes(|pps|) + pps
  }

  /** The parameter sets fit the record. */
  predicate Complete(sps: seq<byte>, pps: seq<byte>) {
    4 <= |sps| <= 0xFFFF && 0 < |pps| <= 0xFFFF
  }

  lemma OneSet(before: seq<byte>, nal: seq<byte>, rest: seq<byte>)
    requires |nal| <= 0xFFFF
    ensures ReadSets(before + U16Bytes(|nal|) + nal + rest, |before|, 1) == Some(([nal], |before| + 2 + |nal|))
  {
    var record, n := before + U16Bytes(|nal|) + nal + rest, |before|;
    assert record[n] == |nal| / 0x100 % 256 && record[n + 1] == |nal| % 256;
    assert ReadBe(record, n, 1) == record[n];
    assert ReadBe(record, n, 2) == |nal|;
    assert record[n + 2..n + 2 + |nal|] == nal;
    assert ReadSets(record, n + 2 + |nal|, 0) == Some(([], n + 2 + |nal|));
    assert [nal] + [] == [nal];
  }

  /** The record reads back as its two parameter sets, with 4-byte lengths, and names version 1
      and the profile and level the first of them does. */
  lemma ConfigReadsBack(sps: seq<byte>, pps: seq<byte>)
    requires Complete(sps, pps)
    ensures ParseConfig(ConfigRecord(sps, pps)) == Some(Config(4, [sps], [pps]))
    ensures ConfigRecord(sps, pps)[0] == 1 && ConfigRecord(sps, pps)[1..4] == sps[1..4]
  {
    hide ReadSets;
    var record := ConfigRecord(sps, pps);
    var head := [1, sps[1], sps[2], sps[3], 0xFF, 0xE1];
    var tail := [1] + U16Bytes(|pps|) + pps;
    assert record == head + U16Bytes(|sps|) + sps + tail;
    OneSet(head, sps, tail);
    var middle := head + U16Bytes(|sps|) + sps + [1];
    assert record == middle + U16Bytes(|pps|) + pps + [];
    OneSet(middle, pps, []);
    assert record[|middle| - 1] == 1 && record[4] == 0xFF && record[5] == 0xE1;
  }

  /** The message that carries it. */
  function ConfigBody(sps: seq<byte>, pps: seq<byte>): seq<byte>
    requires |sps| >= 4
  {
    [0x17, 0, 0, 0, 0] + ConfigRecord(sps, pps)
  }

  lemma ConfigBodyReadsBack(sps: seq<byte>, pps: seq<byte>)
    requires |sps| >= 4
    ensures ParseVideoTag(ConfigBody(sps, pps)) == Some(VideoTag(true, HEADER, 0, ConfigRecord(sps, pps)))
  {
    hide ConfigRecord;
    var payload := ConfigBody(sps, pps);
    ReadThree(payload, 2);
    assert payload[5..] == ConfigRecord(sps, pps);
  }

  // -------------------------------------------------------------------- samples

  /** The units of a sample with `size`-byte lengths; empty ones say nothing. */
  function AvccUnits(sample: seq<byte>, size: nat, offset: nat): Option<seq<seq<byte>>>
    requires size > 0
    decreases |sample| - offset
  {
    if offset >= |sample| then Some([])
    else if offset + size > |sample| then None
    else
      var start := offset + size;
      var end := start + ReadBe(sample, offset, size);
      if end == start then AvccUnits(sample, size, start)
      else if end > |sample| then None
      else match AvccUnits(sample, size, end)
        case None => None
        case Some(rest) => Some([sample[start..end]] + rest)
  }

  /** A unit the muxer does not supply itself. */
  predicate Kept(nal: seq<byte>, insert: bool) {
    nal != [] && nal[0] % 32 != AUD && !(insert && (nal[0] % 32 == SPS || nal[0] % 32 == PPS))
  }

  function KeptOf(nals: seq<seq<byte>>, insert: bool): seq<seq<byte>> {
    if nals == [] then [] else (if Kept(nals[0], insert) then [nals[0]] else []) + KeptOf(nals[1..], insert)
  }

  /** Every unit behind a 4-byte start code. */
  function LongCoded(nals: seq<seq<byte>>): seq<byte> {
    if nals == [] then [] else Code(true) + nals[0] + LongCoded(nals[1..])
  }

  const DELIMITER: seq<byte> := [0x09, 0xF0]

  /** What goes in front of a sample's own units. */
  function Preface(c: Config, insert: bool): seq<seq<byte>> {
    [DELIMITER] + if insert then c.sps + c.pps else []
  }

  /** avcc_to_annexb */
  function ToAnnexB(sample: seq<byte>, c: Config, insert: bool): Option<seq<byte>> {
    if c.lengthSize < 1 || c.lengthSize > 4 then None
    else match AvccUnits(sample, c.lengthSize, 0)
      case None => None
      case Some(nals) => Some(LongCoded(Preface(c, insert)) + LongCoded(KeptOf(nals, insert)))
  }

  function Framed4(nals: seq<seq<byte>>): seq<Framed> {
    seq(|nals|, i requires 0 <= i < |nals| => Framed(nals[i], true))
  }

  lemma {:induction false} LongCodedIsJoined(nals: seq<seq<byte>>)
    ensures LongCoded(nals) == Joined(Framed4(nals))
  {
    if nals != [] {
      LongCodedIsJoined(nals[1..]);
      assert Framed4(nals)[1..] == Framed4(nals[1..]);
    }
  }

  lemma {:induction false} LongCodedTwo(a: seq<seq<byte>>, b: seq<seq<byte>>)
    ensures LongCoded(a + b) == LongCoded(a) + LongCoded(b)
  {
    if a == [] {
      assert a + b == b;
    } else {
      LongCodedTwo(a[1..], b);
      assert (a + b)[1..] == a[1..] + b;
    }
  }

  /** Behind 4-byte start codes, every sound unit is found again. */
  lemma SplitsLongCoded(nals: seq<seq<byte>>)
    requires forall i | 0 <= i < |nals| :: Sound(nals[i])
    ensures Units(LongCoded(nals)) == nals
  {
    hide Sound, Units, LongCoded, Joined, EndsInZero;
    var units := Framed4(nals);
    LongCodedIsJoined(nals);
    SplitUndoesJoinExactly(units);
    assert NoneLost(units);
    assert Nals(units) == nals;
  }

  /** The copying loop of avcc_to_annexb. */
  method AvccToAnnexB(sample: seq<byte>, c: Config, insert: bool) returns (r: Option<seq<byte>>)
    ensures r == ToAnnexB(sample, c, insert)
  {
    hide LongCoded, AvccUnits, Kept, ReadBe, Preface;
    if c.lengthSize < 1 || c.lengthSize > 4 {
      return None;
    }
    var preface := LongCoded(Preface(c, insert));
    var out, offset: nat := preface, 0;
    ghost var done: seq<seq<byte>> := [];
    ghost var all := AvccUnits(sample, c.lengthSize, 0);
    assert all.Some? ==> [] + all.value == all.value;
    NothingCoded();
    assert preface + [] == preface;
    while offset < |sample|
      invariant all == After(done, AvccUnits(sample, c.lengthSize, offset))
      invariant out == preface + LongCoded(KeptOf(done, insert))
      decreases |sample| - offset
    {
      AvccStep(sample, c.lengthSize, offset);
      if offset + c.lengthSize > |sample| {
        return None;
      }
      var length := ReadBigEndian(sample, offset, c.lengthSize);
      offset := offset + c.lengthSize;
      if length > 0 {
        if offset + length > |sample| {
          return None;
        }
        var nal := sample[offset..offset + length];
        AfterOne(done, nal, AvccUnits(sample, c.lengthSize, offset + length));
        KeptOne(done, nal, insert);
        OneMoreCoded(KeptOf(done, insert), nal);
        if Kept(nal, insert) {
          Joining(preface, LongCoded(KeptOf(done, insert)), Code(true) + nal);
          out := out + (Code(true) + nal);
        }
        done := done + [nal];
        offset := offset + length;
      }
    }
    AvccEnd(sample, c.lengthSize, offset);
    assert done + [] == done;
    r := Some(out);
  }

  function After(done: seq<seq<byte>>, rest: Option<seq<seq<byte>>>): Option<seq<seq<byte>>> {
    if rest.None? then None else Some(done + rest.value)
  }

  lemma AfterOne(done: seq<seq<byte>>, nal: seq<byte>, rest: Option<seq<seq<byte>>>)
    ensures After(done, if rest.None? then None else Some([nal] + rest.value)) == After(done + [nal], rest)
  {
    if rest.Some? {
      assert done + ([nal] + rest.value) == done + [nal] + rest.value;
    }
  }

  lemma AvccStep(sample: seq<byte>, size: nat, offset: nat)
    requires 0 < size && offset < |sample|
    ensures AvccUnits(sample, size, offset) ==
            if offset + size > |sample| then None
            else
              var start := offset + size;
              var end := start + ReadBe(sample, offset, size);
              if end == start then AvccUnits(sample, size, start)
              else if end > |sample| then None
              else
                var rest := AvccUnits(sample, size, end);
                if rest.None? then None else Some([sample[start..end]] + rest.value)
  {
    hide ReadBe;
  }

  lemma AvccEnd(sample: seq<byte>, size: nat, offset: nat)
    requires 0 < size && offset >= |sample|
    ensures AvccUnits(sample, size, offset) == Some([])
  {
  }

  lemma NothingCoded()
    ensures LongCoded([]) == []
  {
  }

  lemma {:induction false} KeptOne(nals: seq<seq<byte>>, nal: seq<byte>, insert: bool)
    ensures KeptOf(nals + [nal], insert) ==
            if Kept(nal, insert) then KeptOf(nals, insert) + [nal] else KeptOf(nals, insert)
  {
    hide Kept;
    if nals == [] {
      assert nals + [nal] == [nal] && [nal][1..] == [];
    } else {
      KeptOne(nals[1..], nal, insert);
      assert (nals + [nal])[1..] == nals[1..] + [nal];
    }
  }

  lemma OneMoreCoded(nals: seq<seq<byte>>, nal: seq<byte>)
    ensures LongCoded(nals + [nal]) == LongCoded(nals) + (Code(true) + nal)
  {
    LongCodedTwo(nals, [nal]);
    assert [nal][1..] == [];
    assert LongCoded([nal]) == Code(true) + nal + [];
  }

  lemma Joining(a: seq<byte>, b: seq<byte>, x: seq<byte>)
    ensures a + (b + x) == a + b + x
  {
  }
}
