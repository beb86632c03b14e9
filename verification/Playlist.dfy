/** Media playlists: the text `build_media_playlist` prints, and the reading a player
    gives it by RFC 8216 (sections 4.3.2.3, 4.3.2.4, 4.3.3.2 and 4.3.3.3). */
module Playlist {
  import opened Prelude
  import opened Media
  import opened Text
  import opened KeyTag
  import opened Decimal
  import StoreParts

  /** MediaPlaylistOptions. Seconds are held in thousandths, as they are printed. */
  datatype Options = Options(
    targetSeconds: nat,
    version: nat,
    discontinuitySequence: nat,
    ended: bool,
    uriPrefix: string,
    emitServerControl: bool,
    holdBackMs: nat,
    lowLatency: bool,
    partTargetMs: nat,
    partHoldBackMs: nat,
    partWindow: nat,
    openParts: seq<Part>,
    preloadHint: string
  )

  const MEDIA_SEQUENCE := "#EXT-X-MEDIA-SEQUENCE:"
  const DISCONTINUITY_SEQUENCE := "#EXT-X-DISCONTINUITY-SEQUENCE:"
  const DISCONTINUITY := "#EXT-X-DISCONTINUITY"
  const KEY := "#EXT-X-KEY:"

  // ------------------------------------------------------------------- builder

  /** "%.3f" of a whole number of thousandths. */
  function Seconds(ms: nat): string {
    Print(ms / 1000) + "." + [DigitChar(ms / 100 % 10), DigitChar(ms / 10 % 10), DigitChar(ms % 10)]
  }

  function Larger(a: nat, b: nat): nat {
    if a < b then b else a
  }

  /** TARGETDURATION: the configured value, raised to the longest segment rounded up. */
  function Target(segments: seq<Segment>, configured: nat): nat {
    if segments == [] then configured
    else Larger(Target(segments[..|segments| - 1], configured), (segments[|segments| - 1].duration + 999) / 1000)
  }

  function PartLine(part: Part, uriPrefix: string): string {
    "#EXT-X-PART:DURATION=" + Seconds(part.duration) + ",URI=\"" + uriPrefix + part.name + "\"" +
    if part.independent then ",INDEPENDENT=YES" else ""
  }

  function PartLines(parts: seq<Part>, uriPrefix: string): seq<string> {
    if parts == [] then [] else PartLines(parts[..|parts| - 1], uriPrefix) + [PartLine(parts[|parts| - 1], uriPrefix)]
  }

  function HoldBack(o: Options, target: nat): string {
    if o.holdBackMs > 0 then ",HOLD-BACK=" + Seconds(Larger(o.holdBackMs, 3000 * target)) else ""
  }

  function PartHoldBack(o: Options): string {
    if o.lowLatency && o.partTargetMs > 0
    then ",PART-HOLD-BACK=" + Seconds(Larger(o.partHoldBackMs, 3 * o.partTargetMs)) else ""
  }

  function ServerControlLine(o: Options, target: nat): string {
    "#EXT-X-SERVER-CONTROL:CAN-BLOCK-RELOAD=" +
    ((if o.lowLatency then "YES" else "NO") + HoldBack(o, target) + PartHoldBack(o))
  }

  function MediaSequence(segments: seq<Segment>): nat {
    if segments == [] then 0 else segments[0].sequence
  }

  function HeadLines(segments: seq<Segment>, o: Options): seq<string> {
    var target := Larger(Target(segments, o.targetSeconds), 1);
    ["#EXTM3U", "#EXT-X-VERSION:" + Print(if o.lowLatency then Larger(o.version, 9) else o.version),
     "#EXT-X-TARGETDURATION:" + Print(target), MEDIA_SEQUENCE + Print(MediaSequence(segments))] +
    (if o.discontinuitySequence > 0 then [DISCONTINUITY_SEQUENCE + Print(o.discontinuitySequence)] else []) +
    (if o.emitServerControl then [ServerControlLine(o, target)] else []) +
    (if o.lowLatency && o.partTargetMs > 0 then ["#EXT-X-PART-INF:PART-TARGET=" + Seconds(o.partTargetMs)] else [])
  }

  /** active_key and key_tag_written before the n-th segment is printed. */
  datatype KeyState = KeyState(written: bool, active: Option<KeyInfo>)

  /** A key tag goes before a segment whose key differs from the one in force, except
      that nothing is written while the playlist has been in the clear from the start. */
  predicate WritesKey(k: KeyState, key: Option<KeyInfo>) {
    (!k.written || k.active != key) && (key.Some? || k.written)
  }

  function NextKey(k: KeyState, key: Option<KeyInfo>): KeyState {
    if !k.written || k.active != key then KeyState(k.written || key.Some?, key) else k
  }

  function KeyBefore(segments: seq<Segment>, n: nat): KeyState
    requires n <= |segments|
  {
    if n == 0 then KeyState(false, None) else NextKey(KeyBefore(segments, n - 1), segments[n - 1].key)
  }

  function FirstPartSegment(count: nat, o: Options): nat {
    if o.lowLatency && count > o.partWindow then count - o.partWindow else 0
  }

  function TagLines(s: Segment, writesKey: bool): seq<string> {
    (if writesKey then [KEY + KeyText(s.key)] else []) + (if s.discontinuity then [DISCONTINUITY] else [])
  }

  function SegmentLines(segments: seq<Segment>, i: nat, o: Options): seq<string>
    requires i < |segments|
  {
    var s := segments[i];
    TagLines(s, WritesKey(KeyBefore(segments, i), s.key)) +
    (if o.lowLatency && i >= FirstPartSegment(|segments|, o) then PartLines(s.parts, o.uriPrefix) else []) +
    MediaLines(s, o.uriPrefix)
  }

  function MediaLines(s: Segment, uriPrefix: string): seq<string> {
    ["#EXTINF:" + Seconds(s.duration) + ",", uriPrefix + s.name]
  }

  function BodyLines(segments: seq<Segment>, n: nat, o: Options): seq<string>
    requires n <= |segments|
  {
    if n == 0 then [] else BodyLines(segments, n - 1, o) + SegmentLines(segments, n - 1, o)
  }

  function TailLines(o: Options): seq<string> {
    (if o.lowLatency then PartLines(o.openParts, o.uriPrefix) else []) +
    (if o.lowLatency && o.preloadHint != ""
     then ["#EXT-X-PRELOAD-HINT:TYPE=PART,URI=\"" + o.uriPrefix + o.preloadHint + "\""] else []) +
    (if o.ended then ["#EXT-X-ENDLIST"] else [])
  }

  function AllLines(segments: seq<Segment>, o: Options): seq<string> {
    HeadLines(segments, o) + BodyLines(segments, |segments|, o) + TailLines(o)
  }

  // -------------------------------------------------------------------- player

  /** One media segment as a player sees it. */
  datatype Entry = Entry(sequence: nat, discontinuity: nat, key: Option<KeyInfo>, uri: string)

  datatype Player = Player(sequence: nat, discontinuity: nat, key: Option<KeyInfo>, entries: seq<Entry>)

  function Number(s: string): nat {
    if AllDigits(s) then Value(s) else 0
  }

  function Feed(p: Player, line: string): Player {
    if StartsWith(line, MEDIA_SEQUENCE) then p.(sequence := Number(line[|MEDIA_SEQUENCE|..]))
    else if StartsWith(line, DISCONTINUITY_SEQUENCE) then p.(discontinuity := Number(line[|DISCONTINUITY_SEQUENCE|..]))
    else if line == DISCONTINUITY then p.(discontinuity := p.discontinuity + 1)
    else if StartsWith(line, KEY) then p.(key := DecodeKey(line[|KEY|..]))
    else if line == "" || line[0] == '#' then p
    else p.(sequence := p.sequence + 1, entries := p.entries + [Entry(p.sequence, p.discontinuity, p.key, line)])
  }

  function FeedAll(p: Player, lines: seq<string>): Player {
    if lines == [] then p else Feed(FeedAll(p, lines[..|lines| - 1]), lines[|lines| - 1])
  }

  /** What a player makes of a playlist's text. */
  function Read(text: string): seq<Entry> {
    FeedAll(Player(0, 0, None, []), Split(text, '\n')).entries
  }

  lemma {:induction false} FeedTwoParts(p: Player, a: seq<string>, b: seq<string>)
    ensures FeedAll(p, a + b) == FeedAll(FeedAll(p, a), b)
  {
    if b == [] {
      assert a + b == a;
    } else {
      assert (a + b)[..|a + b| - 1] == a + b[..|b| - 1];
      FeedTwoParts(p, a, b[..|b| - 1]);
    }
  }

  lemma FeedOne(p: Player, line: string)
    ensures FeedAll(p, [line]) == Feed(p, line)
  {
    assert [line][..0] == [];
  }

  /** The tag names of the lines a player acts on here. */
  predicate Ignored(line: string) {
    && line != "" && line[0] == '#'
    && !StartsWith(line, MEDIA_SEQUENCE) && !StartsWith(line, DISCONTINUITY_SEQUENCE)
    && line != DISCONTINUITY && !StartsWith(line, KEY)
  }

  lemma {:induction false} FeedIgnored(p: Player, lines: seq<string>)
    requires forall i | 0 <= i < |lines| :: Ignored(lines[i])
    ensures FeedAll(p, lines) == p
  {
    if lines != [] {
      FeedIgnored(p, lines[..|lines| - 1]);
    }
  }

  /** A line that differs from "#EXT-X-DISCONTINUITY", "-KEY:" and "-MEDIA-SEQUENCE" at
      the first letter of the tag name, or has none of their "#EXT-X-". */
  lemma IgnoredByLetter(line: string)
    requires |line| >= 7 && line[0] == '#'
    requires line[4] != '-' || |line| < 8 || (line[7] != 'M' && line[7] != 'D' && line[7] != 'K')
    ensures Ignored(line)
  {
    assert MEDIA_SEQUENCE[4] == '-' && MEDIA_SEQUENCE[7] == 'M';
    assert DISCONTINUITY_SEQUENCE[4] == '-' && DISCONTINUITY_SEQUENCE[7] == 'D';
    assert DISCONTINUITY[4] == '-' && DISCONTINUITY[7] == 'D';
    assert KEY[4] == '-' && KEY[7] == 'K';
  }

  // ------------------------------------------------------------------- reading

  /** The player's view of the first n segments of a window. */
  function Seen(segments: seq<Segment>, n: nat, media: nat, disc: nat, uriPrefix: string): seq<Entry>
    requires n <= |segments|
  {
    if n == 0 then []
    else Seen(segments, n - 1, media, disc, uriPrefix) +
         [Entry(media + n - 1, disc + StoreParts.Flagged(segments[..n]), Effective(segments[n - 1].key),
                uriPrefix + segments[n - 1].name)]
  }

  /** A segment that fits on its lines: no line break, and its URI line is no comment. */
  predicate Plain(s: Segment, uriPrefix: string) {
    && WellFormed(s.key)
    && '\n' !in s.name && '\n' !in uriPrefix
    && (uriPrefix + s.name) != "" && (uriPrefix + s.name)[0] != '#'
    && forall i | 0 <= i < |s.parts| :: '\n' !in s.parts[i].name
  }

  lemma ReadNumber(p: Player, n: nat)
    ensures Feed(p, MEDIA_SEQUENCE + Print(n)) == p.(sequence := n)
    ensures Feed(p, DISCONTINUITY_SEQUENCE + Print(n)) == p.(discontinuity := n)
  {
    ValueOfPrint(n);
    var m, d := MEDIA_SEQUENCE + Print(n), DISCONTINUITY_SEQUENCE + Print(n);
    assert m[|MEDIA_SEQUENCE|..] == Print(n);
    assert d[|DISCONTINUITY_SEQUENCE|..] == Print(n);
    assert d[7] != MEDIA_SEQUENCE[7];
  }

  lemma ReadKey(p: Player, key: Option<KeyInfo>)
    requires WellFormed(key)
    ensures Feed(p, KEY + KeyText(key)) == p.(key := Effective(key))
  {
    hide DecodeKey, KeyText, Effective, Number;
    KeyTagRoundTrip(key);
    var line := KEY + KeyText(key);
    assert line[|KEY|..] == KeyText(key);
    assert line[7] == 'K' && MEDIA_SEQUENCE[7] == 'M' && DISCONTINUITY_SEQUENCE[7] == 'D' && DISCONTINUITY[7] == 'D';
  }

  lemma ReadFlag(p: Player)
    ensures Feed(p, DISCONTINUITY) == p.(discontinuity := p.discontinuity + 1)
  {
    hide DecodeKey, Number;
    assert DISCONTINUITY[7] == 'D' && MEDIA_SEQUENCE[7] == 'M';
  }

  lemma ReadTags(p: Player, s: Segment, writesKey: bool)
    requires WellFormed(s.key)
    ensures FeedAll(p, TagLines(s, writesKey)) ==
            p.(key := if writesKey then Effective(s.key) else p.key,
               discontinuity := p.discontinuity + if s.discontinuity then 1 else 0)
  {
    hide Feed, KeyText, WellFormed, Effective;
    var key := if writesKey then [KEY + KeyText(s.key)] else [];
    var flag := if s.discontinuity then [DISCONTINUITY] else [];
    FeedTwoParts(p, key, flag);
    FeedOne(p, KEY + KeyText(s.key));
    ReadKey(p, s.key);
    FeedOne(FeedAll(p, key), DISCONTINUITY);
    ReadFlag(FeedAll(p, key));
  }

  lemma {:induction false} PartLinesIgnored(parts: seq<Part>, uriPrefix: string)
    ensures forall i | 0 <= i < |PartLines(parts, uriPrefix)| :: Ignored(PartLines(parts, uriPrefix)[i])
  {
    if parts != [] {
      PartLinesIgnored(parts[..|parts| - 1], uriPrefix);
      var line := PartLine(parts[|parts| - 1], uriPrefix);
      assert line[7] == 'P';
      IgnoredByLetter(line);
    }
  }

  lemma FeedUri(p: Player, uri: string)
    requires uri != "" && uri[0] != '#'
    ensures Feed(p, uri) ==
            p.(sequence := p.sequence + 1, entries := p.entries + [Entry(p.sequence, p.discontinuity, p.key, uri)])
  {
    hide DecodeKey, Number;
    assert MEDIA_SEQUENCE[0] == '#' && DISCONTINUITY_SEQUENCE[0] == '#' && DISCONTINUITY[0] == '#' && KEY[0] == '#';
    assert forall t :: t != "" && StartsWith(uri, t) ==> uri[0] == t[0];
  }

  lemma ReadMedia(p: Player, s: Segment, uriPrefix: string)
    requires uriPrefix + s.name != "" && (uriPrefix + s.name)[0] != '#'
    ensures FeedAll(p, MediaLines(s, uriPrefix)) ==
            p.(sequence := p.sequence + 1,
               entries := p.entries + [Entry(p.sequence, p.discontinuity, p.key, uriPrefix + s.name)])
  {
    hide Seconds, Feed, FeedAll, Ignored;
    var uri := uriPrefix + s.name;
    var inf := "#EXTINF:" + Seconds(s.duration) + ",";
    assert [inf, uri] == [inf] + [uri];
    FeedTwoParts(p, [inf], [uri]);
    FeedOne(p, inf);
    IgnoredByLetter(inf);
    FeedIgnored(p, [inf]);
    FeedOne(p, uri);
    FeedUri(p, uri);
  }

  /** Whether or not a tag is written, the key in force for a segment is its own. */
  lemma KeyInForce(segments: seq<Segment>, i: nat)
    requires i < |segments|
    ensures var before := KeyBefore(segments, i);
            Effective(if WritesKey(before, segments[i].key) then segments[i].key else before.active) ==
            Effective(segments[i].key)
    ensures KeyBefore(segments, i + 1).active == segments[i].key
  {
    ClearUntilWritten(segments, i);
  }

  /** One segment's lines: its own key and discontinuity number take effect, then its
      URI becomes the next entry. */
  lemma ReadSegment(p: Player, segments: seq<Segment>, i: nat, o: Options)
    requires i < |segments| && Plain(segments[i], o.uriPrefix)
    requires p.key == Effective(KeyBefore(segments, i).active)
    ensures var s := segments[i];
            var disc := p.discontinuity + if s.discontinuity then 1 else 0;
            FeedAll(p, SegmentLines(segments, i, o)) ==
            Player(p.sequence + 1, disc, Effective(s.key),
                   p.entries + [Entry(p.sequence, disc, Effective(s.key), o.uriPrefix + s.name)])
  {
    hide Plain, WellFormed, FeedAll, TagLines, PartLines, MediaLines, KeyBefore, WritesKey, Effective,
         FirstPartSegment;
    var s := segments[i];
    var writes := WritesKey(KeyBefore(segments, i), s.key);
    var withParts := o.lowLatency && i >= FirstPartSegment(|segments|, o);
    KeyInForce(segments, i);
    PlainMeans(s, o.uriPrefix);
    ReadTags(p, s, writes);
    ReadLines(p, TagLines(s, writes), if withParts then PartLines(s.parts, o.uriPrefix) else [],
              MediaLines(s, o.uriPrefix));
    ReadParts(FeedAll(p, TagLines(s, writes)), s, withParts, o.uriPrefix);
    ReadMedia(FeedAll(p, TagLines(s, writes)), s, o.uriPrefix);
  }

  lemma PlainMeans(s: Segment, uriPrefix: string)
    requires Plain(s, uriPrefix)
    ensures WellFormed(s.key) && uriPrefix + s.name != "" && (uriPrefix + s.name)[0] != '#'
  {
  }

  lemma ReadLines(p: Player, tags: seq<string>, parts: seq<string>, media: seq<string>)
    ensures FeedAll(p, tags + parts + media) == FeedAll(FeedAll(FeedAll(p, tags), parts), media)
  {
    hide FeedAll;
    FeedTwoParts(p, tags, parts);
    FeedTwoParts(p, tags + parts, media);
  }

  lemma ReadParts(p: Player, s: Segment, withParts: bool, uriPrefix: string)
    ensures FeedAll(p, if withParts then PartLines(s.parts, uriPrefix) else []) == p
  {
    hide Ignored, PartLines, FeedAll;
    var lines := if withParts then PartLines(s.parts, uriPrefix) else [];
    PartLinesIgnored(s.parts, uriPrefix);
    FeedIgnored(p, lines);
  }

  lemma {:induction false} ClearUntilWritten(segments: seq<Segment>, n: nat)
    requires n <= |segments|
    ensures !KeyBefore(segments, n).written ==> KeyBefore(segments, n).active == None
  {
    if n > 0 {
      ClearUntilWritten(segments, n - 1);
    }
  }

  lemma {:induction false} ReadBody(p: Player, segments: seq<Segment>, n: nat, o: Options)
    requires n <= |segments| && p.key == None && p.entries == []
    requires forall i | 0 <= i < |segments| :: Plain(segments[i], o.uriPrefix)
    ensures FeedAll(p, BodyLines(segments, n, o)) ==
            Player(p.sequence + n, p.discontinuity + StoreParts.Flagged(segments[..n]),
                   Effective(KeyBefore(segments, n).active),
                   Seen(segments, n, p.sequence, p.discontinuity, o.uriPrefix))
  {
    hide Plain, SegmentLines, KeyBefore, Effective, FeedAll;
    if n == 0 {
      assert segments[..0] == [];
      NoKeyYet(p, segments);
    } else {
      ReadBody(p, segments, n - 1, o);
      var q := FeedAll(p, BodyLines(segments, n - 1, o));
      FeedTwoParts(p, BodyLines(segments, n - 1, o), SegmentLines(segments, n - 1, o));
      ReadSegment(q, segments, n - 1, o);
      KeyInForce(segments, n - 1);
      assert segments[..n][..n - 1] == segments[..n - 1];
    }
  }

  lemma NoKeyYet(p: Player, segments: seq<Segment>)
    ensures Effective(KeyBefore(segments, 0).active) == None
    ensures FeedAll(p, []) == p
  {
  }

  lemma ReadHead(segments: seq<Segment>, o: Options)
    ensures FeedAll(Player(0, 0, None, []), HeadLines(segments, o)) ==
            Player(MediaSequence(segments), o.discontinuitySequence, None, [])
  {
    hide Feed, FeedAll, Ignored, Seconds, ServerControlLine, Target, Print;
    var p := Player(0, 0, None, []);
    var target := Larger(Target(segments, o.targetSeconds), 1);
    var version := "#EXT-X-VERSION:" + Print(if o.lowLatency then Larger(o.version, 9) else o.version);
    var first := ["#EXTM3U", version, "#EXT-X-TARGETDURATION:" + Print(target)];
    var media := [MEDIA_SEQUENCE + Print(MediaSequence(segments))];
    var disc := if o.discontinuitySequence > 0 then [DISCONTINUITY_SEQUENCE + Print(o.discontinuitySequence)] else [];
    var control := if o.emitServerControl then [ServerControlLine(o, target)] else [];
    var inf := if o.lowLatency && o.partTargetMs > 0
               then ["#EXT-X-PART-INF:PART-TARGET=" + Seconds(o.partTargetMs)] else [];
    assert HeadLines(segments, o) == first + (media + (disc + (control + inf)));
    FeedTwoParts(p, first, media + (disc + (control + inf)));
    HeadLinesIgnored(o, target, version, Print(target));
    FeedIgnored(p, first);
    FeedTwoParts(p, media, disc + (control + inf));
    FeedOne(p, media[0]);
    ReadNumber(p, MediaSequence(segments));
    var q := p.(sequence := MediaSequence(segments));
    FeedTwoParts(q, disc, control + inf);
    ReadNumber(q, o.discontinuitySequence);
    FeedOne(q, DISCONTINUITY_SEQUENCE + Print(o.discontinuitySequence));
    FeedIgnored(q, []);
    FeedIgnored(q.(discontinuity := o.discontinuitySequence), control + inf);
  }

  lemma HeadLinesIgnored(o: Options, target: nat, version: string, number: string)
    requires |version| >= 15 && version[..15] == "#EXT-X-VERSION:"
    ensures Ignored("#EXTM3U") && Ignored(version) && Ignored("#EXT-X-TARGETDURATION:" + number)
    ensures Ignored(ServerControlLine(o, target)) && Ignored("#EXT-X-PART-INF:PART-TARGET=" + Seconds(o.partTargetMs))
  {
    hide Seconds, Ignored, HoldBack, PartHoldBack;
    assert version[0] == version[..15][0] && version[7] == version[..15][7];
    IgnoredByLetter(version);
    IgnoredByLetter("#EXTM3U");
    IgnoredByLetter("#EXT-X-TARGETDURATION:" + number);
    IgnoredByLetter(ServerControlLine(o, target));
    IgnoredByLetter("#EXT-X-PART-INF:PART-TARGET=" + Seconds(o.partTargetMs));
  }

  lemma TailIgnored(o: Options)
    ensures forall i | 0 <= i < |TailLines(o)| :: Ignored(TailLines(o)[i])
  {
    hide Ignored, PartLines;
    PartLinesIgnored(o.openParts, o.uriPrefix);
    var hint := "#EXT-X-PRELOAD-HINT:TYPE=PART,URI=\"" + o.uriPrefix + o.preloadHint + "\"";
    assert hint[0] == '#' && hint[7] == 'P';
    IgnoredByLetter(hint);
    IgnoredByLetter("#EXT-X-ENDLIST");
  }

  // ------------------------------------------------------------- one line each

  ghost predicate NoBreaks(lines: seq<string>) {
    forall i | 0 <= i < |lines| :: '\n' !in lines[i]
  }

  lemma SecondsOneLine(ms: nat)
    ensures '\n' !in Seconds(ms)
  {
  }

  lemma {:induction false} PartLinesNoBreaks(parts: seq<Part>, uriPrefix: string)
    requires '\n' !in uriPrefix && forall i | 0 <= i < |parts| :: '\n' !in parts[i].name
    ensures NoBreaks(PartLines(parts, uriPrefix))
  {
    hide Seconds;
    if parts != [] {
      PartLinesNoBreaks(parts[..|parts| - 1], uriPrefix);
      SecondsOneLine(parts[|parts| - 1].duration);
    }
  }

  lemma SegmentNoBreaks(segments: seq<Segment>, i: nat, o: Options)
    requires i < |segments| && Plain(segments[i], o.uriPrefix)
    ensures NoBreaks(SegmentLines(segments, i, o))
  {
    hide KeyText, Seconds, PartLines, KeyBefore, WritesKey;
    KeyTextOneLine(segments[i].key);
    SecondsOneLine(segments[i].duration);
    PartLinesNoBreaks(segments[i].parts, o.uriPrefix);
  }

  lemma {:induction false} BodyNoBreaks(segments: seq<Segment>, n: nat, o: Options)
    requires n <= |segments| && forall i | 0 <= i < |segments| :: Plain(segments[i], o.uriPrefix)
    ensures NoBreaks(BodyLines(segments, n, o))
  {
    hide SegmentLines, Plain;
    if n > 0 {
      BodyNoBreaks(segments, n - 1, o);
      SegmentNoBreaks(segments, n - 1, o);
    }
  }

  predicate PlainOptions(o: Options) {
    '\n' !in o.uriPrefix && '\n' !in o.preloadHint && forall i | 0 <= i < |o.openParts| :: '\n' !in o.openParts[i].name
  }

  lemma HeadNoBreaks(segments: seq<Segment>, o: Options)
    ensures NoBreaks(HeadLines(segments, o))
  {
    hide Seconds, Target, ServerControlLine, Print;
    var target := Larger(Target(segments, o.targetSeconds), 1);
    var version := if o.lowLatency then Larger(o.version, 9) else o.version;
    SecondsOneLine(o.partTargetMs);
    ControlOneLine(o, target);
    NumbersOneLine(version);
    NumbersOneLine(target);
    NumbersOneLine(MediaSequence(segments));
    NumbersOneLine(o.discontinuitySequence);
  }

  lemma NumbersOneLine(n: nat)
    ensures '\n' !in Print(n)
  {
  }

  lemma HoldBackOneLine(o: Options, target: nat)
    ensures '\n' !in HoldBack(o, target)
  {
    hide Seconds;
    SecondsOneLine(Larger(o.holdBackMs, 3000 * target));
  }

  lemma PartHoldBackOneLine(o: Options)
    ensures '\n' !in PartHoldBack(o)
  {
    hide Seconds;
    SecondsOneLine(Larger(o.partHoldBackMs, 3 * o.partTargetMs));
  }

  lemma ControlOneLine(o: Options, target: nat)
    ensures '\n' !in ServerControlLine(o, target)
  {
    hide HoldBack, PartHoldBack;
    HoldBackOneLine(o, target);
    PartHoldBackOneLine(o);
  }

  lemma TailNoBreaks(o: Options)
    requires PlainOptions(o)
    ensures NoBreaks(TailLines(o))
  {
    hide PartLines;
    PartLinesNoBreaks(o.openParts, o.uriPrefix);
  }

  /** A player reading the text of a playlist sees every segment once, in order, under
      its own media sequence number, its own key, and a discontinuity number that counts
      the flagged segments up to it on top of the declared start. */
  lemma PlaylistReadsBack(segments: seq<Segment>, o: Options)
    requires PlainOptions(o) && forall i | 0 <= i < |segments| :: Plain(segments[i], o.uriPrefix)
    ensures Read(Terminated(AllLines(segments, o), '\n')) ==
            Seen(segments, |segments|, MediaSequence(segments), o.discontinuitySequence, o.uriPrefix)
  {
    hide Feed, FeedAll, Ignored, HeadLines, BodyLines, TailLines, Plain, PlainOptions, Split, Terminated;
    HeadNoBreaks(segments, o);
    BodyNoBreaks(segments, |segments|, o);
    TailNoBreaks(o);
    SplitTerminated(AllLines(segments, o), '\n');
    var p := Player(0, 0, None, []);
    FeedTwoParts(p, HeadLines(segments, o) + BodyLines(segments, |segments|, o), TailLines(o));
    FeedTwoParts(p, HeadLines(segments, o), BodyLines(segments, |segments|, o));
    ReadHead(segments, o);
    var q := FeedAll(p, HeadLines(segments, o));
    ReadBody(q, segments, |segments|, o);
    TailIgnored(o);
    FeedIgnored(FeedAll(q, BodyLines(segments, |segments|, o)), TailLines(o));
  }

  /** The declared target duration covers every segment (section 4.3.3.1 of RFC 8216),
      and is no larger than the configuration or some segment asks for. */
  lemma {:induction false} TargetCoversSegments(segments: seq<Segment>, configured: nat, i: nat)
    requires i < |segments|
    ensures segments[i].duration <= 1000 * Target(segments, configured)
    ensures configured <= Target(segments, configured)
    ensures Target(segments, configured) == configured ||
            exists j :: 0 <= j < |segments| && 1000 * (Target(segments, configured) - 1) < segments[j].duration
  {
    var n := |segments| - 1;
    if n > 0 {
      TargetCoversSegments(segments[..n], configured, if i < n then i else 0);
      assert segments[i].duration <= 1000 * Target(segments, configured);
      if Target(segments, configured) == Target(segments[..n], configured) != configured {
        var j :| 0 <= j < n && 1000 * (Target(segments[..n], configured) - 1) < segments[..n][j].duration;
        assert segments[j] == segments[..n][j];
      } else if Target(segments, configured) != configured {
        assert 1000 * (Target(segments, configured) - 1) < segments[n].duration;
      }
    } else {
      assert segments[..0] == [];
    }
  }

  // ----------------------------------------------------------- building the text

  /** The part loops of build_media_playlist. */
  method AppendParts(out: string, parts: seq<Part>, uriPrefix: string) returns (r: string)
    ensures r == out + Terminated(PartLines(parts, uriPrefix), '\n')
  {
    hide PartLine;
    r := out;
    for i := 0 to |parts|
      invariant r == out + Terminated(PartLines(parts[..i], uriPrefix), '\n')
    {
      assert parts[..i + 1][..i] == parts[..i];
      TerminatedSnoc(PartLines(parts[..i], uriPrefix), PartLine(parts[i], uriPrefix), '\n');
      r := r + PartLine(parts[i], uriPrefix) + "\n";
    }
    assert parts[..|parts|] == parts;
  }

  method AppendLine(out: string, line: string, ghost lines: seq<string>) returns (r: string)
    requires out == Terminated(lines, '\n')
    ensures r == Terminated(lines + [line], '\n')
  {
    TerminatedSnoc(lines, line, '\n');
    r := out + line + "\n";
  }

  /** The tags, parts, EXTINF and URI lines of one segment. */
  method AppendSegmentLines(out: string, segments: seq<Segment>, i: nat, writesKey: bool, withParts: bool, o: Options,
                            ghost before: seq<string>) returns (r: string)
    requires i < |segments|
    requires writesKey == WritesKey(KeyBefore(segments, i), segments[i].key)
    requires withParts == (o.lowLatency && i >= FirstPartSegment(|segments|, o))
    requires out == Terminated(before, '\n')
    ensures r == Terminated(before + SegmentLines(segments, i, o), '\n')
  {
    hide KeyText, Seconds, PartLines, KeyBefore, WritesKey, Terminated, FirstPartSegment;
    var s := segments[i];
    r := out;
    ghost var lines := before;
    if writesKey {
      r := AppendLine(r, KEY + KeyText(s.key), lines);
      lines := lines + [KEY + KeyText(s.key)];
    }
    if s.discontinuity {
      r := AppendLine(r, DISCONTINUITY, lines);
      lines := lines + [DISCONTINUITY];
    }
    assert lines == before + TagLines(s, writesKey);
    if withParts {
      TerminatedConcat(lines, PartLines(s.parts, o.uriPrefix), '\n');
      r := AppendParts(r, s.parts, o.uriPrefix);
      lines := lines + PartLines(s.parts, o.uriPrefix);
    }
    r := AppendLine(r, "#EXTINF:" + Seconds(s.duration) + ",", lines);
    lines := lines + ["#EXTINF:" + Seconds(s.duration) + ","];
    r := AppendLine(r, o.uriPrefix + s.name, lines);
    assert lines + [o.uriPrefix + s.name] == before + SegmentLines(segments, i, o);
  }

  method TargetDuration(segments: seq<Segment>, configured: nat) returns (target: nat)
    ensures target == Larger(Target(segments, configured), 1)
  {
    target := configured;
    for i := 0 to |segments|
      invariant target == Target(segments[..i], configured)
    {
      assert segments[..i + 1][..i] == segments[..i];
      target := Larger(target, (segments[i].duration + 999) / 1000);
    }
    assert segments[..|segments|] == segments;
    if target == 0 {
      target := 1;
    }
  }

  /** build_media_playlist */
  method BuildMediaPlaylist(segments: seq<Segment>, o: Options) returns (out: string)
    ensures out == Terminated(AllLines(segments, o), '\n')
  {
    hide KeyText, Seconds, PartLines, WritesKey, Terminated, FirstPartSegment, SegmentLines, ServerControlLine, Target,
         Print;
    out := BuildHead(segments, o);
    var firstPartSegment := FirstPartSegment(|segments|, o);
    var active, written := None, false;
    assert HeadLines(segments, o) + [] == HeadLines(segments, o);
    for i := 0 to |segments|
      invariant KeyState(written, active) == KeyBefore(segments, i)
      invariant out == Terminated(HeadLines(segments, o) + BodyLines(segments, i, o), '\n')
    {
      var key := segments[i].key;
      var writesKey := WritesKey(KeyState(written, active), key);
      out := AppendSegmentLines(out, segments, i, writesKey, o.lowLatency && i >= firstPartSegment, o,
                                HeadLines(segments, o) + BodyLines(segments, i, o));
      assert HeadLines(segments, o) + BodyLines(segments, i + 1, o) ==
             HeadLines(segments, o) + BodyLines(segments, i, o) + SegmentLines(segments, i, o);
      if !written || active != key {
        written, active := written || key.Some?, key;
      }
    }
    ghost var lines := HeadLines(segments, o) + BodyLines(segments, |segments|, o);
    ghost var start := lines;
    if o.lowLatency {
      TerminatedConcat(lines, PartLines(o.openParts, o.uriPrefix), '\n');
      out := AppendParts(out, o.openParts, o.uriPrefix);
      lines := lines + PartLines(o.openParts, o.uriPrefix);
      if o.preloadHint != "" {
        out := AppendLine(out, "#EXT-X-PRELOAD-HINT:TYPE=PART,URI=\"" + o.uriPrefix + o.preloadHint + "\"", lines);
        lines := lines + ["#EXT-X-PRELOAD-HINT:TYPE=PART,URI=\"" + o.uriPrefix + o.preloadHint + "\""];
      }
    }
    if o.ended {
      out := AppendLine(out, "#EXT-X-ENDLIST", lines);
      lines := lines + ["#EXT-X-ENDLIST"];
    }
    assert lines == start + TailLines(o);
  }

  method BuildHead(segments: seq<Segment>, o: Options) returns (out: string)
    ensures out == Terminated(HeadLines(segments, o), '\n')
  {
    hide Seconds, Terminated, ServerControlLine, Target, Print;
    var target := TargetDuration(segments, o.targetSeconds);
    var version := if o.lowLatency then Larger(o.version, 9) else o.version;
    ghost var lines := [];
    EmptyText();
    out := AppendLine("", "#EXTM3U", lines);
    assert lines + ["#EXTM3U"] == ["#EXTM3U"];
    lines := ["#EXTM3U"];
    out := AppendLine(out, "#EXT-X-VERSION:" + Print(version), lines);
    lines := lines + ["#EXT-X-VERSION:" + Print(version)];
    out := AppendLine(out, "#EXT-X-TARGETDURATION:" + Print(target), lines);
    lines := lines + ["#EXT-X-TARGETDURATION:" + Print(target)];
    out := AppendLine(out, MEDIA_SEQUENCE + Print(MediaSequence(segments)), lines);
    lines := lines + [MEDIA_SEQUENCE + Print(MediaSequence(segments))];
    if o.discontinuitySequence > 0 {
      out := AppendLine(out, DISCONTINUITY_SEQUENCE + Print(o.discontinuitySequence), lines);
      lines := lines + [DISCONTINUITY_SEQUENCE + Print(o.discontinuitySequence)];
    }
    if o.emitServerControl {
      out := AppendLine(out, ServerControlLine(o, target), lines);
      lines := lines + [ServerControlLine(o, target)];
    }
    if o.lowLatency && o.partTargetMs > 0 {
      out := AppendLine(out, "#EXT-X-PART-INF:PART-TARGET=" + Seconds(o.partTargetMs), lines);
      lines := lines + ["#EXT-X-PART-INF:PART-TARGET=" + Seconds(o.partTargetMs)];
    }
    assert lines == HeadLines(segments, o);
  }

  lemma EmptyText()
    ensures Terminated([], '\n') == ""
  {
  }
}
