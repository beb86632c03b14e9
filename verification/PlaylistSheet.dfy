/** Everything else a player takes from a media playlist: durations, partial segments, the
    version and target duration, the server's delay hints, the preload hint and the end of the
    list (sections 4.3.2.1, 4.3.3.1 and 4.3.3.4 of RFC 8216, and the low-latency tags of its second
    edition). Read back from the printed text to the millisecond. */
module PlaylistSheet {
  import opened Prelude
  import opened Media
  import opened Text
  import opened KeyTag
  import opened Decimal
  import opened Playlist

  datatype PartSeen = PartSeen(uri: string, ms: nat, independent: bool)
  datatype SegmentSeen = SegmentSeen(uri: string, ms: nat, parts: seq<PartSeen>)
  datatype Control = Control(canBlock: bool, holdBackMs: Option<nat>, partHoldBackMs: Option<nat>)

  /** What has been read so far; `ms` and `parts` belong to the segment whose URI comes next. */
  datatype Sheet = Sheet(
    version: Option<nat>,
    target: Option<nat>,
    control: Option<Control>,
    partTargetMs: Option<nat>,
    ms: nat,
    parts: seq<PartSeen>,
    segments: seq<SegmentSeen>,
    hint: Option<string>,
    ended: bool
  )

  const BLANK := Sheet(None, None, None, None, 0, [], [], None, false)

  const VERSION := "#EXT-X-VERSION"
  const TARGET := "#EXT-X-TARGETDURATION"
  const CONTROL := "#EXT-X-SERVER-CONTROL"
  const PART_INF := "#EXT-X-PART-INF"
  const PART := "#EXT-X-PART"
  const INF := "#EXTINF"
  const HINT := "#EXT-X-PRELOAD-HINT"
  const ENDLIST := "#EXT-X-ENDLIST"

  /** A decimal number of seconds with three decimals, in milliseconds. */
  function Millis(s: string): nat {
    var dot := IndexOf(s, '.');
    if dot + 4 != |s| || !AllDigits(s[..dot]) || !AllDigits(s[dot + 1..]) then 0
    else 1000 * Value(s[..dot]) + Value(s[dot + 1..])
  }

  function Optionally(s: string): Option<nat> {
    if s == "" then None else Some(Millis(s))
  }

  /** What follows the colon of a tag. */
  function Rest(line: string): string {
    var colon := IndexOf(line, ':');
    if colon == |line| then "" else line[colon + 1..]
  }

  function ReadPart(text: string): PartSeen {
    var pairs := ParseAttributes(text);
    PartSeen(Lookup(pairs, "URI"), Millis(Lookup(pairs, "DURATION")), Lookup(pairs, "INDEPENDENT") == "YES")
  }

  function ReadControl(text: string): Control {
    var pairs := ParseAttributes(text);
    Control(Lookup(pairs, "CAN-BLOCK-RELOAD") == "YES", Optionally(Lookup(pairs, "HOLD-BACK")),
            Optionally(Lookup(pairs, "PART-HOLD-BACK")))
  }

  function Note(q: Sheet, line: string): Sheet {
    if line == "" then q
    else if line[0] != '#'
    then q.(segments := q.segments + [SegmentSeen(line, q.ms, q.parts)], ms := 0, parts := [])
    else
      var tag, rest := line[..IndexOf(line, ':')], Rest(line);
      if tag == VERSION then q.(version := Some(Number(rest)))
      else if tag == TARGET then q.(target := Some(Number(rest)))
      else if tag == CONTROL then q.(control := Some(ReadControl(rest)))
      else if tag == PART_INF then q.(partTargetMs := Some(Millis(Lookup(ParseAttributes(rest), "PART-TARGET"))))
      else if tag == PART then q.(parts := q.parts + [ReadPart(rest)])
      else if tag == INF then q.(ms := Millis(rest[..IndexOf(rest, ',')]))
      else if tag == HINT then q.(hint := Some(Lookup(ParseAttributes(rest), "URI")))
      else if tag == ENDLIST then q.(ended := true)
      else q
  }

  function NoteAll(q: Sheet, lines: seq<string>): Sheet {
    if lines == [] then q else Note(NoteAll(q, lines[..|lines| - 1]), lines[|lines| - 1])
  }

  function ReadSheet(text: string): Sheet {
    NoteAll(BLANK, Split(text, '\n'))
  }

  lemma {:induction false} NoteTwoParts(q: Sheet, a: seq<string>, b: seq<string>)
    ensures NoteAll(q, a + b) == NoteAll(NoteAll(q, a), b)
  {
    hide Note;
    if b == [] {
      assert a + b == a;
    } else {
      assert (a + b)[..|a + b| - 1] == a + b[..|b| - 1];
      NoteTwoParts(q, a, b[..|b| - 1]);
    }
  }

  lemma NoteOne(q: Sheet, line: string)
    ensures NoteAll(q, [line]) == Note(q, line) && NoteAll(q, []) == q
  {
    hide Note;
    assert [line][..0] == [];
  }

  // --------------------------------------------------------------------- times

  lemma ThreeDigits(ms: nat)
    ensures var d := [DigitChar(ms / 100 % 10), DigitChar(ms / 10 % 10), DigitChar(ms % 10)];
            AllDigits(d) && Value(d) == ms % 1000
  {
    var d := [DigitChar(ms / 100 % 10), DigitChar(ms / 10 % 10), DigitChar(ms % 10)];
    assert d[..2] == [d[0], d[1]] && d[..2][..1] == [d[0]] && d[..1][..0] == [];
    assert Value(d[..1]) == ms / 100 % 10;
    assert Value(d[..2]) == 10 * (ms / 100 % 10) + ms / 10 % 10;
    Thousandths(ms);
  }

  lemma Thousandths(ms: nat)
    ensures 100 * (ms / 100 % 10) + 10 * (ms / 10 % 10) + ms % 10 == ms % 1000
  {
    Quotient(ms, 1000, ms / 1000);
    var tens, hundreds := ms / 10, ms / 100;
    assert hundreds == tens / 10;
    assert ms / 1000 == hundreds / 10;
    assert ms == 10 * tens + ms % 10;
    assert tens == 10 * hundreds + tens % 10;
    assert hundreds == 10 * (ms / 1000) + hundreds % 10;
  }

  lemma Quotient(a: nat, d: nat, q: nat)
    requires d > 0 && q == a / d
    ensures a == d * q + a % d
  {
  }

  lemma {:induction false} NoDotIn(s: string)
    requires AllDigits(s)
    ensures '.' !in s && ',' !in s && '"' !in s && '=' !in s && ':' !in s
  {
  }

  /** A duration printed is read back to the millisecond. */
  lemma SecondsReadBack(ms: nat)
    ensures Millis(Seconds(ms)) == ms
    ensures ',' !in Seconds(ms) && '"' !in Seconds(ms) && Seconds(ms) != ""
  {
    hide Value, Print;
    var whole, d := Print(ms / 1000), [DigitChar(ms / 100 % 10), DigitChar(ms / 10 % 10), DigitChar(ms % 10)];
    var s := whole + ['.'] + d;
    assert Seconds(ms) == s;
    NoDotIn(whole);
    ThreeDigits(ms);
    NoDotIn(d);
    IndexOfFirst(whole, '.', d);
    assert s[..|whole|] == whole && s[|whole| + 1..] == d;
    ValueOfPrint(ms / 1000);
  }

  // ----------------------------------------------------------------- one line

  predicate Noted(tag: string) {
    || tag == VERSION || tag == TARGET || tag == CONTROL || tag == PART_INF || tag == PART || tag == INF || tag == HINT
    || tag == ENDLIST
  }

  /** The line of a tag falls apart at its colon. */
  lemma TagLine(tag: string, rest: string)
    requires tag != "" && ':' !in tag
    ensures var line := tag + [':'] + rest;
            line != "" && line[0] == tag[0] && line[..IndexOf(line, ':')] == tag && Rest(line) == rest
  {
    hide IndexOf;
    var line := tag + [':'] + rest;
    IndexOfFirst(tag, ':', rest);
    assert line[..|tag|] == tag && line[|tag| + 1..] == rest;
  }

  lemma BareTag(tag: string)
    requires tag != "" && ':' !in tag
    ensures tag[..IndexOf(tag, ':')] == tag && Rest(tag) == ""
  {
    IndexOfNone(tag, ':');
  }

  lemma UnnotedLine(q: Sheet, tag: string, rest: string)
    requires tag != "" && tag[0] == '#' && ':' !in tag && !Noted(tag)
    ensures Note(q, tag + [':'] + rest) == q && Note(q, tag) == q
  {
    hide IndexOf, ReadControl, ReadPart, ParseAttributes, Millis, Number, Rest;
    TagLine(tag, rest);
    BareTag(tag);
  }

  lemma TagsApart()
    ensures forall t | Noted(t) :: t != "" && t[0] == '#' && ':' !in t
    ensures !Noted("#EXTM3U") && !Noted("#EXT-X-MEDIA-SEQUENCE") && !Noted("#EXT-X-DISCONTINUITY-SEQUENCE")
    ensures !Noted("#EXT-X-DISCONTINUITY") && !Noted("#EXT-X-KEY")
    ensures VERSION != ENDLIST && TARGET != CONTROL
  {
    assert VERSION[7] == 'V' && ENDLIST[7] == 'E' && TARGET[7] == 'T' && CONTROL[7] == 'S';
    assert "#EXT-X-MEDIA-SEQUENCE"[7] == 'M' && "#EXTM3U"[4] == 'M' && INF[4] == 'I';
  }

  lemma NoteVersion(q: Sheet, n: nat)
    ensures Note(q, VERSION + [':'] + Print(n)) == q.(version := Some(n))
  {
    hide IndexOf, ReadControl, ReadPart, ParseAttributes, Millis, Rest, Print;
    TagsApart();
    TagLine(VERSION, Print(n));
    ValueOfPrint(n);
  }

  lemma NoteTarget(q: Sheet, n: nat)
    ensures Note(q, TARGET + [':'] + Print(n)) == q.(target := Some(n))
  {
    hide IndexOf, ReadControl, ReadPart, ParseAttributes, Millis, Rest, Print;
    TagsApart();
    TagLine(TARGET, Print(n));
    ValueOfPrint(n);
  }

  lemma NoteInf(q: Sheet, ms: nat)
    ensures Note(q, INF + [':'] + (Seconds(ms) + ",")) == q.(ms := ms)
  {
    hide IndexOf, ReadControl, ReadPart, ParseAttributes, Millis, Rest, Seconds, Number;
    TagsApart();
    SecondsReadBack(ms);
    var rest := Seconds(ms) + ",";
    TagLine(INF, rest);
    assert rest == Seconds(ms) + [','] + "";
    IndexOfFirst(Seconds(ms), ',', "");
    assert rest[..|Seconds(ms)|] == Seconds(ms);
  }

  lemma NoteEnd(q: Sheet)
    ensures Note(q, ENDLIST) == q.(ended := true)
  {
    hide IndexOf, ReadControl, ReadPart, ParseAttributes, Millis, Rest, Number;
    TagsApart();
    BareTag(ENDLIST);
  }

  lemma NoteUri(q: Sheet, uri: string)
    requires uri != "" && uri[0] != '#'
    ensures Note(q, uri) == q.(segments := q.segments + [SegmentSeen(uri, q.ms, q.parts)], ms := 0, parts := [])
  {
  }

  // ------------------------------------------------------------ attribute tags

  function Flag(independent: bool): string {
    if independent then "YES" else ""
  }

  function PartAttributes(part: Part, uriPrefix: string): seq<Attribute> {
    [Attribute("URI", uriPrefix + part.name, true)] + Optional("INDEPENDENT", Flag(part.independent), false)
  }

  lemma OneMoreAttribute(a: Attribute, more: seq<Attribute>)
    ensures PrintMore([a] + more) == "," + PrintAttribute(a) + PrintMore(more)
  {
    assert ([a] + more)[1..] == more;
  }

  lemma FlagText(independent: bool)
    ensures PrintMore(Optional("INDEPENDENT", Flag(independent), false)) ==
            if independent then ",INDEPENDENT=YES" else ""
  {
    if independent {
      assert Optional("INDEPENDENT", "YES", false) == [Attribute("INDEPENDENT", "YES", false)] + [];
      OneMoreAttribute(Attribute("INDEPENDENT", "YES", false), []);
    }
  }

  lemma PartText(part: Part, uriPrefix: string)
    ensures PartLine(part, uriPrefix) ==
            PART + [':'] + (PrintAttribute(Attribute("DURATION", Seconds(part.duration), false)) +
                            PrintMore(PartAttributes(part, uriPrefix)))
  {
    hide Seconds, PrintMore, Optional;
    var uri := uriPrefix + part.name;
    var flag := Optional("INDEPENDENT", Flag(part.independent), false);
    OneMoreAttribute(Attribute("URI", uri, true), flag);
    FlagText(part.independent);
    var tail := if part.independent then ",INDEPENDENT=YES" else "";
    assert PrintMore(PartAttributes(part, uriPrefix)) == ",URI=\"" + uri + "\"" + tail;
    assert PrintAttribute(Attribute("DURATION", Seconds(part.duration), false)) == "DURATION=" + Seconds(part.duration);
    Spell(Seconds(part.duration), uriPrefix, part.name, tail);
  }

  lemma Spell(time: string, uriPrefix: string, name: string, tail: string)
    ensures "#EXT-X-PART:DURATION=" + time + ",URI=\"" + uriPrefix + name + "\"" + tail ==
            PART + [':'] + (("DURATION=" + time) + (",URI=\"" + (uriPrefix + name) + "\"" + tail))
  {
  }

  predicate Quotable(part: Part, uriPrefix: string) {
    '"' !in uriPrefix && '"' !in part.name
  }

  function Seen1(part: Part, uriPrefix: string): PartSeen {
    PartSeen(uriPrefix + part.name, part.duration, part.independent)
  }

  lemma NotePart(q: Sheet, part: Part, uriPrefix: string)
    requires Quotable(part, uriPrefix)
    ensures Note(q, PartLine(part, uriPrefix)) == q.(parts := q.parts + [Seen1(part, uriPrefix)])
  {
    hide IndexOf, ReadControl, ReadPart, ParseAttributes, Millis, Rest, Number, Seconds, PrintMore, PrintAttribute;
    TagsApart();
    PartText(part, uriPrefix);
    var rest := PrintAttribute(Attribute("DURATION", Seconds(part.duration), false)) +
                PrintMore(PartAttributes(part, uriPrefix));
    TagLine(PART, rest);
    assert PART != VERSION && PART != TARGET && PART != CONTROL && PART != PART_INF;
    PartRead(part, uriPrefix, rest);
  }

  lemma OptionalPrintable(name: string, value: string)
    requires '=' !in name && ',' !in value && '"' !in value
    ensures forall i | 0 <= i < |Optional(name, value, false)| :: Printable(Optional(name, value, false)[i])
  {
  }

  lemma PartRead(part: Part, uriPrefix: string, rest: string)
    requires Quotable(part, uriPrefix)
    requires rest == PrintAttribute(Attribute("DURATION", Seconds(part.duration), false)) +
                     PrintMore(PartAttributes(part, uriPrefix))
    ensures ReadPart(rest) == Seen1(part, uriPrefix)
  {
    hide ParseAttributes, Millis, Seconds, PrintMore, PrintAttribute, Optional;
    var first, more := Attribute("DURATION", Seconds(part.duration), false), PartAttributes(part, uriPrefix);
    SecondsReadBack(part.duration);
    OptionalPrintable("INDEPENDENT", Flag(part.independent));
    ReadsAttributes(first, more);
    var flag := Optional("INDEPENDENT", Flag(part.independent), false);
    LookupSkips([first], more, "URI");
    assert [first] + more == [first, more[0]] + (flag + []);
    LookupSkips([first, more[0]], flag + [], "INDEPENDENT");
    LookupOptional("INDEPENDENT", Flag(part.independent), false, []);
  }

  /** A time written as an attribute, or an empty text. */
  function Timed(ms: Option<nat>): string {
    if ms.Some? then Seconds(ms.value) else ""
  }

  /** The larger of a time and its floor. */
  function AtLeast(ms: nat, floor: nat): nat {
    if ms >= floor then ms else floor
  }

  function Delays(o: Options, target: nat): Control {
    Control(o.lowLatency,
            if o.holdBackMs > 0 then Some(AtLeast(o.holdBackMs, 3000 * target)) else None,
            if o.lowLatency && o.partTargetMs > 0 then Some(AtLeast(o.partHoldBackMs, 3 * o.partTargetMs)) else None)
  }

  function ControlAttributes(c: Control): seq<Attribute> {
    Optional("HOLD-BACK", Timed(c.holdBackMs), false) + Optional("PART-HOLD-BACK", Timed(c.partHoldBackMs), false)
  }

  lemma TimedText(ms: Option<nat>)
    ensures Timed(ms) == "" <==> ms.None?
    ensures Optionally(Timed(ms)) == ms && ',' !in Timed(ms) && '"' !in Timed(ms)
  {
    hide Seconds, Millis;
    if ms.Some? {
      SecondsReadBack(ms.value);
    }
  }

  lemma OptionalText(name: string, value: string)
    ensures PrintMore(Optional(name, value, false)) == AsAttribute(name, value)
  {
    if value != "" {
      assert Optional(name, value, false) == [Attribute(name, value, false)] + [];
      OneMoreAttribute(Attribute(name, value, false), []);
    }
  }

  lemma TwoMore(a: seq<Attribute>, b: seq<Attribute>)
    requires |a| <= 1
    ensures PrintMore(a + b) == PrintMore(a) + PrintMore(b)
  {
    if a == [] {
      assert a + b == b;
    } else {
      assert a + b == [a[0]] + b && a == [a[0]] + [];
      OneMoreAttribute(a[0], b);
      OneMoreAttribute(a[0], []);
    }
  }

  lemma SpellControl(yes: string, hold: string, part: string)
    ensures "#EXT-X-SERVER-CONTROL:CAN-BLOCK-RELOAD=" + (yes + hold + part) ==
            CONTROL + [':'] + (PrintAttribute(Attribute("CAN-BLOCK-RELOAD", yes, false)) + (hold + part))
  {
    assert PrintAttribute(Attribute("CAN-BLOCK-RELOAD", yes, false)) == "CAN-BLOCK-RELOAD=" + yes;
  }

  lemma ControlText(o: Options, target: nat)
    ensures ServerControlLine(o, target) ==
            var first := Attribute("CAN-BLOCK-RELOAD", if o.lowLatency then "YES" else "NO", false);
            CONTROL + [':'] + (PrintAttribute(first) + PrintMore(ControlAttributes(Delays(o, target))))
  {
    hide Seconds, PrintMore, PrintAttribute, Optional, Timed, HoldBack, PartHoldBack, Delays, AsAttribute;
    var c := Delays(o, target);
    HoldBackText(o, target);
    PartHoldBackText(o, target);
    OptionalText("HOLD-BACK", Timed(c.holdBackMs));
    OptionalText("PART-HOLD-BACK", Timed(c.partHoldBackMs));
    OptionalShort("HOLD-BACK", Timed(c.holdBackMs));
    TwoMore(Optional("HOLD-BACK", Timed(c.holdBackMs), false),
            Optional("PART-HOLD-BACK", Timed(c.partHoldBackMs), false));
    SpellControl(if o.lowLatency then "YES" else "NO", HoldBack(o, target), PartHoldBack(o));
  }

  lemma OptionalShort(name: string, value: string)
    ensures |Optional(name, value, false)| <= 1
  {
  }

  function AsAttribute(name: string, value: string): string {
    if value == "" then "" else "," + name + "=" + value
  }

  lemma HoldBackText(o: Options, target: nat)
    ensures HoldBack(o, target) == AsAttribute("HOLD-BACK", Timed(Delays(o, target).holdBackMs))
  {
    hide Seconds;
    TimedText(Delays(o, target).holdBackMs);
    assert ",HOLD-BACK=" == "," + "HOLD-BACK" + "=";
  }

  lemma PartHoldBackText(o: Options, target: nat)
    ensures PartHoldBack(o) == AsAttribute("PART-HOLD-BACK", Timed(Delays(o, target).partHoldBackMs))
  {
    hide Seconds;
    TimedText(Delays(o, target).partHoldBackMs);
    assert ",PART-HOLD-BACK=" == "," + "PART-HOLD-BACK" + "=";
  }

  lemma DelaysLookup(c: Control, first: Attribute)
    requires first.name == "CAN-BLOCK-RELOAD"
    ensures var pairs := Pairs([first] + ControlAttributes(c));
            && Lookup(pairs, "CAN-BLOCK-RELOAD") == first.value && Lookup(pairs, "HOLD-BACK") == Timed(c.holdBackMs)
            && Lookup(pairs, "PART-HOLD-BACK") == Timed(c.partHoldBackMs)
  {
    hide Optional, Timed, Lookup, Pairs;
    var hold, part := Optional("HOLD-BACK", Timed(c.holdBackMs), false),
                      Optional("PART-HOLD-BACK", Timed(c.partHoldBackMs), false);
    OptionalNames("HOLD-BACK", Timed(c.holdBackMs));
    OptionalNames("PART-HOLD-BACK", Timed(c.partHoldBackMs));
    LookupSkips([first], hold + part, "HOLD-BACK");
    LookupOptional("HOLD-BACK", Timed(c.holdBackMs), false, part);
    assert [first] + (hold + part) == ([first] + hold) + (part + []);
    LookupSkips([first] + hold, part + [], "PART-HOLD-BACK");
    LookupOptional("PART-HOLD-BACK", Timed(c.partHoldBackMs), false, []);
    LookupFirst(first, hold + part);
  }

  lemma ControlRead(o: Options, target: nat)
    ensures var first := Attribute("CAN-BLOCK-RELOAD", if o.lowLatency then "YES" else "NO", false);
            ReadControl(PrintAttribute(first) + PrintMore(ControlAttributes(Delays(o, target)))) == Delays(o, target)
  {
    hide ParseAttributes, PrintMore, PrintAttribute, Optional, Timed, Optionally, Lookup, Pairs;
    var c := Delays(o, target);
    var first := Attribute("CAN-BLOCK-RELOAD", if o.lowLatency then "YES" else "NO", false);
    TimedText(c.holdBackMs);
    TimedText(c.partHoldBackMs);
    OptionalPrintable("HOLD-BACK", Timed(c.holdBackMs));
    OptionalPrintable("PART-HOLD-BACK", Timed(c.partHoldBackMs));
    ReadsAttributes(first, ControlAttributes(c));
    DelaysLookup(c, first);
  }

  lemma LookupFirst(first: Attribute, more: seq<Attribute>)
    ensures Lookup(Pairs([first] + more), first.name) == first.value
  {
  }

  lemma OptionalNames(name: string, value: string)
    ensures forall i | 0 <= i < |Optional(name, value, false)| :: Optional(name, value, false)[i].name == name
  {
  }

  lemma NoteControl(q: Sheet, o: Options, target: nat)
    ensures Note(q, ServerControlLine(o, target)) == q.(control := Some(Delays(o, target)))
  {
    hide IndexOf, ReadControl, ReadPart, ParseAttributes, Millis, Rest, Number, PrintMore, PrintAttribute, Delays,
         ServerControlLine;
    TagsApart();
    ControlText(o, target);
    ControlRead(o, target);
    var first := Attribute("CAN-BLOCK-RELOAD", if o.lowLatency then "YES" else "NO", false);
    TagLine(CONTROL, PrintAttribute(first) + PrintMore(ControlAttributes(Delays(o, target))));
  }

  lemma NotePartInf(q: Sheet, ms: nat)
    ensures Note(q, "#EXT-X-PART-INF:PART-TARGET=" + Seconds(ms)) == q.(partTargetMs := Some(ms))
  {
    hide IndexOf, ReadControl, ReadPart, ParseAttributes, Millis, Rest, Number, Seconds, PrintMore;
    TagsApart();
    SecondsReadBack(ms);
    var first := Attribute("PART-TARGET", Seconds(ms), false);
    var rest := PrintAttribute(first) + PrintMore([]);
    ReadsAttributes(first, []);
    LookupFirst(first, []);
    NoMore();
    assert "#EXT-X-PART-INF:PART-TARGET=" + Seconds(ms) == PART_INF + [':'] + rest;
    TagLine(PART_INF, rest);
    assert PART_INF != VERSION && PART_INF != TARGET && PART_INF != CONTROL;
  }

  lemma NoMore()
    ensures PrintMore([]) == ""
  {
  }

  function HintRest(uri: string): string {
    PrintAttribute(Attribute("TYPE", "PART", false)) + PrintMore([Attribute("URI", uri, true)])
  }

  lemma HintText(uri: string)
    ensures "#EXT-X-PRELOAD-HINT:TYPE=PART,URI=\"" + uri + "\"" == HINT + [':'] + HintRest(uri)
  {
    var second := Attribute("URI", uri, true);
    assert [second] == [second] + [];
    OneMoreAttribute(second, []);
    NoMore();
  }

  lemma HintRead(uri: string)
    requires '"' !in uri
    ensures Lookup(ParseAttributes(HintRest(uri)), "URI") == uri
  {
    hide ParseAttributes, PrintMore, PrintAttribute;
    var first, second := Attribute("TYPE", "PART", false), Attribute("URI", uri, true);
    ReadsAttributes(first, [second]);
    LookupSkips([first], [second], "URI");
    assert [second] == [second] + [];
    LookupFirst(second, []);
  }

  lemma NoteHint(q: Sheet, uri: string)
    requires '"' !in uri
    ensures Note(q, "#EXT-X-PRELOAD-HINT:TYPE=PART,URI=\"" + uri + "\"") == q.(hint := Some(uri))
  {
    hide IndexOf, ReadControl, ReadPart, ParseAttributes, Millis, Rest, Number, HintRest, Lookup;
    TagsApart();
    HintText(uri);
    HintRead(uri);
    TagLine(HINT, HintRest(uri));
  }

  // ------------------------------------------------------------- whole playlist

  function PartsSeen(parts: seq<Part>, uriPrefix: string): seq<PartSeen> {
    if parts == [] then [] else
      PartsSeen(parts[..|parts| - 1], uriPrefix) + [Seen1(parts[|parts| - 1], uriPrefix)]
  }

  /** Each segment with its duration and, when it is one of the newest `partWindow`, its parts. */
  function SegmentsSeen(segments: seq<Segment>, n: nat, o: Options): seq<SegmentSeen>
    requires n <= |segments|
  {
    if n == 0 then [] else
      var s := segments[n - 1];
      SegmentsSeen(segments, n - 1, o) +
      [SegmentSeen(o.uriPrefix + s.name, s.duration,
                   if o.lowLatency && n - 1 + o.partWindow >= |segments| then PartsSeen(s.parts, o.uriPrefix) else [])]
  }

  function SheetHead(segments: seq<Segment>, o: Options): Sheet {
    var target := Larger(Target(segments, o.targetSeconds), 1);
    BLANK.(version := Some(if o.lowLatency then AtLeast(o.version, 9) else o.version), target := Some(target),
           control := if o.emitServerControl then Some(Delays(o, target)) else None,
           partTargetMs := if o.lowLatency && o.partTargetMs > 0 then Some(o.partTargetMs) else None)
  }

  /** What a player is to learn from the playlist of `segments`. */
  function SheetOf(segments: seq<Segment>, o: Options): Sheet {
    SheetHead(segments, o).(
      segments := SegmentsSeen(segments, |segments|, o),
      parts := if o.lowLatency then PartsSeen(o.openParts, o.uriPrefix) else [],
      hint := if o.lowLatency && o.preloadHint != "" then Some(o.uriPrefix + o.preloadHint) else None,
      ended := o.ended)
  }

  predicate AllQuotable(parts: seq<Part>, uriPrefix: string) {
    forall i | 0 <= i < |parts| :: Quotable(parts[i], uriPrefix)
  }

  lemma {:induction false} NoteParts(q: Sheet, parts: seq<Part>, uriPrefix: string)
    requires AllQuotable(parts, uriPrefix)
    ensures NoteAll(q, PartLines(parts, uriPrefix)) == q.(parts := q.parts + PartsSeen(parts, uriPrefix))
  {
    hide Note, PartLine, Seen1;
    if parts == [] {
      assert q.parts + [] == q.parts;
    } else {
      var n := |parts| - 1;
      NoteParts(q, parts[..n], uriPrefix);
      var line := PartLine(parts[n], uriPrefix);
      NoteTwoParts(q, PartLines(parts[..n], uriPrefix), [line]);
      NoteOne(NoteAll(q, PartLines(parts[..n], uriPrefix)), line);
      NotePart(NoteAll(q, PartLines(parts[..n], uriPrefix)), parts[n], uriPrefix);
    }
  }

  lemma NoteTags(q: Sheet, s: Segment, writesKey: bool)
    ensures NoteAll(q, TagLines(s, writesKey)) == q
  {
    hide Note, KeyText;
    TagsApart();
    UnnotedLine(q, "#EXT-X-KEY", KeyText(s.key));
    assert KEY + KeyText(s.key) == "#EXT-X-KEY" + [':'] + KeyText(s.key);
    UnnotedLine(q, "#EXT-X-DISCONTINUITY", "");
    var key := if writesKey then [KEY + KeyText(s.key)] else [];
    var flag := if s.discontinuity then [DISCONTINUITY] else [];
    NoteTwoParts(q, key, flag);
    NoteOne(q, KEY + KeyText(s.key));
    NoteOne(q, DISCONTINUITY);
  }

  lemma NoteMedia(q: Sheet, s: Segment, uriPrefix: string)
    requires uriPrefix + s.name != "" && (uriPrefix + s.name)[0] != '#'
    ensures NoteAll(q, MediaLines(s, uriPrefix)) ==
            q.(segments := q.segments + [SegmentSeen(uriPrefix + s.name, s.duration, q.parts)], ms := 0, parts := [])
  {
    hide Note, NoteAll, Seconds;
    var inf, uri := "#EXTINF:" + Seconds(s.duration) + ",", uriPrefix + s.name;
    assert [inf, uri] == [inf] + [uri];
    assert inf == INF + [':'] + (Seconds(s.duration) + ",");
    NoteTwoParts(q, [inf], [uri]);
    NoteOne(q, inf);
    NoteInf(q, s.duration);
    NoteOne(q.(ms := s.duration), uri);
    NoteUri(q.(ms := s.duration), uri);
  }

  lemma NoteSegment(q: Sheet, segments: seq<Segment>, i: nat, o: Options)
    requires i < |segments| && Plain(segments[i], o.uriPrefix) && AllQuotable(segments[i].parts, o.uriPrefix)
    requires q.parts == []
    ensures var s := segments[i];
            NoteAll(q, SegmentLines(segments, i, o)) ==
            q.(segments := q.segments +
                 [SegmentSeen(o.uriPrefix + s.name, s.duration,
                              if o.lowLatency && i + o.partWindow >= |segments|
                              then PartsSeen(s.parts, o.uriPrefix) else [])],
               ms := 0, parts := [])
  {
    hide Plain, NoteAll, TagLines, PartLines, MediaLines, KeyBefore, WritesKey, AllQuotable, PartsSeen;
    var s := segments[i];
    var writes := WritesKey(KeyBefore(segments, i), s.key);
    var withParts := o.lowLatency && i >= FirstPartSegment(|segments|, o);
    var tags, parts := TagLines(s, writes), if withParts then PartLines(s.parts, o.uriPrefix) else [];
    PlainMeans(s, o.uriPrefix);
    NoteTags(q, s, writes);
    NoteTwoParts(q, tags, parts);
    NoteTwoParts(q, tags + parts, MediaLines(s, o.uriPrefix));
    NoteParts(q, s.parts, o.uriPrefix);
    NoteOne(q, "");
    assert q.parts + PartsSeen(s.parts, o.uriPrefix) == PartsSeen(s.parts, o.uriPrefix);
    NoteMedia(NoteAll(q, tags + parts), s, o.uriPrefix);
  }

  lemma {:induction false} NoteBody(q: Sheet, segments: seq<Segment>, n: nat, o: Options)
    requires n <= |segments| && q.parts == [] && q.ms == 0 && q.segments == []
    requires forall i | 0 <= i < |segments| ::
               Plain(segments[i], o.uriPrefix) && AllQuotable(segments[i].parts, o.uriPrefix)
    ensures NoteAll(q, BodyLines(segments, n, o)) == q.(segments := SegmentsSeen(segments, n, o))
  {
    hide Plain, SegmentLines, Note, AllQuotable, PartsSeen;
    if n > 0 {
      NoteBody(q, segments, n - 1, o);
      NoteTwoParts(q, BodyLines(segments, n - 1, o), SegmentLines(segments, n - 1, o));
      NoteSegment(NoteAll(q, BodyLines(segments, n - 1, o)), segments, n - 1, o);
    }
  }

  lemma NoteFour(q: Sheet, a: string, b: string, c: string, d: string)
    ensures NoteAll(q, [a, b, c, d]) == Note(Note(Note(Note(q, a), b), c), d)
  {
    hide Note, NoteAll;
    NoteOne(q, a);
    NoteSnoc(q, [a], b);
    NoteSnoc(q, [a] + [b], c);
    NoteSnoc(q, [a] + [b] + [c], d);
    assert [a, b, c, d] == [a] + [b] + [c] + [d];
  }

  lemma NoteSnoc(q: Sheet, lines: seq<string>, line: string)
    ensures NoteAll(q, lines + [line]) == Note(NoteAll(q, lines), line)
  {
    hide Note;
    assert (lines + [line])[..|lines|] == lines;
  }

  lemma NoteNumbers(q: Sheet, n: nat)
    ensures Note(q, "#EXT-X-VERSION:" + Print(n)) == q.(version := Some(n))
    ensures Note(q, "#EXT-X-TARGETDURATION:" + Print(n)) == q.(target := Some(n))
  {
    hide Note, Print;
    assert "#EXT-X-VERSION:" + Print(n) == VERSION + [':'] + Print(n);
    assert "#EXT-X-TARGETDURATION:" + Print(n) == TARGET + [':'] + Print(n);
    NoteVersion(q, n);
    NoteTarget(q, n);
  }

  lemma NoteSequence(q: Sheet, n: nat)
    ensures Note(q, MEDIA_SEQUENCE + Print(n)) == q && Note(q, "#EXTM3U") == q
  {
    hide Note, Print;
    TagsApart();
    assert MEDIA_SEQUENCE + Print(n) == "#EXT-X-MEDIA-SEQUENCE" + [':'] + Print(n);
    UnnotedLine(q, "#EXT-X-MEDIA-SEQUENCE", Print(n));
    UnnotedLine(q, "#EXTM3U", "");
  }

  lemma NoteStart(q: Sheet, version: nat, target: nat, media: nat)
    ensures NoteAll(q, ["#EXTM3U", "#EXT-X-VERSION:" + Print(version), "#EXT-X-TARGETDURATION:" + Print(target),
                        MEDIA_SEQUENCE + Print(media)]) ==
            q.(version := Some(version), target := Some(target))
  {
    hide Note, NoteAll, Print;
    NoteFour(q, "#EXTM3U", "#EXT-X-VERSION:" + Print(version), "#EXT-X-TARGETDURATION:" + Print(target),
             MEDIA_SEQUENCE + Print(media));
    NoteSequence(q, media);
    NoteNumbers(q, version);
    NoteNumbers(q.(version := Some(version)), target);
    NoteSequence(q.(version := Some(version), target := Some(target)), media);
  }

  lemma NoteHead(segments: seq<Segment>, o: Options)
    ensures NoteAll(BLANK, HeadLines(segments, o)) == SheetHead(segments, o)
  {
    hide Note, NoteAll, Seconds, ServerControlLine, Target, Print, Delays;
    var target := Larger(Target(segments, o.targetSeconds), 1);
    var version := if o.lowLatency then Larger(o.version, 9) else o.version;
    var first := ["#EXTM3U", "#EXT-X-VERSION:" + Print(version), "#EXT-X-TARGETDURATION:" + Print(target),
                  MEDIA_SEQUENCE + Print(MediaSequence(segments))];
    var disc := if o.discontinuitySequence > 0 then [DISCONTINUITY_SEQUENCE + Print(o.discontinuitySequence)] else [];
    var control := if o.emitServerControl then [ServerControlLine(o, target)] else [];
    var inf := if o.lowLatency && o.partTargetMs > 0
               then ["#EXT-X-PART-INF:PART-TARGET=" + Seconds(o.partTargetMs)] else [];
    assert HeadLines(segments, o) == first + (disc + (control + inf));
    NoteTwoParts(BLANK, first, disc + (control + inf));
    NoteStart(BLANK, version, target, MediaSequence(segments));
    var q := BLANK.(version := Some(version), target := Some(target));
    NoteTwoParts(q, disc, control + inf);
    NoteDisc(q, o.discontinuitySequence);
    NoteOne(q, DISCONTINUITY_SEQUENCE + Print(o.discontinuitySequence));
    NoteTwoParts(q, control, inf);
    NoteOne(q, ServerControlLine(o, target));
    NoteControl(q, o, target);
    var q' := NoteAll(q, control);
    NoteOne(q', "#EXT-X-PART-INF:PART-TARGET=" + Seconds(o.partTargetMs));
    NotePartInf(q', o.partTargetMs);
  }

  lemma NoteDisc(q: Sheet, n: nat)
    ensures Note(q, DISCONTINUITY_SEQUENCE + Print(n)) == q
  {
    hide Note, Print;
    TagsApart();
    assert DISCONTINUITY_SEQUENCE + Print(n) == "#EXT-X-DISCONTINUITY-SEQUENCE" + [':'] + Print(n);
    UnnotedLine(q, "#EXT-X-DISCONTINUITY-SEQUENCE", Print(n));
  }

  lemma NoteTail(q: Sheet, o: Options)
    requires AllQuotable(o.openParts, o.uriPrefix) && '"' !in o.uriPrefix && '"' !in o.preloadHint
    requires q.parts == [] && q.hint == None && !q.ended
    ensures NoteAll(q, TailLines(o)) ==
            q.(parts := if o.lowLatency then PartsSeen(o.openParts, o.uriPrefix) else [],
               hint := if o.lowLatency && o.preloadHint != "" then Some(o.uriPrefix + o.preloadHint) else None,
               ended := o.ended)
  {
    hide Note, NoteAll, PartLines, PartsSeen, AllQuotable;
    var uri := o.uriPrefix + o.preloadHint;
    var line := "#EXT-X-PRELOAD-HINT:TYPE=PART,URI=\"" + o.uriPrefix + o.preloadHint + "\"";
    assert line == "#EXT-X-PRELOAD-HINT:TYPE=PART,URI=\"" + uri + "\"";
    var parts := if o.lowLatency then PartLines(o.openParts, o.uriPrefix) else [];
    var hint := if o.lowLatency && o.preloadHint != "" then [line] else [];
    var end := if o.ended then [ENDLIST] else [];
    assert TailLines(o) == parts + hint + end;
    NoteTwoParts(q, parts, hint);
    NoteTwoParts(q, parts + hint, end);
    NoteParts(q, o.openParts, o.uriPrefix);
    NoteOne(q, "");
    assert q.parts + PartsSeen(o.openParts, o.uriPrefix) == PartsSeen(o.openParts, o.uriPrefix);
    var q1 := NoteAll(q, parts);
    NoteOne(q1, line);
    NoteHint(q1, uri);
    var q2 := NoteAll(q1, hint);
    NoteOne(q2, ENDLIST);
    NoteEnd(q2);
  }

  /** A player learns from the text exactly what the playlist is to say: every duration to the
      millisecond, every listed part with its URI and whether it may start there, the version, the
      target duration and the delays with their floors, the part to ask for next, and the end. */
  lemma SheetReadsBack(segments: seq<Segment>, o: Options)
    requires PlainOptions(o) && AllQuotable(o.openParts, o.uriPrefix) && '"' !in o.uriPrefix && '"' !in o.preloadHint
    requires forall i | 0 <= i < |segments| ::
               Plain(segments[i], o.uriPrefix) && AllQuotable(segments[i].parts, o.uriPrefix)
    ensures ReadSheet(Terminated(AllLines(segments, o), '\n')) == SheetOf(segments, o)
  {
    hide Note, NoteAll, HeadLines, BodyLines, TailLines, Plain, PlainOptions, Split, Terminated, AllQuotable, PartsSeen;
    HeadNoBreaks(segments, o);
    BodyNoBreaks(segments, |segments|, o);
    TailNoBreaks(o);
    SplitTerminated(AllLines(segments, o), '\n');
    NoteTwoParts(BLANK, HeadLines(segments, o) + BodyLines(segments, |segments|, o), TailLines(o));
    NoteTwoParts(BLANK, HeadLines(segments, o), BodyLines(segments, |segments|, o));
    NoteHead(segments, o);
    NoteBody(SheetHead(segments, o), segments, |segments|, o);
    NoteTail(SheetHead(segments, o).(segments := SegmentsSeen(segments, |segments|, o)), o);
  }
}
