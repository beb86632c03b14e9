/** The job body on its way from the origin (`TranscoderDispatchManager::dispatch_locked`) to
    a transcoder agent (`parse_transcoder_job_assignment`). */
module JobWire {
  import opened Prelude
  import opened Json
  import Text
  import Decimal

  const U32 := 0x1_0000_0000
  const U16 := 0x1_0000

  datatype Rendition = Rendition(
    name: string,
    outputStream: string,
    width: nat,
    height: nat,
    videoBitrate: nat,
    audioBitrate: nat
  )

  datatype Assignment = Assignment(
    id: string,
    sourceUrl: string,
    fps: nat,
    targetApplication: string,
    originHost: string,
    originPort: nat,
    renditions: seq<Rendition>
  )

  /** The numbers fit their 32- and 16-bit fields. */
  predicate RenditionFits(r: Rendition) {
    r.width < U32 && r.height < U32 && r.videoBitrate < U32 && r.audioBitrate < U32
  }

  predicate Fits(a: Assignment) {
    a.fps < U32 && a.originPort < U16 && forall i | 0 <= i < |a.renditions| :: RenditionFits(a.renditions[i])
  }

  const NEW_RENDITION := Rendition("", "", 0, 0, 2_500_000, 128_000)
  const NEW_ASSIGNMENT := Assignment("", "", 30, "", "", 1935, [])

  // -------------------------------------------------------------------- validate

  predicate ValidComponent(s: string) {
    && s != "" && |s| <= 255 && s != "." && s != ".."
    && forall i | 0 <= i < |s| ::
         s[i] >= 0x21 as char && s[i] != 0x7f as char && s[i] != '/' && s[i] != '\\' && s[i] != '?' && s[i] != '#'
  }

  function JobName(id: string): string {
    var slash := Text.IndexOf(id, '/');
    if slash == |id| then "" else id[slash + 1..]
  }

  predicate ValidRendition(r: Rendition, jobName: string) {
    && ValidComponent(r.outputStream) && r.outputStream != jobName
    && r.width <= 8192 && r.height <= 8192 && r.width * r.height <= 7680 * 4320
    && 0 < r.videoBitrate <= 200_000_000 && 0 < r.audioBitrate <= 2_000_000
  }

  /** A character that may stand in a source URL, or in a host name. */
  predicate InUrl(c: char) {
    c > 0x20 as char && c != 0x7f as char
  }

  predicate InHost(c: char) {
    c > 0x20 as char && c != '/' && c != '?' && c != '#' && c != '@'
  }

  /** validate */
  predicate Valid(a: Assignment) {
    var slash := Text.IndexOf(a.id, '/');
    && slash < |a.id| && ValidComponent(a.id[..slash]) && ValidComponent(a.id[slash + 1..])
    && Text.StartsWith(a.sourceUrl, "rtmp://") && |a.sourceUrl| <= 4096
    && (forall i | 0 <= i < |a.sourceUrl| :: InUrl(a.sourceUrl[i]))
    && ValidComponent(a.targetApplication) && a.targetApplication == a.id[..slash]
    && 0 < |a.originHost| <= 253 && (forall i | 0 <= i < |a.originHost| :: InHost(a.originHost[i]))
    && 0 < a.originPort
    && 0 < a.fps <= 240
    && 1 <= |a.renditions| <= 16
    && (forall i | 0 <= i < |a.renditions| :: ValidRendition(a.renditions[i], JobName(a.id)))
    && (forall i, j | 0 <= i < j < |a.renditions| :: a.renditions[i].outputStream != a.renditions[j].outputStream)
  }

  // -------------------------------------------------------------------- printing

  function StringMember(key: string, value: string, tail: string): string {
    Quoted(key, ":" + Quoted(Escape(value), tail))
  }

  function NumberMember(key: string, value: nat, tail: string): string {
    Quoted(key, ":" + (Decimal.Print(value) + tail))
  }

  /** One rendition, followed by more text. */
  function RenditionText(r: Rendition, tail: string): string {
    "{" + StringMember("name", r.name, "," + StringMember("output_stream", r.outputStream,
    "," + NumberMember("width", r.width, "," + NumberMember("height", r.height,
    "," + NumberMember("video_bitrate", r.videoBitrate,
    "," + NumberMember("audio_bitrate", r.audioBitrate, "}" + tail))))))
  }

  /** The renditions from the first on, each but the first after a comma, then the bracket. */
  function RenditionList(rs: seq<Rendition>, tail: string): string
    requires rs != []
  {
    RenditionText(rs[0], if |rs| == 1 then "]" + tail else "," + RenditionList(rs[1..], tail))
  }

  function RenditionsText(rs: seq<Rendition>, tail: string): string {
    "[" + if rs == [] then "]" + tail else RenditionList(rs, tail)
  }

  /** The body dispatch_locked posts. */
  function Body(a: Assignment): string {
    "{" + StringMember("id", a.id, "," + StringMember("source_url", a.sourceUrl,
    "," + NumberMember("fps", a.fps, "," + StringMember("target_application", a.targetApplication,
    "," + StringMember("origin_rtmp_host", a.originHost, "," + NumberMember("origin_rtmp_port", a.originPort,
    "," + Quoted("renditions", ":" + RenditionsText(a.renditions, "}"))))))))
  }

  // --------------------------------------------------------------------- parsing

  datatype RenditionField = NameField | OutputField | WidthField | HeightField | VideoField | AudioField | OtherField

  function RenditionFieldOf(key: string): RenditionField {
    if key == "name" then NameField
    else if key == "output_stream" then OutputField
    else if key == "width" then WidthField
    else if key == "height" then HeightField
    else if key == "video_bitrate" then VideoField
    else if key == "audio_bitrate" then AudioField
    else OtherField
  }

  /** The value of one member, put into the rendition. */
  function ReadRenditionField(f: RenditionField, s: string, r: Rendition): (o: Option<(Rendition, string)>)
    ensures o.Some? ==> |o.value.1| < |s|
  {
    match f
    case NameField => var v := ReadString(s); if v.None? then None else Some((r.(name := v.value.0), v.value.1))
    case OutputField =>
      var v := ReadString(s); if v.None? then None else Some((r.(outputStream := v.value.0), v.value.1))
    case WidthField => var v := ReadBounded(s, U32); if v.None? then None else Some((r.(width := v.value.0), v.value.1))
    case HeightField =>
      var v := ReadBounded(s, U32); if v.None? then None else Some((r.(height := v.value.0), v.value.1))
    case VideoField =>
      var v := ReadBounded(s, U32); if v.None? then None else Some((r.(videoBitrate := v.value.0), v.value.1))
    case AudioField =>
      var v := ReadBounded(s, U32); if v.None? then None else Some((r.(audioBitrate := v.value.0), v.value.1))
    case OtherField => var v := SkipValue(s); if v.None? then None else Some((r, v.value))
  }

  function ReadRenditionFields(s: string, r: Rendition, first: bool): (o: Option<(Rendition, string)>)
    ensures o.Some? ==> |o.value.1| < |s|
    decreases |s|
  {
    match NextMember(s, first)
    case Malformed => None
    case End(rest) => if first then None else Some((r, rest))
    case Key(key, rest) =>
      var next := ReadRenditionField(RenditionFieldOf(key), rest, r);
      if next.None? then None else ReadRenditionFields(next.value.1, next.value.0, false)
  }

  function ReadRendition(s: string): (o: Option<(Rendition, string)>)
    ensures o.Some? ==> |o.value.1| < |s|
  {
    if Take(s, '{').None? then None else ReadRenditionFields(Take(s, '{').value, NEW_RENDITION, true)
  }

  /** The loop of parse_renditions, appending to what is there. */
  function ReadRenditionList(s: string, rs: seq<Rendition>): (o: Option<(seq<Rendition>, string)>)
    ensures o.Some? ==> |o.value.1| < |s|
    decreases |s|
  {
    var r := ReadRendition(s);
    if r.None? then None
    else
      var more, rest := rs + [r.value.0], r.value.1;
      if Take(rest, ']').Some? then Some((more, Take(rest, ']').value))
      else if Take(rest, ',').None? then None
      else ReadRenditionList(Take(rest, ',').value, more)
  }

  function ReadRenditions(s: string, rs: seq<Rendition>): (o: Option<(seq<Rendition>, string)>)
    ensures o.Some? ==> |o.value.1| < |s|
  {
    var t := Take(s, '[');
    if t.None? then None
    else if Take(t.value, ']').Some? then Some((rs, Take(t.value, ']').value))
    else ReadRenditionList(t.value, rs)
  }

  datatype Field =
    | IdField | UrlField | FpsField | ApplicationField | HostField | PortField | RenditionsField | UnknownField

  function FieldOf(key: string): Field {
    if key == "id" then IdField
    else if key == "source_url" then UrlField
    else if key == "fps" then FpsField
    else if key == "target_application" then ApplicationField
    else if key == "origin_rtmp_host" then HostField
    else if key == "origin_rtmp_port" then PortField
    else if key == "renditions" then RenditionsField
    else UnknownField
  }

  function ReadField(f: Field, s: string, a: Assignment): (o: Option<(Assignment, string)>)
    ensures o.Some? ==> |o.value.1| < |s|
  {
    match f
    case IdField => var v := ReadString(s); if v.None? then None else Some((a.(id := v.value.0), v.value.1))
    case UrlField => var v := ReadString(s); if v.None? then None else Some((a.(sourceUrl := v.value.0), v.value.1))
    case FpsField => var v := ReadBounded(s, U32); if v.None? then None else Some((a.(fps := v.value.0), v.value.1))
    case ApplicationField =>
      var v := ReadString(s); if v.None? then None else Some((a.(targetApplication := v.value.0), v.value.1))
    case HostField => var v := ReadString(s); if v.None? then None else Some((a.(originHost := v.value.0), v.value.1))
    case PortField =>
      var v := ReadBounded(s, U16); if v.None? then None else Some((a.(originPort := v.value.0), v.value.1))
    case RenditionsField =>
      var v := ReadRenditions(s, a.renditions); if v.None? then None else Some((a.(renditions := v.value.0), v.value.1))
    case UnknownField => var v := SkipValue(s); if v.None? then None else Some((a, v.value))
  }

  function ReadFields(s: string, a: Assignment, first: bool): (o: Option<(Assignment, string)>)
    decreases |s|
  {
    match NextMember(s, first)
    case Malformed => None
    case End(rest) => Some((a, rest))
    case Key(key, rest) =>
      var next := ReadField(FieldOf(key), rest, a);
      if next.None? then None else ReadFields(next.value.1, next.value.0, false)
  }

  /** parse_transcoder_job_assignment: the object, nothing after it, and a valid assignment. */
  function Parse(json: string): Option<Assignment> {
    var t := Take(json, '{');
    if t.None? then None
    else
      var o := ReadFields(t.value, NEW_ASSIGNMENT, true);
      if o.None? || SkipSpace(o.value.1) != "" || !Valid(o.value.0) then None else Some(o.value.0)
  }

  // ------------------------------------------------------------------- round trip

  lemma RenditionKeys()
    ensures RenditionFieldOf("name") == NameField && RenditionFieldOf("output_stream") == OutputField
    ensures RenditionFieldOf("width") == WidthField && RenditionFieldOf("height") == HeightField
    ensures RenditionFieldOf("video_bitrate") == VideoField && RenditionFieldOf("audio_bitrate") == AudioField
    ensures PlainKey("name") && PlainKey("output_stream") && PlainKey("width") && PlainKey("height")
    ensures PlainKey("video_bitrate") && PlainKey("audio_bitrate")
  {
  }

  lemma AssignmentKeys()
    ensures FieldOf("id") == IdField && FieldOf("source_url") == UrlField && FieldOf("fps") == FpsField
    ensures FieldOf("target_application") == ApplicationField && FieldOf("origin_rtmp_host") == HostField
    ensures FieldOf("origin_rtmp_port") == PortField && FieldOf("renditions") == RenditionsField
    ensures PlainKey("id") && PlainKey("source_url") && PlainKey("fps") && PlainKey("target_application")
    ensures PlainKey("origin_rtmp_host") && PlainKey("origin_rtmp_port") && PlainKey("renditions")
  {
  }

  /** A member whose value is read is followed by the members after it. */
  lemma RenditionMember(key: string, value: string, r: Rendition, first: bool)
    requires PlainKey(key)
    ensures var next := ReadRenditionField(RenditionFieldOf(key), value, r);
            ReadRenditionFields(Separator(first) + Quoted(key, ":" + value), r, first) ==
            if next.None? then None else ReadRenditionFields(next.value.1, next.value.0, false)
  {
    hide ReadRenditionField, RenditionFieldOf, NextMember, Quoted;
    KeyIsRead(key, value, first);
  }

  lemma RenditionString(key: string, value: string, tail: string, r: Rendition, first: bool)
    requires PlainKey(key) && (RenditionFieldOf(key).NameField? || RenditionFieldOf(key).OutputField?)
    ensures ReadRenditionFields(Separator(first) + StringMember(key, value, tail), r, first) ==
            if !Printable(value) then None
            else
              var named := RenditionFieldOf(key).NameField?;
              ReadRenditionFields(tail, if named then r.(name := value) else r.(outputStream := value), false)
  {
    hide ReadRenditionFields, RenditionFieldOf, ReadString, Quoted, Printable, Escape;
    RenditionMember(key, Quoted(Escape(value), tail), r, first);
    StringRoundTrip(value, tail);
  }

  lemma RenditionNumber(key: string, value: nat, tail: string, r: Rendition)
    requires PlainKey(key) && value < U32 && tail != "" && !Decimal.IsDigit(tail[0])
    requires var f := RenditionFieldOf(key); f.WidthField? || f.HeightField? || f.VideoField? || f.AudioField?
    ensures ReadRenditionFields("," + NumberMember(key, value, tail), r, false) ==
            ReadRenditionFields(tail, match RenditionFieldOf(key)
                                      case WidthField => r.(width := value)
                                      case HeightField => r.(height := value)
                                      case VideoField => r.(videoBitrate := value)
                                      case _ => r.(audioBitrate := value), false)
  {
    hide ReadRenditionFields, RenditionFieldOf, ReadBounded, Quoted, Decimal.Print;
    RenditionMember(key, Decimal.Print(value) + tail, r, false);
    NumberRoundTrip(value, tail, U32);
  }

  /** One rendition is read back if and only if its strings can be carried. */
  lemma RenditionReadsBack(r: Rendition, tail: string)
    requires RenditionFits(r)
    ensures ReadRendition(RenditionText(r, tail)) ==
            if Printable(r.name) && Printable(r.outputStream) then Some((r, tail)) else None
  {
    hide ReadRenditionFields, RenditionFieldOf, StringMember, NumberMember, Printable, PlainKey;
    RenditionKeys();
    var t6 := "}" + tail;
    var t5 := "," + NumberMember("audio_bitrate", r.audioBitrate, t6);
    var t4 := "," + NumberMember("video_bitrate", r.videoBitrate, t5);
    var t3 := "," + NumberMember("height", r.height, t4);
    var t2 := "," + NumberMember("width", r.width, t3);
    var t1 := "," + StringMember("output_stream", r.outputStream, t2);
    var t0 := StringMember("name", r.name, t1);
    var r1 := NEW_RENDITION.(name := r.name);
    var r2 := r1.(outputStream := r.outputStream);
    var r3 := r2.(width := r.width);
    var r4 := r3.(height := r.height);
    var r5 := r4.(videoBitrate := r.videoBitrate);
    assert RenditionText(r, tail) == "{" + t0 && ("{" + t0)[1..] == t0 == Separator(true) + t0;
    RenditionString("name", r.name, t1, NEW_RENDITION, true);
    RenditionString("output_stream", r.outputStream, t2, r1, false);
    RenditionNumber("width", r.width, t3, r2);
    RenditionNumber("height", r.height, t4, r3);
    RenditionNumber("video_bitrate", r.videoBitrate, t5, r4);
    RenditionNumber("audio_bitrate", r.audioBitrate, t6, r5);
    RenditionEnds(tail, r);
  }

  lemma RenditionEnds(tail: string, r: Rendition)
    ensures ReadRenditionFields("}" + tail, r, false) == Some((r, tail))
  {
    EndIsRead(tail, false);
  }

  predicate Carried(r: Rendition) {
    Printable(r.name) && Printable(r.outputStream)
  }

  predicate AllCarried(rs: seq<Rendition>) {
    forall i | 0 <= i < |rs| :: Carried(rs[i])
  }

  lemma {:induction false} ListReadsBack(done: seq<Rendition>, rs: seq<Rendition>, tail: string)
    requires rs != [] && forall i | 0 <= i < |rs| :: RenditionFits(rs[i])
    ensures ReadRenditionList(RenditionList(rs, tail), done) ==
            if AllCarried(rs) then Some((done + rs, tail)) else None
    decreases |rs|
  {
    hide ReadRendition, RenditionText, Carried, RenditionFits;
    var rest := if |rs| == 1 then "]" + tail else "," + RenditionList(rs[1..], tail);
    assert rs == [rs[0]] + rs[1..];
    RenditionReadsBack(rs[0], rest);
    OneCarried(rs[0]);
    if |rs| == 1 {
      assert ("]" + tail)[1..] == tail;
      assert done + [rs[0]] == done + rs;
    } else {
      assert rest[1..] == RenditionList(rs[1..], tail);
      ListReadsBack(done + [rs[0]], rs[1..], tail);
      assert done + [rs[0]] + rs[1..] == done + rs;
      assert AllCarried(rs) <==> Carried(rs[0]) && AllCarried(rs[1..]);
    }
  }

  lemma OneCarried(r: Rendition)
    ensures Carried(r) <==> Printable(r.name) && Printable(r.outputStream)
  {
  }

  lemma RenditionsReadBack(rs: seq<Rendition>, tail: string)
    requires forall i | 0 <= i < |rs| :: RenditionFits(rs[i])
    ensures ReadRenditions(RenditionsText(rs, tail), []) == if AllCarried(rs) then Some((rs, tail)) else None
  {
    hide ReadRenditionList, RenditionList, AllCarried, RenditionFits;
    if rs == [] {
      OpenedList("]" + tail);
      assert ("]" + tail)[1..] == tail;
      NothingToCarry();
    } else {
      ListOpens(rs, tail);
      OpenedList(RenditionList(rs, tail));
      ListReadsBack([], rs, tail);
      assert [] + rs == rs;
    }
  }

  lemma OpenedList(rest: string)
    requires rest != "" && !IsSpace(rest[0])
    ensures Take("[" + rest, '[') == Some(rest)
    ensures Take(rest, ']') == if rest[0] == ']' then Some(rest[1..]) else None
  {
    assert ("[" + rest)[1..] == rest;
  }

  lemma ListOpens(rs: seq<Rendition>, tail: string)
    requires rs != []
    ensures RenditionList(rs, tail) != "" && RenditionList(rs, tail)[0] == '{'
  {
    hide StringMember, NumberMember;
  }

  lemma NothingToCarry()
    ensures AllCarried([])
  {
  }

  lemma AssignmentMember(key: string, value: string, a: Assignment, first: bool)
    requires PlainKey(key)
    ensures var next := ReadField(FieldOf(key), value, a);
            ReadFields(Separator(first) + Quoted(key, ":" + value), a, first) ==
            if next.None? then None else ReadFields(next.value.1, next.value.0, false)
  {
    hide ReadField, FieldOf, NextMember, Quoted;
    KeyIsRead(key, value, first);
  }

  /** The assignment with one string member set. */
  function WithString(f: Field, a: Assignment, value: string): Assignment {
    match f
    case IdField => a.(id := value)
    case UrlField => a.(sourceUrl := value)
    case ApplicationField => a.(targetApplication := value)
    case _ => a.(originHost := value)
  }

  lemma AssignmentString(key: string, value: string, tail: string, a: Assignment, first: bool)
    requires PlainKey(key) && Printable(value)
    requires var f := FieldOf(key); f.IdField? || f.UrlField? || f.ApplicationField? || f.HostField?
    ensures ReadFields(Separator(first) + StringMember(key, value, tail), a, first) ==
            ReadFields(tail, WithString(FieldOf(key), a, value), false)
  {
    hide ReadFields, FieldOf, ReadString, Quoted, Printable, Escape;
    AssignmentMember(key, Quoted(Escape(value), tail), a, first);
    StringRoundTrip(value, tail);
  }

  lemma AssignmentNumber(key: string, value: nat, tail: string, a: Assignment)
    requires PlainKey(key) && tail != "" && !Decimal.IsDigit(tail[0])
    requires (FieldOf(key).FpsField? && value < U32) || (FieldOf(key).PortField? && value < U16)
    ensures ReadFields("," + NumberMember(key, value, tail), a, false) ==
            ReadFields(tail, if FieldOf(key).FpsField? then a.(fps := value) else a.(originPort := value), false)
  {
    hide ReadFields, FieldOf, ReadBounded, Quoted, Decimal.Print;
    AssignmentMember(key, Decimal.Print(value) + tail, a, false);
    NumberRoundTrip(value, tail, if FieldOf(key).FpsField? then U32 else U16);
  }

  /** What validate accepts needs no escaping the reader would refuse, renditions' names apart. */
  lemma ValidIsPrintable(a: Assignment)
    requires Valid(a)
    ensures Printable(a.id) && Printable(a.sourceUrl) && Printable(a.targetApplication) && Printable(a.originHost)
    ensures AllCarried(a.renditions) <==> forall i | 0 <= i < |a.renditions| :: Printable(a.renditions[i].name)
  {
    var slash := Text.IndexOf(a.id, '/');
    ComponentIsPrintable(a.targetApplication);
    forall i | 0 <= i < |a.id|
      ensures Carriable(a.id[i])
    {
      if i < slash {
        assert a.id[i] == a.id[..slash][i];
      } else if i > slash {
        assert a.id[i] == a.id[slash + 1..][i - slash - 1];
      }
    }
    forall i | 0 <= i < |a.renditions|
      ensures Printable(a.renditions[i].outputStream)
    {
      assert ValidRendition(a.renditions[i], JobName(a.id));
      ComponentIsPrintable(a.renditions[i].outputStream);
    }
  }

  lemma ComponentIsPrintable(s: string)
    requires ValidComponent(s)
    ensures Printable(s)
  {
  }

  lemma BodyIsRead(a: Assignment)
    requires Fits(a)
    requires Printable(a.id) && Printable(a.sourceUrl) && Printable(a.targetApplication) && Printable(a.originHost)
    ensures Take(Body(a), '{').Some?
    ensures ReadFields(Take(Body(a), '{').value, NEW_ASSIGNMENT, true) ==
            if AllCarried(a.renditions) then Some((a, "")) else None
  {
    hide ReadFields, FieldOf, StringMember, NumberMember, Printable, PlainKey, Quoted, RenditionsText, AllCarried,
         RenditionFits;
    AssignmentKeys();
    var list := ":" + RenditionsText(a.renditions, "}");
    var t6 := "," + Quoted("renditions", list);
    var t5 := "," + NumberMember("origin_rtmp_port", a.originPort, t6);
    var t4 := "," + StringMember("origin_rtmp_host", a.originHost, t5);
    var t3 := "," + StringMember("target_application", a.targetApplication, t4);
    var t2 := "," + NumberMember("fps", a.fps, t3);
    var t1 := "," + StringMember("source_url", a.sourceUrl, t2);
    var t0 := StringMember("id", a.id, t1);
    var a1 := NEW_ASSIGNMENT.(id := a.id);
    var a2 := a1.(sourceUrl := a.sourceUrl);
    var a3 := a2.(fps := a.fps);
    var a4 := a3.(targetApplication := a.targetApplication);
    var a5 := a4.(originHost := a.originHost);
    var a6 := a5.(originPort := a.originPort);
    assert Body(a) == "{" + t0 && ("{" + t0)[1..] == t0 == Separator(true) + t0;
    AssignmentString("id", a.id, t1, NEW_ASSIGNMENT, true);
    AssignmentString("source_url", a.sourceUrl, t2, a1, false);
    AssignmentNumber("fps", a.fps, t3, a2);
    AssignmentString("target_application", a.targetApplication, t4, a3, false);
    AssignmentString("origin_rtmp_host", a.originHost, t5, a4, false);
    AssignmentNumber("origin_rtmp_port", a.originPort, t6, a5);
    LastMember(a, a6);
  }

  lemma LastMember(a: Assignment, b: Assignment)
    requires Fits(a) && b == a.(renditions := [])
    ensures ReadFields("," + Quoted("renditions", ":" + RenditionsText(a.renditions, "}")), b, false) ==
            if AllCarried(a.renditions) then Some((a, "")) else None
  {
    hide FieldOf, Quoted, RenditionsText, ReadRenditions, AllCarried, PlainKey, NextMember;
    AssignmentKeys();
    AssignmentMember("renditions", RenditionsText(a.renditions, "}"), b, false);
    RenditionsReadBack(a.renditions, "}");
    EndIsRead("", false);
    assert "}" + "" == "}";
  }

  /** The agent reads back from the origin's body the very assignment, for every valid one
      whose rendition names hold no control octet other than newline, carriage return and
      tab; any other it refuses. */
  lemma JobRoundTrip(a: Assignment)
    requires Valid(a) && Fits(a)
    ensures Parse(Body(a)) ==
            if forall i | 0 <= i < |a.renditions| :: Printable(a.renditions[i].name) then Some(a) else None
  {
    hide Valid, ReadFields, Body, AllCarried, Printable, Fits;
    ValidIsPrintable(a);
    BodyIsRead(a);
  }
}
