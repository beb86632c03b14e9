/** JSON values of any shape, and what the agent's reader does with those it does not know: it
    skips exactly one value, however deeply nested, so that members it has no field for change
    nothing. */
module JsonValues {
  import opened Prelude
  import opened Json
  import opened JobWire
  import T = Text
  import Decimal

  datatype Value =
    | Text(s: string)
    | Bare(text: string)       // a number, true, false or null
    | Array(items: Items)
    | Object(members: Members)

  datatype Items = NoItems | Item(value: Value, rest: Items)
  datatype Members = NoMembers | Member(key: string, value: Value, rest: Members)

  /** The value in its shortest form, followed by more text. */
  function Print(v: Value, tail: string): string {
    match v
    case Text(s) => Quoted(Escape(s), tail)
    case Bare(text) => text + tail
    case Array(items) => "[" + PrintItems(items, "]" + tail)
    case Object(members) => "{" + PrintMembers(members, "}" + tail)
  }

  function PrintItems(items: Items, tail: string): string {
    match items
    case NoItems => tail
    case Item(v, rest) => Print(v, if rest.NoItems? then tail else "," + PrintItems(rest, tail))
  }

  function PrintMembers(members: Members, tail: string): string {
    match members
    case NoMembers => tail
    case Member(key, v, rest) =>
      Quoted(Escape(key), ":" + Print(v, if rest.NoMembers? then tail else "," + PrintMembers(rest, tail)))
  }

  /** Characters that end a number or a word. */
  predicate Ends(c: char) {
    c == ',' || c == '}' || c == ']'
  }

  predicate Delimited(tail: string) {
    tail == "" || Ends(tail[0])
  }

  predicate Word(text: string) {
    && text != "" && text[0] != '"' && text[0] != '{' && text[0] != '['
    && forall i | 0 <= i < |text| :: !Ends(text[i]) && !IsSpace(text[i])
  }

  /** Texts the escaping can carry, and words that are words. */
  predicate WellFormed(v: Value) {
    match v
    case Text(s) => Printable(s)
    case Bare(text) => Word(text)
    case Array(items) => AllWellFormed(items)
    case Object(members) => MembersWellFormed(members)
  }

  predicate AllWellFormed(items: Items) {
    items.Item? ==> WellFormed(items.value) && AllWellFormed(items.rest)
  }

  predicate MembersWellFormed(members: Members) {
    members.Member? ==> Printable(members.key) && WellFormed(members.value) && MembersWellFormed(members.rest)
  }

  /** The first character says what follows. */
  lemma Opening(v: Value, tail: string)
    requires WellFormed(v)
    ensures var s := Print(v, tail);
            && s != "" && !IsSpace(s[0]) && !Ends(s[0])
            && (v.Text? <==> s[0] == '"') && (v.Array? <==> s[0] == '[') && (v.Object? <==> s[0] == '{')
  {
    hide Escape, PrintItems, PrintMembers;
  }

  lemma {:induction false} WordStops(text: string, tail: string)
    requires (forall i | 0 <= i < |text| :: !Ends(text[i])) && Delimited(tail)
    ensures BareLength(text + tail) == |text|
  {
    if text == "" {
      assert text + tail == tail;
    } else {
      WordStops(text[1..], tail);
      assert (text + tail)[1..] == text[1..] + tail;
    }
  }

  lemma SkipsWord(text: string, tail: string)
    requires Word(text) && Delimited(tail)
    ensures SkipValue(text + tail) == Some(tail)
  {
    hide BareLength, SkipItems, ReadString;
    var s := text + tail;
    WordStops(text, tail);
    assert s[0] == text[0] && s[..|text|] == text && s[|text|..] == tail;
    assert !IsSpace(text[|text| - 1]);
  }

  lemma SkipsText(s: string, tail: string)
    requires Printable(s)
    ensures SkipValue(Quoted(Escape(s), tail)) == Some(tail)
  {
    hide ReadString, Escape, Printable, SkipItems;
    StringRoundTrip(s, tail);
  }

  lemma TakesNext(c: char, rest: string)
    requires !IsSpace(c)
    ensures Take([c] + rest, c) == Some(rest)
  {
    assert ([c] + rest)[1..] == rest;
  }

  lemma TakesOther(s: string, c: char)
    requires s != "" && !IsSpace(s[0]) && s[0] != c
    ensures Take(s, c) == None
  {
  }

  lemma KeySkipped(key: string, rest: string)
    requires Printable(key)
    ensures SkipKey(Quoted(Escape(key), ":" + rest)) == Some(rest)
  {
    hide ReadString, Escape, Printable;
    StringRoundTrip(key, ":" + rest);
    assert ":" + rest == [':'] + rest;
    TakesNext(':', rest);
  }

  /** One element, then the next or the closing bracket. */
  lemma ItemsStep(s: string, keyed: bool, start: string, after: string)
    requires if keyed then SkipKey(s) == Some(start) else s == start
    requires SkipValue(start) == Some(after)
    ensures var close := if keyed then '}' else ']';
            SkipItems(s, keyed) ==
            if Take(after, close).Some? then Take(after, close)
            else if Take(after, ',').None? then None else SkipItems(Take(after, ',').value, keyed)
  {
    hide SkipValue, SkipKey;
  }

  lemma {:induction false} SkipsItems(items: Items, tail: string)
    requires items.Item? && AllWellFormed(items)
    ensures SkipItems(PrintItems(items, "]" + tail), false) == Some(tail)
    decreases items
  {
    hide SkipItems, SkipValue, Take, Print;
    var more := if items.rest.NoItems? then "]" + tail else "," + PrintItems(items.rest, "]" + tail);
    var s := PrintItems(items, "]" + tail);
    SkipsValue(items.value, more);
    ItemsStep(s, false, s, more);
    if items.rest.NoItems? {
      assert more == [']'] + tail;
      TakesNext(']', tail);
    } else {
      var rest := PrintItems(items.rest, "]" + tail);
      assert more == [','] + rest;
      TakesOther(more, ']');
      TakesNext(',', rest);
      SkipsItems(items.rest, tail);
    }
  }

  lemma {:induction false} SkipsMembers(members: Members, tail: string)
    requires members.Member? && MembersWellFormed(members)
    ensures SkipItems(PrintMembers(members, "}" + tail), true) == Some(tail)
    decreases members
  {
    hide SkipItems, SkipValue, SkipKey, Take, Print, Quoted, Escape, Printable;
    var more := if members.rest.NoMembers? then "}" + tail else "," + PrintMembers(members.rest, "}" + tail);
    var s := PrintMembers(members, "}" + tail);
    KeySkipped(members.key, Print(members.value, more));
    SkipsValue(members.value, more);
    ItemsStep(s, true, Print(members.value, more), more);
    if members.rest.NoMembers? {
      assert more == ['}'] + tail;
      TakesNext('}', tail);
    } else {
      var rest := PrintMembers(members.rest, "}" + tail);
      assert more == [','] + rest;
      TakesOther(more, '}');
      TakesNext(',', rest);
      SkipsMembers(members.rest, tail);
    }
  }

  /** What comes after the opening bracket of a container. */
  lemma ContainerStep(open: char, rest: string)
    requires open == '[' || open == '{'
    ensures var close := if open == '{' then '}' else ']';
            SkipValue([open] + rest) ==
            if Take(rest, close).Some? then Take(rest, close) else SkipItems(rest, open == '{')
  {
    hide SkipItems, Take;
    assert ([open] + rest)[1..] == rest;
  }

  /** Exactly one value is skipped, whatever its shape and depth. */
  lemma {:induction false} SkipsValue(v: Value, tail: string)
    requires WellFormed(v) && Delimited(tail)
    ensures SkipValue(Print(v, tail)) == Some(tail)
    decreases v
  {
    hide SkipItems, SkipValue, Take, Printable, Word, Escape, Quoted, Delimited;
    match v
    case Text(s) => SkipsText(s, tail);
    case Bare(text) => SkipsWord(text, tail);
    case Array(items) =>
      var rest := PrintItems(items, "]" + tail);
      assert Print(v, tail) == ['['] + rest;
      ContainerStep('[', rest);
      if items.NoItems? {
        assert rest == [']'] + tail;
        TakesNext(']', tail);
      } else {
        ItemsOpen(items, tail);
        SkipsItems(items, tail);
      }
    case Object(members) =>
      var rest := PrintMembers(members, "}" + tail);
      assert Print(v, tail) == ['{'] + rest;
      ContainerStep('{', rest);
      if members.NoMembers? {
        assert rest == ['}'] + tail;
        TakesNext('}', tail);
      } else {
        MembersOpen(members, tail);
        SkipsMembers(members, tail);
      }
  }

  lemma ItemsOpen(items: Items, tail: string)
    requires items.Item? && AllWellFormed(items)
    ensures Take(PrintItems(items, "]" + tail), ']') == None
  {
    hide Take, Print, WellFormed;
    var more := if items.rest.NoItems? then "]" + tail else "," + PrintItems(items.rest, "]" + tail);
    Opening(items.value, more);
    TakesOther(Print(items.value, more), ']');
  }

  lemma MembersOpen(members: Members, tail: string)
    requires members.Member?
    ensures Take(PrintMembers(members, "}" + tail), '}') == None
  {
    hide Take, Print, Escape;
    TakesOther(PrintMembers(members, "}" + tail), '}');
  }

  /** A member of an assignment the agent has no field for, with any value at all, changes
      nothing. */
  lemma UnknownMemberIgnored(key: string, v: Value, tail: string, a: Assignment, first: bool)
    requires PlainKey(key) && FieldOf(key).UnknownField? && WellFormed(v) && Delimited(tail)
    ensures ReadFields(Separator(first) + Quoted(key, ":" + Print(v, tail)), a, first) == ReadFields(tail, a, false)
  {
    hide ReadFields, FieldOf, SkipValue, Quoted, Print, WellFormed;
    AssignmentMember(key, Print(v, tail), a, first);
    SkipsValue(v, tail);
  }

  // ------------------------------------------------------------ accepted jobs

  /** Where a rendition is published. */
  function StreamKey(a: Assignment, r: Rendition): string {
    a.targetApplication + "/" + r.outputStream
  }

  /** An assignment the agent accepts is published under keys of their own: no rendition takes the
      source's own key, so no job feeds itself, and no two share one; the key's application is the
      source's; and every number lies within its bounds. */
  lemma AcceptedJobIsSane(json: string)
    requires Parse(json).Some?
    ensures var a := Parse(json).value;
            && (forall i | 0 <= i < |a.renditions| :: StreamKey(a, a.renditions[i]) != a.id)
            && (forall i, j | 0 <= i < j < |a.renditions| ::
                  StreamKey(a, a.renditions[i]) != StreamKey(a, a.renditions[j]))
            && (exists name :: a.id == a.targetApplication + "/" + name && '/' !in name)
            && '/' !in a.targetApplication
            && 1 <= |a.renditions| <= 16 && 1 <= a.fps <= 240 && 1 <= a.originPort
            && (forall i | 0 <= i < |a.renditions| ::
                  var r := a.renditions[i];
                  && '/' !in r.outputStream && r.width <= 8192 && r.height <= 8192 && r.width * r.height <= 33_177_600
                  && 1 <= r.videoBitrate <= 200_000_000 && 1 <= r.audioBitrate <= 2_000_000)
  {
    hide ReadFields, Take, SkipSpace;
    var a := Parse(json).value;
    var slash := T.IndexOf(a.id, '/');
    var name := a.id[slash + 1..];
    assert a.id == a.targetApplication + "/" + name;
    assert ValidComponent(name) && JobName(a.id) == name;
    forall i | 0 <= i < |a.renditions|
      ensures StreamKey(a, a.renditions[i]) != a.id
    {
      assert ValidRendition(a.renditions[i], JobName(a.id));
      SameTail(a.targetApplication + "/", a.renditions[i].outputStream, name);
    }
    forall i, j | 0 <= i < j < |a.renditions|
      ensures StreamKey(a, a.renditions[i]) != StreamKey(a, a.renditions[j])
    {
      SameTail(a.targetApplication + "/", a.renditions[i].outputStream, a.renditions[j].outputStream);
    }
  }

  lemma SameTail(a: string, x: string, y: string)
    ensures a + x == a + y ==> x == y
  {
    assert (a + x)[|a|..] == x && (a + y)[|a|..] == y;
  }

  // ------------------------------------------------------------- on the wire

  lemma NumberSpelled(key: string, n: nat, tail: string)
    ensures "," + NumberMember(key, n, tail) == (",\"" + key + "\":") + (Decimal.Print(n) + tail)
  {
    hide Decimal.Print;
  }

  lemma StringSpelled(key: string, value: string, tail: string)
    ensures StringMember(key, value, tail) == ("\"" + key + "\":\"") + (Escape(value) + ("\"" + tail))
  {
    hide Escape;
  }

  /** A string member behind another member: the end of that one first. */
  lemma NextString(before: string, key: string, value: string, tail: string)
    ensures before + ("," + StringMember(key, value, tail)) ==
            (before + (",\"" + key + "\":\"")) + (Escape(value) + ("\"" + tail))
  {
    hide Escape, StringMember;
    StringSpelled(key, value, tail);
  }

  /** The text of a rendition, member by member. */
  lemma RenditionOnTheWire(r: Rendition, tail: string)
    ensures RenditionText(r, tail) ==
            "{\"name\":\"" + (Escape(r.name) + ("\",\"output_stream\":\"" + (Escape(r.outputStream) + ("\"" +
            (",\"width\":" + (Decimal.Print(r.width) + (",\"height\":" + (Decimal.Print(r.height) +
            (",\"video_bitrate\":" + (Decimal.Print(r.videoBitrate) + (",\"audio_bitrate\":" +
            (Decimal.Print(r.audioBitrate) + ("}" + tail)))))))))))))
  {
    hide Escape, StringMember, NumberMember, Decimal.Print;
    var t6 := "}" + tail;
    NumberSpelled("audio_bitrate", r.audioBitrate, t6);
    var t5 := "," + NumberMember("audio_bitrate", r.audioBitrate, t6);
    NumberSpelled("video_bitrate", r.videoBitrate, t5);
    var t4 := "," + NumberMember("video_bitrate", r.videoBitrate, t5);
    NumberSpelled("height", r.height, t4);
    var t3 := "," + NumberMember("height", r.height, t4);
    NumberSpelled("width", r.width, t3);
    var t2 := "," + NumberMember("width", r.width, t3);
    NextString("\"", "output_stream", r.outputStream, t2);
    var t1 := "," + StringMember("output_stream", r.outputStream, t2);
    StringSpelled("name", r.name, t1);
    RenditionKeysSpelled();
    assert RenditionText(r, tail) == "{" + StringMember("name", r.name, t1);
    Regroup("{", "\"name\":\"", Escape(r.name) + ("\"" + t1));
  }

  lemma RenditionKeysSpelled()
    ensures ",\"" + "audio_bitrate" + "\":" == ",\"audio_bitrate\":"
    ensures ",\"" + "video_bitrate" + "\":" == ",\"video_bitrate\":"
    ensures ",\"" + "height" + "\":" == ",\"height\":" && ",\"" + "width" + "\":" == ",\"width\":"
    ensures "\"" + (",\"" + "output_stream" + "\":\"") == "\",\"output_stream\":\""
    ensures "\"" + "name" + "\":\"" == "\"name\":\"" && "{" + "\"name\":\"" == "{\"name\":\""
  {
  }

  lemma Regroup(a: string, b: string, c: string)
    ensures a + (b + c) == (a + b) + c
  {
  }

  /** The last three members of an assignment. */
  function OriginText(a: Assignment): string {
    "," + StringMember("origin_rtmp_host", a.originHost, "," + NumberMember("origin_rtmp_port", a.originPort,
    "," + Quoted("renditions", ":" + RenditionsText(a.renditions, "}"))))
  }

  lemma OriginOnTheWire(a: Assignment)
    ensures "\"" + OriginText(a) ==
            "\",\"origin_rtmp_host\":\"" + (Escape(a.originHost) + ("\"" + (",\"origin_rtmp_port\":" +
            (Decimal.Print(a.originPort) + (",\"renditions\":" + RenditionsText(a.renditions, "}"))))))
  {
    hide Escape, StringMember, NumberMember, Decimal.Print, RenditionsText;
    var list := RenditionsText(a.renditions, "}");
    var t6 := "," + Quoted("renditions", ":" + list);
    OriginKeysSpelled();
    assert t6 == ",\"renditions\":" + list;
    NumberSpelled("origin_rtmp_port", a.originPort, t6);
    NextString("\"", "origin_rtmp_host", a.originHost, "," + NumberMember("origin_rtmp_port", a.originPort, t6));
  }

  lemma OriginKeysSpelled()
    ensures ",\"" + "origin_rtmp_port" + "\":" == ",\"origin_rtmp_port\":"
    ensures "\"" + (",\"" + "origin_rtmp_host" + "\":\"") == "\",\"origin_rtmp_host\":\""
  {
  }

  /** The text of an assignment, member by member. */
  lemma AssignmentOnTheWire(a: Assignment)
    ensures Body(a) ==
            "{\"id\":\"" + (Escape(a.id) + ("\",\"source_url\":\"" + (Escape(a.sourceUrl) + ("\"" +
            (",\"fps\":" + (Decimal.Print(a.fps) + (",\"target_application\":\"" + (Escape(a.targetApplication) +
            ("\"" + OriginText(a))))))))))
  {
    hide Escape, StringMember, NumberMember, Decimal.Print, RenditionsText, Quoted;
    var t4 := OriginText(a);
    AssignmentKeysSpelled();
    StringSpelled("target_application", a.targetApplication, t4);
    var t3 := "," + StringMember("target_application", a.targetApplication, t4);
    Regroup(",", "\"target_application\":\"", Escape(a.targetApplication) + ("\"" + t4));
    NumberSpelled("fps", a.fps, t3);
    var t2 := "," + NumberMember("fps", a.fps, t3);
    NextString("\"", "source_url", a.sourceUrl, t2);
    var t1 := "," + StringMember("source_url", a.sourceUrl, t2);
    StringSpelled("id", a.id, t1);
    assert Body(a) == "{" + StringMember("id", a.id, t1);
    Regroup("{", "\"id\":\"", Escape(a.id) + ("\"" + t1));
  }

  lemma AssignmentKeysSpelled()
    ensures ",\"" + "fps" + "\":" == ",\"fps\":" && "\"" + "id" + "\":\"" == "\"id\":\""
    ensures "\"" + "target_application" + "\":\"" == "\"target_application\":\""
    ensures "," + "\"target_application\":\"" == ",\"target_application\":\""
    ensures "\"" + (",\"" + "source_url" + "\":\"") == "\",\"source_url\":\"" && "{" + "\"id\":\"" == "{\"id\":\""
  {
  }
}
