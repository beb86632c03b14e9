/** The agent's parser as it runs: a cursor moving through the text, loops filling the
    assignment; and the origin's printer loop. Both do what the functions of Json and JobWire
    say, so the round trip proved there is theirs. */
module JobParser {
  import opened Prelude
  import opened Json
  import opened JobWire
  import Decimal

  /** What stands at the head of an object's loop. */
  datatype Found = Ended | Named(key: string) | Broken

  class JsonCursor {
    const input: string
    var pos: nat

    ghost predicate Valid()
      reads this
    {
      pos <= |input|
    }

    /** The text left to read. */
    ghost function Rest(): string
      reads this
      requires Valid()
    {
      input[pos..]
    }

    constructor (text: string)
      ensures Valid() && Rest() == text
    {
      input, pos := text, 0;
    }

    /** whitespace */
    method Whitespace()
      requires Valid()
      modifies this
      ensures Valid() && Rest() == SkipSpace(old(Rest())) && pos >= old(pos)
    {
      while pos < |input| && IsSpace(input[pos])
        invariant old(pos) <= pos <= |input| && SkipSpace(Rest()) == SkipSpace(old(Rest()))
      {
        assert input[pos..][1..] == input[pos + 1..];
        pos := pos + 1;
      }
    }

    /** take */
    method TakeChar(expected: char) returns (ok: bool)
      requires Valid()
      modifies this
      ensures Valid() && pos >= old(pos)
      ensures Take(old(Rest()), expected) == if ok then Some(Rest()) else None
      ensures !ok ==> Rest() == SkipSpace(old(Rest()))
      ensures ok ==> pos > old(pos)
    {
      Whitespace();
      if pos >= |input| || input[pos] != expected {
        return false;
      }
      assert input[pos..][1..] == input[pos + 1..];
      pos := pos + 1;
      ok := true;
    }

    /** done */
    method AtEnd() returns (r: bool)
      requires Valid()
      modifies this
      ensures Valid() && (r <==> SkipSpace(old(Rest())) == "")
    {
      Whitespace();
      r := pos == |input|;
    }

    /** string */
    method String() returns (r: Option<string>)
      requires Valid()
      modifies this
      ensures Valid() && pos >= old(pos)
      ensures ReadString(old(Rest())) == if r.Some? then Some((r.value, Rest())) else None
      ensures r.Some? ==> pos > old(pos)
    {
      hide StringBody, SkipSpace;
      Whitespace();
      r := None;
      if pos >= |input| || input[pos] != '"' {
        return;
      }
      assert input[pos..][1..] == input[pos + 1..];
      pos := pos + 1;
      r := Body();
    }

    /** The loop of string, after the opening quote. */
    method Body() returns (r: Option<string>)
      requires Valid()
      modifies this
      ensures Valid() && pos >= old(pos)
      ensures StringBody(old(Rest())) == if r.Some? then Some((r.value, Rest())) else None
    {
      hide StringBody, Unescape;
      var out := "";
      r := None;
      NothingBefore(Rest());
      while pos < |input|
        invariant old(pos) <= pos <= |input|
        invariant StringBody(old(Rest())) == PrefixAll(out, StringBody(Rest()))
      {
        ghost var s := Rest();
        var c := input[pos];
        OneChar(s);
        assert s[1..] == input[pos + 1..];
        pos := pos + 1;
        if c == '"' {
          assert out + "" == out;
          r := Some(out);
          return;
        }
        if c < 0x20 as char {
          return;
        }
        if c != '\\' {
          PrefixMore(out, c, StringBody(Rest()));
          out := out + [c];
          continue;
        }
        if pos >= |input| {
          return;
        }
        var escaped := Unescape(input[pos]);
        assert s[2..] == input[pos + 1..];
        pos := pos + 1;
        if escaped.None? {
          return;
        }
        PrefixMore(out, escaped.value, StringBody(Rest()));
        out := out + [escaped.value];
      }
      EndOfText();
    }

    /** The digits that come next. */
    method Digits()
      requires Valid()
      modifies this
      ensures Valid() && pos == old(pos) + Decimal.DigitRun(old(Rest()))
    {
      ghost var t := Rest();
      while pos < |input| && Decimal.IsDigit(input[pos])
        invariant old(pos) <= pos <= |input|
        invariant Decimal.DigitRun(t) == pos - old(pos) + Decimal.DigitRun(Rest())
      {
        assert input[pos..][1..] == input[pos + 1..];
        pos := pos + 1;
      }
    }

    /** unsigned_number */
    method UnsignedNumber() returns (r: Option<nat>)
      requires Valid()
      modifies this
      ensures Valid() && pos >= old(pos)
      ensures ReadNumber(old(Rest())) == if r.Some? then Some((r.value, Rest())) else None
      ensures r.Some? ==> pos > old(pos)
    {
      hide SkipSpace, Decimal.DigitRun, Decimal.Value;
      Whitespace();
      ghost var t := Rest();
      var begin := pos;
      Digits();
      RunIsDigits(t);
      assert t[..pos - begin] == input[begin..pos] && t[pos - begin..] == input[pos..];
      if begin == pos {
        return None;
      }
      var value := Decimal.Value(input[begin..pos]);
      r := if value >= U64 then None else Some(value);
    }

    /** set_number */
    method SetNumber(limit: nat) returns (r: Option<nat>)
      requires Valid()
      modifies this
      ensures Valid() && pos >= old(pos)
      ensures ReadBounded(old(Rest()), limit) == if r.Some? then Some((r.value, Rest())) else None
    {
      r := UnsignedNumber();
      if r.Some? && r.value >= limit {
        r := None;
      }
    }

    /** Up to the next comma or closing bracket. */
    method ToDelimiter()
      requires Valid()
      modifies this
      ensures Valid() && pos == old(pos) + BareLength(old(Rest()))
    {
      ghost var t := Rest();
      while pos < |input| && input[pos] != ',' && input[pos] != '}' && input[pos] != ']'
        invariant old(pos) <= pos <= |input| && BareLength(t) == pos - old(pos) + BareLength(Rest())
      {
        assert input[pos..][1..] == input[pos + 1..];
        pos := pos + 1;
      }
    }

    /** The last branch of skip_value. */
    method Bare() returns (ok: bool)
      requires Valid()
      modifies this
      ensures Valid() && pos >= old(pos)
      ensures var t := old(Rest());
              var n := |Trimmed(t[..BareLength(t)])|;
              ok == (n > 0) && pos == old(pos) + n
    {
      hide BareLength;
      ghost var t := Rest();
      var begin := pos;
      ToDelimiter();
      assert t[..pos - begin] == input[begin..pos];
      while pos > begin && IsSpace(input[pos - 1])
        invariant begin <= pos <= |input| && Trimmed(input[begin..pos]) == Trimmed(t[..BareLength(t)])
      {
        assert input[begin..pos][..pos - begin - 1] == input[begin..pos - 1];
        pos := pos - 1;
      }
      ok := pos > begin;
    }

    /** skip_value */
    method Skip() returns (ok: bool)
      requires Valid()
      modifies this
      ensures Valid() && pos >= old(pos)
      ensures SkipValue(old(Rest())) == if ok then Some(Rest()) else None
      ensures ok ==> pos > old(pos)
      decreases |input| - pos, 0
    {
      hide SkipSpace, SkipItems, StringBody, Trimmed, BareLength;
      SpacesDoNotMatter(Rest(), '"');
      Whitespace();
      ghost var t := Rest();
      if pos >= |input| {
        return false;
      }
      if input[pos] == '"' {
        var s := String();
        return s.Some?;
      }
      if input[pos] == '{' || input[pos] == '[' {
        var keyed := input[pos] == '{';
        assert t[1..] == input[pos + 1..];
        pos := pos + 1;
        ok := SkipContainer(keyed);
        return;
      }
      ok := Bare();
      assert ok ==> t[pos - (|input| - |t|)..] == input[pos..];
    }

    /** skip_container, after its opening bracket. */
    method SkipContainer(keyed: bool) returns (ok: bool)
      requires Valid()
      modifies this
      ensures Valid() && pos >= old(pos)
      ensures var s := old(Rest());
              var close := if keyed then '}' else ']';
              (if Take(s, close).Some? then Take(s, close) else SkipItems(s, keyed)) ==
              if ok then Some(Rest()) else None
      decreases |input| - pos, 1
    {
      hide SkipSpace, SkipValue, ReadString, Take;
      var close := if keyed then '}' else ']';
      ghost var s := Rest();
      SpacesDoNotMatter(s, close);
      ok := TakeChar(close);
      if ok {
        return;
      }
      SkipAfterSpace(s, keyed);
      ok := true;
      var more := true;
      while more
        invariant Valid() && old(pos) <= pos && ok
        invariant SkipItems(s, keyed) == if more then SkipItems(Rest(), keyed) else Some(Rest())
        decreases more, |input| - pos
      {
        if keyed {
          var key := String();
          if key.None? {
            return false;
          }
          ok := TakeChar(':');
          if !ok {
            return;
          }
        }
        ok := Skip();
        if !ok {
          return;
        }
        ghost var after := Rest();
        ok := TakeChar(close);
        if ok {
          more := false;
        } else {
          SpacesDoNotMatter(after, ',');
          ok := TakeChar(',');
          if !ok {
            return;
          }
        }
      }
    }

    /** The head of both object loops. */
    method NextKey(first: bool) returns (f: Found)
      requires Valid()
      modifies this
      ensures Valid() && pos >= old(pos) && (!f.Broken? ==> pos > old(pos))
      ensures match f
              case Ended => NextMember(old(Rest()), first) == End(Rest())
              case Named(key) => NextMember(old(Rest()), first) == Key(key, Rest())
              case Broken => NextMember(old(Rest()), first).Malformed?
    {
      hide SkipSpace, ReadString, Take;
      ghost var s := Rest();
      var ok := TakeChar('}');
      if ok {
        return Ended;
      }
      SpacesDoNotMatter(s, ',');
      if !first {
        ok := TakeChar(',');
        if !ok {
          return Broken;
        }
      }
      var key := String();
      if key.None? {
        return Broken;
      }
      ok := TakeChar(':');
      f := if ok then Named(key.value) else Broken;
    }
  }

  lemma NothingBefore(s: string)
    ensures StringBody(s) == PrefixAll("", StringBody(s))
  {
    if StringBody(s).Some? {
      assert "" + StringBody(s).value.0 == StringBody(s).value.0;
    }
  }

  lemma PrefixMore(out: string, c: char, r: Option<(string, string)>)
    ensures PrefixAll(out, Prefix(c, r)) == PrefixAll(out + [c], r)
  {
    if r.Some? {
      assert out + ([c] + r.value.0) == out + [c] + r.value.0;
    }
  }

  /** One turn of the string loop. */
  lemma OneChar(s: string)
    requires s != ""
    ensures StringBody(s) ==
            if s[0] == '"' then Some(("", s[1..]))
            else if s[0] < 0x20 as char then None
            else if s[0] != '\\' then Prefix(s[0], StringBody(s[1..]))
            else if |s| < 2 || Unescape(s[1]).None? then None
            else Prefix(Unescape(s[1]).value, StringBody(s[2..]))
  {
  }

  lemma EndOfText()
    ensures StringBody("").None?
  {
  }

  lemma SkipAfterSpace(s: string, keyed: bool)
    ensures SkipItems(SkipSpace(s), keyed) == SkipItems(s, keyed)
  {
    SpacesDoNotMatter(s, ',');
  }

  // --------------------------------------------------------------- the object loops

  /** One member of a rendition, by its key. */
  method TakeRenditionField(cursor: JsonCursor, key: string, r: Rendition) returns (o: Option<Rendition>)
    requires cursor.Valid()
    modifies cursor
    ensures cursor.Valid() && cursor.pos >= old(cursor.pos)
    ensures ReadRenditionField(RenditionFieldOf(key), old(cursor.Rest()), r) ==
            if o.Some? then Some((o.value, cursor.Rest())) else None
  {
    hide ReadString, ReadBounded, SkipValue, RenditionFieldOf;
    o := None;
    match RenditionFieldOf(key) {
      case NameField =>
        var v := cursor.String();
        o := if v.None? then None else Some(r.(name := v.value));
      case OutputField =>
        var v := cursor.String();
        o := if v.None? then None else Some(r.(outputStream := v.value));
      case WidthField =>
        var v := cursor.SetNumber(U32);
        o := if v.None? then None else Some(r.(width := v.value));
      case HeightField =>
        var v := cursor.SetNumber(U32);
        o := if v.None? then None else Some(r.(height := v.value));
      case VideoField =>
        var v := cursor.SetNumber(U32);
        o := if v.None? then None else Some(r.(videoBitrate := v.value));
      case AudioField =>
        var v := cursor.SetNumber(U32);
        o := if v.None? then None else Some(r.(audioBitrate := v.value));
      case OtherField =>
        var ok := cursor.Skip();
        o := if ok then Some(r) else None;
    }
  }

  /** parse_rendition */
  method ParseRendition(cursor: JsonCursor) returns (o: Option<Rendition>)
    requires cursor.Valid()
    modifies cursor
    ensures cursor.Valid() && cursor.pos >= old(cursor.pos)
    ensures ReadRendition(old(cursor.Rest())) == if o.Some? then Some((o.value, cursor.Rest())) else None
    ensures o.Some? ==> cursor.pos > old(cursor.pos)
  {
    hide Take, NextMember, ReadRenditionField, RenditionFieldOf;
    o := None;
    var ok := cursor.TakeChar('{');
    if !ok {
      return;
    }
    var r, first := NEW_RENDITION, true;
    ghost var goal := ReadRenditionFields(cursor.Rest(), r, first);
    while true
      invariant cursor.Valid() && cursor.pos > old(cursor.pos)
      invariant goal == ReadRenditionFields(cursor.Rest(), r, first)
      decreases |cursor.input| - cursor.pos
    {
      var f := cursor.NextKey(first);
      match f {
        case Broken => return;
        case Ended =>
          o := if first then None else Some(r);
          return;
        case Named(key) =>
          var next := TakeRenditionField(cursor, key, r);
          if next.None? {
            return;
          }
          r, first := next.value, false;
      }
    }
  }

  /** parse_renditions, appending to `before`. */
  method ParseRenditions(cursor: JsonCursor, before: seq<Rendition>) returns (o: Option<seq<Rendition>>)
    requires cursor.Valid()
    modifies cursor
    ensures cursor.Valid() && cursor.pos >= old(cursor.pos)
    ensures ReadRenditions(old(cursor.Rest()), before) == if o.Some? then Some((o.value, cursor.Rest())) else None
  {
    hide Take, ReadRendition, SkipSpace;
    o := None;
    var ok := cursor.TakeChar('[');
    if !ok {
      return;
    }
    ghost var s := cursor.Rest();
    ok := cursor.TakeChar(']');
    if ok {
      return Some(before);
    }
    ListAfterSpace(s, before);
    var rs := before;
    while true
      invariant cursor.Valid() && cursor.pos >= old(cursor.pos)
      invariant ReadRenditionList(s, before) == ReadRenditionList(cursor.Rest(), rs)
      decreases |cursor.input| - cursor.pos
    {
      var r := ParseRendition(cursor);
      if r.None? {
        return;
      }
      rs := rs + [r.value];
      ghost var after := cursor.Rest();
      ok := cursor.TakeChar(']');
      if ok {
        return Some(rs);
      }
      SpacesDoNotMatter(after, ',');
      ok := cursor.TakeChar(',');
      if !ok {
        return;
      }
    }
  }

  lemma ListAfterSpace(s: string, rs: seq<Rendition>)
    ensures ReadRenditionList(SkipSpace(s), rs) == ReadRenditionList(s, rs)
  {
    SpacesDoNotMatter(s, '{');
  }

  /** One member of the assignment, by its key. */
  method TakeField(cursor: JsonCursor, key: string, a: Assignment) returns (o: Option<Assignment>)
    requires cursor.Valid()
    modifies cursor
    ensures cursor.Valid() && cursor.pos >= old(cursor.pos)
    ensures ReadField(FieldOf(key), old(cursor.Rest()), a) == if o.Some? then Some((o.value, cursor.Rest())) else None
  {
    hide ReadString, ReadBounded, SkipValue, ReadRenditions, FieldOf;
    o := None;
    match FieldOf(key) {
      case IdField =>
        var v := cursor.String();
        o := if v.None? then None else Some(a.(id := v.value));
      case UrlField =>
        var v := cursor.String();
        o := if v.None? then None else Some(a.(sourceUrl := v.value));
      case FpsField =>
        var v := cursor.SetNumber(U32);
        o := if v.None? then None else Some(a.(fps := v.value));
      case ApplicationField =>
        var v := cursor.String();
        o := if v.None? then None else Some(a.(targetApplication := v.value));
      case HostField =>
        var v := cursor.String();
        o := if v.None? then None else Some(a.(originHost := v.value));
      case PortField =>
        var v := cursor.SetNumber(U16);
        o := if v.None? then None else Some(a.(originPort := v.value));
      case RenditionsField =>
        var v := ParseRenditions(cursor, a.renditions);
        o := if v.None? then None else Some(a.(renditions := v.value));
      case UnknownField =>
        var ok := cursor.Skip();
        o := if ok then Some(a) else None;
    }
  }

  /** parse_transcoder_job_assignment */
  method ParseAssignment(json: string) returns (o: Option<Assignment>)
    ensures o == Parse(json)
  {
    hide Take, NextMember, ReadField, FieldOf, Valid, SkipSpace;
    o := None;
    var cursor := new JsonCursor(json);
    var ok := cursor.TakeChar('{');
    if !ok {
      return;
    }
    var a, first, more := NEW_ASSIGNMENT, true, true;
    ghost var goal := ReadFields(cursor.Rest(), a, first);
    while more
      invariant cursor.Valid()
      invariant goal == if more then ReadFields(cursor.Rest(), a, first) else Some((a, cursor.Rest()))
      decreases more, |cursor.input| - cursor.pos
    {
      var f := cursor.NextKey(first);
      match f {
        case Broken => return;
        case Ended => more := false;
        case Named(key) =>
          var next := TakeField(cursor, key, a);
          if next.None? {
            return;
          }
          a, first := next.value, false;
      }
    }
    ok := cursor.AtEnd();
    if !ok || !Valid(a) {
      return;
    }
    o := Some(a);
  }

  // -------------------------------------------------------------------- the printer

  /** Writes a text: what was left to write shrinks by it. */
  method Put(out: string, text: string, ghost tail: string, ghost whole: string) returns (r: string)
    requires out + (text + tail) == whole
    ensures r + tail == whole
  {
    assert out + (text + tail) == (out + text) + tail;
    r := out + text;
  }

  method PutString(out: string, key: string, value: string, ghost tail: string, ghost whole: string) returns (r: string)
    requires out + StringMember(key, value, tail) == whole
    ensures r + tail == whole
  {
    var escaped := JsonEscape(value);
    var text := "\"" + key + "\":\"" + escaped + "\"";
    assert StringMember(key, value, tail) == text + tail;
    r := Put(out, text, tail, whole);
  }

  method PutNumber(out: string, key: string, value: nat, ghost tail: string, ghost whole: string) returns (r: string)
    requires out + NumberMember(key, value, tail) == whole
    ensures r + tail == whole
  {
    hide Decimal.Print;
    var text := "\"" + key + "\":" + Decimal.Print(value);
    assert NumberMember(key, value, tail) == text + tail;
    r := Put(out, text, tail, whole);
  }

  /** One rendition as renditions_to_json writes it. */
  method PutRendition(out: string, d: Rendition, ghost tail: string, ghost whole: string) returns (r: string)
    requires out + RenditionText(d, tail) == whole
    ensures r + tail == whole
  {
    hide StringMember, NumberMember;
    ghost var t6 := "}" + tail;
    ghost var t5 := NumberMember("audio_bitrate", d.audioBitrate, t6);
    ghost var t4 := NumberMember("video_bitrate", d.videoBitrate, "," + t5);
    ghost var t3 := NumberMember("height", d.height, "," + t4);
    ghost var t2 := NumberMember("width", d.width, "," + t3);
    ghost var t1 := StringMember("output_stream", d.outputStream, "," + t2);
    ghost var t0 := StringMember("name", d.name, "," + t1);
    r := Put(out, "{", t0, whole);
    r := PutString(r, "name", d.name, "," + t1, whole);
    r := Put(r, ",", t1, whole);
    r := PutString(r, "output_stream", d.outputStream, "," + t2, whole);
    r := Put(r, ",", t2, whole);
    r := PutNumber(r, "width", d.width, "," + t3, whole);
    r := Put(r, ",", t3, whole);
    r := PutNumber(r, "height", d.height, "," + t4, whole);
    r := Put(r, ",", t4, whole);
    r := PutNumber(r, "video_bitrate", d.videoBitrate, "," + t5, whole);
    r := Put(r, ",", t5, whole);
    r := PutNumber(r, "audio_bitrate", d.audioBitrate, t6, whole);
    r := Put(r, "}", tail, whole);
  }

  /** What the printer loop has still to write when it has come to rendition `i`. */
  function Unwritten(rs: seq<Rendition>, i: nat): string
    requires i <= |rs|
  {
    if i == |rs| then "]" else (if i > 0 then "," else "") + RenditionList(rs[i..], "")
  }

  lemma NextUnwritten(rs: seq<Rendition>, i: nat)
    requires i < |rs|
    ensures RenditionList(rs[i..], "") == RenditionText(rs[i], Unwritten(rs, i + 1))
    ensures Unwritten(rs, i) == (if i > 0 then "," else "") + RenditionText(rs[i], Unwritten(rs, i + 1))
  {
    hide RenditionText;
    assert rs[i..][1..] == rs[i + 1..];
    assert "]" + "" == "]";
  }

  /** renditions_to_json */
  method RenditionsToJson(rs: seq<Rendition>) returns (out: string)
    ensures out == RenditionsText(rs, "")
  {
    hide RenditionText, Unwritten, RenditionsText;
    ghost var whole := RenditionsText(rs, "");
    out := "[";
    AllUnwritten(rs);
    for i := 0 to |rs|
      invariant out + Unwritten(rs, i) == whole
    {
      NextUnwritten(rs, i);
      ghost var rest := Unwritten(rs, i + 1);
      if i > 0 {
        out := Put(out, ",", RenditionText(rs[i], rest), whole);
      } else {
        assert "" + RenditionText(rs[i], rest) == RenditionText(rs[i], rest);
      }
      out := PutRendition(out, rs[i], rest, whole);
    }
    out := out + "]";
  }

  lemma AllUnwritten(rs: seq<Rendition>)
    ensures "[" + Unwritten(rs, 0) == RenditionsText(rs, "")
    ensures Unwritten(rs, |rs|) == "]"
  {
    hide RenditionText;
    assert rs[0..] == rs;
    assert "]" + "" == "]";
    if rs != [] {
      assert "" + RenditionList(rs, "") == RenditionList(rs, "");
    }
  }

  // ------------------------------------------------------------------------ the body

  lemma QuotedAppends(s: string, a: string, b: string)
    ensures Quoted(s, a + b) == Quoted(s, a) + b
  {
  }

  lemma StringMemberAppends(key: string, value: string, a: string, b: string)
    ensures StringMember(key, value, a + b) == StringMember(key, value, a) + b
  {
    hide Quoted;
    QuotedAppends(Escape(value), a, b);
    assert ":" + (Quoted(Escape(value), a) + b) == (":" + Quoted(Escape(value), a)) + b;
    QuotedAppends(key, ":" + Quoted(Escape(value), a), b);
  }

  lemma NumberMemberAppends(key: string, value: nat, a: string, b: string)
    ensures NumberMember(key, value, a + b) == NumberMember(key, value, a) + b
  {
    hide Quoted;
    var digits := Decimal.Print(value);
    assert ":" + (digits + (a + b)) == (":" + (digits + a)) + b;
    QuotedAppends(key, ":" + (digits + a), b);
  }

  lemma AfterComma(a: string, b: string)
    ensures "," + (a + b) == ("," + a) + b
  {
  }

  /** What follows a rendition is simply appended. */
  lemma RenditionAppends(r: Rendition, a: string, b: string)
    ensures RenditionText(r, a + b) == RenditionText(r, a) + b
  {
    hide StringMember, NumberMember;
    var t6 := "}" + a;
    assert "}" + (a + b) == t6 + b;
    NumberMemberAppends("audio_bitrate", r.audioBitrate, t6, b);
    var t5 := NumberMember("audio_bitrate", r.audioBitrate, t6);
    AfterComma(t5, b);
    NumberMemberAppends("video_bitrate", r.videoBitrate, "," + t5, b);
    var t4 := NumberMember("video_bitrate", r.videoBitrate, "," + t5);
    AfterComma(t4, b);
    NumberMemberAppends("height", r.height, "," + t4, b);
    var t3 := NumberMember("height", r.height, "," + t4);
    AfterComma(t3, b);
    NumberMemberAppends("width", r.width, "," + t3, b);
    var t2 := NumberMember("width", r.width, "," + t3);
    AfterComma(t2, b);
    StringMemberAppends("output_stream", r.outputStream, "," + t2, b);
    var t1 := StringMember("output_stream", r.outputStream, "," + t2);
    AfterComma(t1, b);
    StringMemberAppends("name", r.name, "," + t1, b);
    var t0 := StringMember("name", r.name, "," + t1);
    assert "{" + (t0 + b) == ("{" + t0) + b;
  }

  lemma {:induction false} ListAppends(rs: seq<Rendition>, tail: string)
    requires rs != []
    ensures RenditionList(rs, tail) == RenditionList(rs, "") + tail
    decreases |rs|
  {
    hide RenditionText;
    if |rs| == 1 {
      assert "]" + tail == ("]" + "") + tail;
      RenditionAppends(rs[0], "]" + "", tail);
    } else {
      ListAppends(rs[1..], tail);
      AfterComma(RenditionList(rs[1..], ""), tail);
      RenditionAppends(rs[0], "," + RenditionList(rs[1..], ""), tail);
    }
  }

  /** What follows the list of renditions is simply appended. */
  lemma RenditionsAppend(rs: seq<Rendition>, tail: string)
    ensures RenditionsText(rs, tail) == RenditionsText(rs, "") + tail
  {
    hide RenditionList;
    if rs == [] {
      assert "[" + ("]" + tail) == ("[" + ("]" + "")) + tail;
    } else {
      ListAppends(rs, tail);
      assert "[" + (RenditionList(rs, "") + tail) == ("[" + RenditionList(rs, "")) + tail;
    }
  }

  /** The body dispatch_locked writes for a job. */
  method PrintBody(a: Assignment) returns (out: string)
    ensures out == Body(a)
  {
    hide StringMember, NumberMember, RenditionsText, Quoted;
    ghost var whole := Body(a);
    ghost var t6 := Quoted("renditions", ":" + RenditionsText(a.renditions, "}"));
    ghost var t5 := NumberMember("origin_rtmp_port", a.originPort, "," + t6);
    ghost var t4 := StringMember("origin_rtmp_host", a.originHost, "," + t5);
    ghost var t3 := StringMember("target_application", a.targetApplication, "," + t4);
    ghost var t2 := NumberMember("fps", a.fps, "," + t3);
    ghost var t1 := StringMember("source_url", a.sourceUrl, "," + t2);
    ghost var t0 := StringMember("id", a.id, "," + t1);
    out := "{";
    out := PutString(out, "id", a.id, "," + t1, whole);
    out := Put(out, ",", t1, whole);
    out := PutString(out, "source_url", a.sourceUrl, "," + t2, whole);
    out := Put(out, ",", t2, whole);
    out := PutNumber(out, "fps", a.fps, "," + t3, whole);
    out := Put(out, ",", t3, whole);
    out := PutString(out, "target_application", a.targetApplication, "," + t4, whole);
    out := Put(out, ",", t4, whole);
    out := PutString(out, "origin_rtmp_host", a.originHost, "," + t5, whole);
    out := Put(out, ",", t5, whole);
    out := PutNumber(out, "origin_rtmp_port", a.originPort, "," + t6, whole);
    out := Put(out, ",", t6, whole);
    RenditionsLast(a.renditions);
    var list := RenditionsToJson(a.renditions);
    out := Put(out, "\"renditions\":", list + "}", whole);
    out := Put(out, list, "}", whole);
    out := out + "}";
  }

  lemma RenditionsLast(rs: seq<Rendition>)
    ensures Quoted("renditions", ":" + RenditionsText(rs, "}")) == "\"renditions\":" + (RenditionsText(rs, "") + "}")
  {
    hide RenditionsText;
    RenditionsAppend(rs, "}");
  }

  /** From the origin's printer through the agent's parser: the very assignment, or nothing
      when a rendition's name cannot be carried. */
  method PrintAndParse(a: Assignment) returns (o: Option<Assignment>)
    requires Valid(a) && Fits(a)
    ensures o == if forall i | 0 <= i < |a.renditions| :: Printable(a.renditions[i].name) then Some(a) else None
  {
    hide Valid, Fits, Parse, Body, Printable;
    var body := PrintBody(a);
    o := ParseAssignment(body);
    JobRoundTrip(a);
  }
}
