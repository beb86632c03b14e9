/** The EXT-X-KEY tag: what `append_key_tag` prints, and how a player reads it back as an
    attribute list (section 4.2 of RFC 8216). */
module KeyTag {
  import opened Prelude
  import opened Media
  import opened Text

  /** An attribute as printed: quoted-string values go between double quotes. */
  datatype Attribute = Attribute(name: string, value: string, quoted: bool)

  function PrintAttribute(a: Attribute): string {
    a.name + "=" + if a.quoted then "\"" + a.value + "\"" else a.value
  }

  /** Attributes after the first, each with its leading comma. */
  function PrintMore(attributes: seq<Attribute>): string {
    if attributes == [] then "" else "," + PrintAttribute(attributes[0]) + PrintMore(attributes[1..])
  }

  /** The value at the start of `rest`, and what follows its separator. */
  function ReadValue(rest: string): (r: (string, string))
    ensures |r.1| <= |rest|
  {
    if rest != [] && rest[0] == '"' then
      var body := rest[1..];
      var q := IndexOf(body, '"');
      var after := if q == |body| then [] else body[q + 1..];
      (body[..q], if after == [] then [] else after[1..])
    else
      var c := IndexOf(rest, ',');
      (rest[..c], if c == |rest| then [] else rest[c + 1..])
  }

  /** Name/value pairs of an attribute list. */
  function ParseAttributes(s: string): seq<(string, string)>
    decreases |s|
  {
    var e := IndexOf(s, '=');
    if e == |s| then []
    else
      var value := ReadValue(s[e + 1..]);
      [(s[..e], value.0)] + ParseAttributes(value.1)
  }

  predicate Printable(a: Attribute) {
    && '=' !in a.name
    && (if a.quoted then '"' !in a.value else ',' !in a.value && '"' !in a.value)
  }

  function Pairs(attributes: seq<Attribute>): seq<(string, string)> {
    if attributes == [] then []
    else [(attributes[0].name, attributes[0].value)] + Pairs(attributes[1..])
  }

  /** `tail` is what follows an attribute: nothing, or a comma and the next ones. */
  predicate Continues(tail: string, onward: string) {
    if tail == [] then onward == [] else tail == "," + onward
  }

  lemma ReadsQuoted(value: string, tail: string, onward: string)
    requires '"' !in value && Continues(tail, onward)
    ensures ReadValue("\"" + value + "\"" + tail) == (value, onward)
  {
    var body := ("\"" + value + "\"" + tail)[1..];
    assert body == value + ['"'] + tail;
    IndexOfFirst(value, '"', tail);
    assert body[..|value|] == value && body[|value| + 1..] == tail;
  }

  lemma ReadsBare(value: string, tail: string, onward: string)
    requires ',' !in value && '"' !in value && Continues(tail, onward)
    ensures ReadValue(value + tail) == (value, onward)
  {
    var rest := value + tail;
    if tail == [] {
      assert rest == value;
      IndexOfNone(value, ',');
    } else {
      assert rest == value + [','] + onward;
      IndexOfFirst(value, ',', onward);
    }
  }

  lemma ReadsName(name: string, rest: string)
    requires '=' !in name
    ensures ParseAttributes(name + ['='] + rest) == [(name, ReadValue(rest).0)] + ParseAttributes(ReadValue(rest).1)
  {
    hide ReadValue, IndexOf;
    var s := name + ['='] + rest;
    IndexOfFirst(name, '=', rest);
    assert s[..|name|] == name && s[|name| + 1..] == rest;
  }

  lemma ParseNothing()
    ensures ParseAttributes([]) == []
  {
  }

  /** Reading an attribute list gives back the attributes that were printed. */
  lemma {:induction false} ReadsAttributes(first: Attribute, more: seq<Attribute>)
    requires Printable(first) && forall i | 0 <= i < |more| :: Printable(more[i])
    ensures ParseAttributes(PrintAttribute(first) + PrintMore(more)) == Pairs([first] + more)
    decreases |more|
  {
    hide ParseAttributes, ReadValue;
    var tail := PrintMore(more);
    var onward := if more == [] then [] else PrintAttribute(more[0]) + PrintMore(more[1..]);
    assert Continues(tail, onward);
    ParseNothing();
    if more != [] {
      ReadsAttributes(more[0], more[1..]);
      assert [more[0]] + more[1..] == more;
    }
    assert ([first] + more)[1..] == more;
    if first.quoted {
      ReadsQuoted(first.value, tail, onward);
      ReadsName(first.name, "\"" + first.value + "\"" + tail);
      assert PrintAttribute(first) + tail == first.name + ['='] + ("\"" + first.value + "\"" + tail);
    } else {
      ReadsBare(first.value, tail, onward);
      ReadsName(first.name, first.value + tail);
      assert PrintAttribute(first) + tail == first.name + ['='] + (first.value + tail);
    }
  }

  // ------------------------------------------------------------------ the tag

  function Optional(name: string, value: string, quoted: bool): seq<Attribute> {
    if value == "" then [] else [Attribute(name, value, quoted)]
  }

  /** The attributes after METHOD, in the order append_key_tag prints them. */
  function KeyAttributes(k: KeyInfo): seq<Attribute> {
    [Attribute("URI", k.uri, true)] + Optional("IV", k.ivHex, false) +
    Optional("KEYFORMAT", k.keyFormat, true) + Optional("KEYFORMATVERSIONS", k.keyFormatVersions, true)
  }

  /** The text after "#EXT-X-KEY:". */
  function KeyText(key: Option<KeyInfo>): string {
    if key.None? || !key.value.Encrypted() then "METHOD=NONE"
    else PrintAttribute(Attribute("METHOD", key.value.cipher, false)) + PrintMore(KeyAttributes(key.value))
  }

  /** What the key description means to a player: null and METHOD=NONE are both "clear". */
  function Effective(key: Option<KeyInfo>): Option<KeyInfo> {
    if key.Some? && key.value.Encrypted() then key else None
  }

  function Lookup(pairs: seq<(string, string)>, name: string): string {
    if pairs == [] then "" else if pairs[0].0 == name then pairs[0].1 else Lookup(pairs[1..], name)
  }

  /** The player's reading of a key tag. */
  function DecodeKey(text: string): Option<KeyInfo> {
    var pairs := ParseAttributes(text);
    var cipher := Lookup(pairs, "METHOD");
    if cipher == "NONE" || cipher == "" then None
    else Some(KeyInfo(cipher, Lookup(pairs, "URI"), Lookup(pairs, "IV"), Lookup(pairs, "KEYFORMAT"),
                      Lookup(pairs, "KEYFORMATVERSIONS")))
  }

  /** Values fit the grammar of the attributes they are printed in, on one line. */
  predicate WellFormed(key: Option<KeyInfo>) {
    key.Some? && key.value.Encrypted() ==>
      var k := key.value;
      && ',' !in k.cipher && '"' !in k.cipher && '\n' !in k.cipher
      && '"' !in k.uri && '\n' !in k.uri
      && ',' !in k.ivHex && '"' !in k.ivHex && '\n' !in k.ivHex
      && '"' !in k.keyFormat && '\n' !in k.keyFormat
      && '"' !in k.keyFormatVersions && '\n' !in k.keyFormatVersions
  }

  lemma {:induction false} LookupSkips(attributes: seq<Attribute>, more: seq<Attribute>, name: string)
    requires forall i | 0 <= i < |attributes| :: attributes[i].name != name
    ensures Lookup(Pairs(attributes + more), name) == Lookup(Pairs(more), name)
  {
    if attributes == [] {
      assert attributes + more == more;
    } else {
      assert (attributes + more)[1..] == attributes[1..] + more;
      LookupSkips(attributes[1..], more, name);
    }
  }

  lemma LookupOptional(name: string, value: string, quoted: bool, more: seq<Attribute>)
    requires value == "" ==> forall i | 0 <= i < |more| :: more[i].name != name
    ensures Lookup(Pairs(Optional(name, value, quoted) + more), name) == value
  {
    if value == "" {
      assert Optional(name, value, quoted) + more == more + [];
      LookupSkips(more, [], name);
    }
  }

  lemma KeyAttributesLookup(k: KeyInfo)
    ensures var pairs := Pairs([Attribute("METHOD", k.cipher, false)] + KeyAttributes(k));
            && Lookup(pairs, "METHOD") == k.cipher && Lookup(pairs, "URI") == k.uri && Lookup(pairs, "IV") == k.ivHex
            && Lookup(pairs, "KEYFORMAT") == k.keyFormat && Lookup(pairs, "KEYFORMATVERSIONS") == k.keyFormatVersions
  {
    hide Optional;
    var all := [Attribute("METHOD", k.cipher, false)] + KeyAttributes(k);
    assert all[1..][0] == Attribute("URI", k.uri, true);
    LookupLater(k);
  }

  lemma LookupLater(k: KeyInfo)
    ensures var pairs := Pairs([Attribute("METHOD", k.cipher, false)] + KeyAttributes(k));
            && Lookup(pairs, "IV") == k.ivHex && Lookup(pairs, "KEYFORMAT") == k.keyFormat
            && Lookup(pairs, "KEYFORMATVERSIONS") == k.keyFormatVersions
  {
    hide Pairs, Lookup;
    var start := [Attribute("METHOD", k.cipher, false), Attribute("URI", k.uri, true)];
    var iv, format := Optional("IV", k.ivHex, false), Optional("KEYFORMAT", k.keyFormat, true);
    var versions := Optional("KEYFORMATVERSIONS", k.keyFormatVersions, true);
    var all := [Attribute("METHOD", k.cipher, false)] + KeyAttributes(k);
    assert all == start + (iv + (format + versions));
    LookupSkips(start, iv + (format + versions), "IV");
    LookupOptional("IV", k.ivHex, false, format + versions);
    assert all == (start + iv) + (format + versions);
    LookupSkips(start + iv, format + versions, "KEYFORMAT");
    LookupOptional("KEYFORMAT", k.keyFormat, true, versions);
    assert all == (start + iv + format) + (versions + []);
    LookupSkips(start + iv + format, versions + [], "KEYFORMATVERSIONS");
    LookupOptional("KEYFORMATVERSIONS", k.keyFormatVersions, true, []);
  }

  lemma ReadsClear()
    ensures Lookup(ParseAttributes("METHOD=NONE"), "METHOD") == "NONE"
  {
    hide ParseAttributes;
    var none := Attribute("METHOD", "NONE", false);
    ReadsAttributes(none, []);
    assert PrintAttribute(none) + PrintMore([]) == "METHOD=NONE";
  }

  lemma ReadsEncrypted(k: KeyInfo)
    requires WellFormed(Some(k)) && k.Encrypted()
    ensures DecodeKey(KeyText(Some(k))) == Some(k)
  {
    hide ParseAttributes, Lookup, PrintMore, PrintAttribute;
    ReadsAttributes(Attribute("METHOD", k.cipher, false), KeyAttributes(k));
    KeyAttributesLookup(k);
  }

  /** A player reads back from the printed tag exactly the key of the segment. */
  lemma KeyTagRoundTrip(key: Option<KeyInfo>)
    requires WellFormed(key)
    ensures DecodeKey(KeyText(key)) == Effective(key)
  {
    hide ParseAttributes, Lookup, WellFormed;
    if key.Some? && key.value.Encrypted() {
      ReadsEncrypted(key.value);
    } else {
      ReadsClear();
    }
  }

  lemma {:induction false} PrintMoreOneLine(attributes: seq<Attribute>)
    requires forall i | 0 <= i < |attributes| :: '\n' !in attributes[i].name && '\n' !in attributes[i].value
    ensures '\n' !in PrintMore(attributes)
  {
    if attributes != [] {
      PrintMoreOneLine(attributes[1..]);
      AttributeOneLine(attributes[0]);
    }
  }

  lemma AttributeOneLine(a: Attribute)
    requires '\n' !in a.name && '\n' !in a.value
    ensures '\n' !in PrintAttribute(a)
  {
  }

  lemma KeyAttributesOneLine(k: KeyInfo)
    requires WellFormed(Some(k)) && k.Encrypted()
    ensures forall i | 0 <= i < |KeyAttributes(k)| ::
              '\n' !in KeyAttributes(k)[i].name && '\n' !in KeyAttributes(k)[i].value
  {
  }

  lemma KeyTextOneLine(key: Option<KeyInfo>)
    requires WellFormed(key)
    ensures '\n' !in KeyText(key)
  {
    hide PrintMore, PrintAttribute, KeyAttributes;
    if key.Some? && key.value.Encrypted() {
      KeyAttributesOneLine(key.value);
      AttributeOneLine(Attribute("METHOD", key.value.cipher, false));
      PrintMoreOneLine(KeyAttributes(key.value));
    }
  }
}
