/** What ties the segment store's containers to its append history, as predicates over
    values, with one lemma per container update. */
module StoreInvariants {
  import opened Prelude
  import opened Media
  import opened StoreParts
  import Decimal

  // ---------------------------------------------------------------- segments

  /** The deque is a suffix of the history; the counter numbers the flagged segments
      before it; the index holds exactly its segments when names are distinct. */
  ghost predicate SegmentsOk(history: seq<Segment>, segments: seq<Segment>, gone: nat, byName: map<string, Segment>) {
    && IndexedSuffix(SegmentNames(history), history, segments, byName)
    && gone == Flagged(history[..|history| - |segments|])
  }

  lemma SegmentAppended(history: seq<Segment>, segments: seq<Segment>, gone: nat, byName: map<string, Segment>,
                        s: Segment)
    requires SegmentsOk(history, segments, gone, byName)
    ensures SegmentsOk(history + [s], segments + [s], gone, Emplace(byName, s.name, s))
  {
    AppendIndexed(SegmentNames(history), history, segments, byName, s.name, s);
    assert SegmentNames(history + [s]) == SegmentNames(history) + [s.name];
    assert (history + [s])[..|history| - |segments|] == history[..|history| - |segments|];
  }

  lemma SegmentDropped(history: seq<Segment>, segments: seq<Segment>, gone: nat, byName: map<string, Segment>)
    requires segments != [] && SegmentsOk(history, segments, gone, byName)
    ensures SegmentsOk(history, segments[1..], gone + (if segments[0].discontinuity then 1 else 0),
                       byName - {segments[0].name})
  {
    var k := |history| - |segments|;
    DropIndexed(SegmentNames(history), history, segments, byName);
    assert history[..k + 1][..k] == history[..k];
  }

  lemma SegmentLookup(history: seq<Segment>, segments: seq<Segment>, gone: nat, byName: map<string, Segment>,
                      name: string)
    requires SegmentsOk(history, segments, gone, byName) && Distinct(SegmentNames(history))
    ensures name in byName ==> byName[name] in segments && byName[name].name == name
    ensures name !in byName ==> name !in SegmentNames(segments)
  {
    hide Indexes, Distinct, Flagged;
    LookupIsExact(SegmentNames(history), history, segments, byName, name);
    assert SegmentNames(history)[|history| - |segments|..] == SegmentNames(segments);
  }

  // ------------------------------------------------------------------- parts

  /** The retained parts: those of the retained segments, those on their way into a
      segment being appended (`transit`), and those of the open segment. They are a
      suffix of all parts ever added, the index holds exactly them when part names
      are distinct, and the byte counter is the sum of everything retained. */
  ghost predicate PartsOk(added: seq<Part>, segments: seq<Segment>, transit: seq<Part>, open: seq<Part>,
                          held: nat, index: map<string, Part>)
  {
    && held == HeldBytes(segments) + PartBytes(transit) + PartBytes(open)
    && IndexedSuffix(PartNames(added), added, AllParts(segments) + (transit + open), index)
  }

  lemma PartAppended(added: seq<Part>, segments: seq<Segment>, open: seq<Part>, held: nat, index: map<string, Part>,
                     p: Part)
    requires PartsOk(added, segments, [], open, held, index)
    ensures PartsOk(added + [p], segments, [], open + [p], held + |p.data|, Emplace(index, p.name, p))
  {
    var retained := AllParts(segments) + ([] + open);
    AppendIndexed(PartNames(added), added, retained, index, p.name, p);
    assert AllParts(segments) + ([] + (open + [p])) == retained + [p];
    assert PartNames(added + [p]) == PartNames(added) + [p.name];
    PartBytesAppend(open, [p]);
  }

  /** Closing a segment hands the open parts over to it. */
  lemma PartsClosed(added: seq<Part>, segments: seq<Segment>, open: seq<Part>, held: nat, index: map<string, Part>)
    requires PartsOk(added, segments, [], open, held, index)
    ensures PartsOk(added, segments, open, [], held, index)
  {
    assert [] + open == open + [];
  }

  lemma SegmentTakesParts(added: seq<Part>, segments: seq<Segment>, open: seq<Part>, held: nat,
                          index: map<string, Part>, s: Segment)
    requires PartsOk(added, segments, s.parts, open, held, index)
    ensures PartsOk(added, segments + [s], [], open, held + |s.data|, index)
    ensures held + |s.data| == HeldBytes(segments + [s]) + PartBytes(open)
  {
    hide AllParts, HeldBytes, IndexedSuffix;
    AppendSegment(segments, s);
    assert AllParts(segments) + (s.parts + open) == AllParts(segments + [s]) + ([] + open);
  }

  lemma NoPartsNoBytes()
    ensures PartBytes([]) == 0
  {
  }

  lemma Regroup<T>(a: seq<T>, b: seq<T>, c: seq<T>)
    ensures (a + b) + ([] + c) == a + (b + c)
  {
  }

  /** What the parts of the front segment mean to the counter and the index. */
  lemma FrontParts(added: seq<Part>, segments: seq<Segment>, open: seq<Part>, held: nat, index: map<string, Part>)
    requires segments != [] && PartsOk(added, segments, [], open, held, index)
    ensures held == |segments[0].data| + PartBytes(segments[0].parts) + (HeldBytes(segments[1..]) + PartBytes(open))
    ensures IndexedSuffix(PartNames(added), added, segments[0].parts + (AllParts(segments[1..]) + open), index)
  {
    hide IndexedSuffix, PartNames, PartBytes;
    NoPartsNoBytes();
    Regroup(segments[0].parts, AllParts(segments[1..]), open);
  }

  lemma PartsDropped(added: seq<Part>, segments: seq<Segment>, open: seq<Part>, index: map<string, Part>)
    requires IndexedSuffix(PartNames(added), added, AllParts(segments) + open, index)
    ensures PartsOk(added, segments, [], open, HeldBytes(segments) + PartBytes(open), index)
  {
    hide AllParts, HeldBytes, PartBytes, PartNames, IndexedSuffix;
    NoPartsNoBytes();
    assert [] + open == open;
  }

  lemma PartLookup(added: seq<Part>, segments: seq<Segment>, open: seq<Part>, held: nat, index: map<string, Part>,
                   name: string)
    requires PartsOk(added, segments, [], open, held, index) && Distinct(PartNames(added))
    ensures var retained := AllParts(segments) + open;
            && (name in index ==> index[name] in retained && index[name].name == name)
            && (name !in index ==> name !in PartNames(retained))
  {
    hide AllParts, Indexes, Distinct;
    var retained := AllParts(segments) + ([] + open);
    assert retained == AllParts(segments) + open;
    LookupIsExact(PartNames(added), added, retained, index, name);
    assert PartNames(added)[|added| - |retained|..] == PartNames(retained);
  }

  /** bytes_held_ -= std::min(bytes_held_, n) */
  function Minus(held: nat, n: nat): nat {
    if held < n then 0 else held - n
  }

  lemma ErasePart(added: seq<Part>, parts: seq<Part>, rest: seq<Part>, index: map<string, Part>)
    requires parts != [] && IndexedSuffix(PartNames(added), added, parts + rest, index)
    ensures IndexedSuffix(PartNames(added), added, parts[1..] + rest, index - {parts[0].name})
  {
    DropIndexed(PartNames(added), added, parts + rest, index);
    assert (parts + rest)[1..] == parts[1..] + rest;
    assert added[|added| - |parts + rest|] == (parts + rest)[0];
  }

  /** The loop of drop_front over the parts of the segment being forgotten: when every
      part was accounted for, it leaves exactly the other parts indexed and counted,
      and no subtraction saturates. */
  method EraseParts(index: map<string, Part>, held: nat, parts: seq<Part>, ghost added: seq<Part>,
                    ghost rest: seq<Part>, ghost kept: nat, ghost accounted: bool)
    returns (index': map<string, Part>, held': nat)
    requires accounted ==> held == PartBytes(parts) + kept
    requires accounted ==> IndexedSuffix(PartNames(added), added, parts + rest, index)
    ensures accounted ==> held' == kept
    ensures accounted ==> IndexedSuffix(PartNames(added), added, rest, index')
  {
    index', held' := index, held;
    var i := 0;
    assert parts[0..] == parts;
    while i < |parts|
      invariant 0 <= i <= |parts|
      invariant accounted ==> held' == PartBytes(parts[i..]) + kept
      invariant accounted ==> IndexedSuffix(PartNames(added), added, parts[i..] + rest, index')
    {
      assert parts[i..][1..] == parts[i + 1..];
      if accounted {
        ErasePart(added, parts[i..], rest, index');
      }
      held' := Minus(held', |parts[i].data|);
      index' := index' - {parts[i].name};
      i := i + 1;
    }
    assert parts[i..] + rest == rest;
  }

  // --------------------------------------------------------------- numbering

  ghost predicate Contiguous(s: seq<Segment>) {
    forall i | 0 <= i < |s| :: s[i].sequence == s[0].sequence + i
  }

  ghost predicate Named(s: seq<Segment>, prefix: string, suffix: string) {
    forall i | 0 <= i < |s| :: s[i].name == SegmentName(prefix, s[i].sequence, suffix)
  }

  /** The history keeps the producer's naming scheme. In repeat mode its sequence
      numbers are contiguous whatever the producer's are; otherwise they and the names
      are the producer's own. */
  ghost predicate NumberingOk(repeat: bool, history: seq<Segment>, produced: seq<Segment>) {
    && (forall prefix, suffix | Named(produced, prefix, suffix) && Decimal.NoDigits(suffix) ::
          Named(history, prefix, suffix))
    && (repeat ==> Contiguous(history))
    && (repeat ==> (produced == [] ==> history == []))
    && (!repeat ==> |history| == |produced|)
    && (!repeat ==> forall i | 0 <= i < |history| ::
          history[i].sequence == produced[i].sequence && history[i].name == produced[i].name)
  }

  /** What add_segment stores for a producer segment, by name and number. */
  ghost predicate Renumbers(repeat: bool, history: seq<Segment>, s: Segment, stored: Segment) {
    || (stored.sequence == s.sequence && stored.name == s.name &&
        (repeat && history != [] ==> s.sequence == history[|history| - 1].sequence + 1))
    || (repeat && history != [] && stored.sequence == history[|history| - 1].sequence + 1 &&
        stored.name == NameWithSequence(s, stored.sequence))
  }

  lemma EmptyStore(repeat: bool)
    ensures SegmentsOk([], [], 0, map[])
    ensures PartsOk([], [], [], [], 0, map[])
    ensures NumberingOk(repeat, [], [])
  {
  }

  lemma ProducerNumbered(repeat: bool, history: seq<Segment>, produced: seq<Segment>, s: Segment, stored: Segment)
    requires NumberingOk(repeat, history, produced) && Renumbers(repeat, history, s, stored)
    ensures NumberingOk(repeat, history + [stored], produced + [s])
  {
    forall prefix, suffix | Named(produced + [s], prefix, suffix) && Decimal.NoDigits(suffix)
      ensures Named(history + [stored], prefix, suffix)
    {
      assert (produced + [s])[|produced|] == s;
      assert Named(produced, prefix, suffix) by {
        assert forall i | 0 <= i < |produced| :: produced[i] == (produced + [s])[i];
      }
      if stored.name == NameWithSequence(s, stored.sequence) {
        RenumberedName(s, prefix, suffix, stored.sequence);
      }
    }
  }

  lemma FallbackNumbered(history: seq<Segment>, produced: seq<Segment>, copy: Segment)
    requires history != [] && NumberingOk(true, history, produced)
    requires var last := history[|history| - 1];
             copy.sequence == last.sequence + 1 && copy.name == NameWithSequence(last, copy.sequence)
    ensures NumberingOk(true, history + [copy], produced)
  {
    forall prefix, suffix | Named(produced, prefix, suffix) && Decimal.NoDigits(suffix)
      ensures Named(history + [copy], prefix, suffix)
    {
      RenumberedName(history[|history| - 1], prefix, suffix, copy.sequence);
    }
  }

  /** Contiguous numbers under one naming scheme: no name is ever used twice. */
  lemma NamesNeverRepeat(history: seq<Segment>, prefix: string, suffix: string)
    requires Contiguous(history) && Named(history, prefix, suffix)
    ensures Distinct(SegmentNames(history))
  {
    forall i, j | 0 <= i < j < |history|
      ensures history[i].name != history[j].name
    {
      if history[i].name == history[j].name {
        SegmentNameInjective(prefix, history[i].sequence, history[j].sequence, suffix);
      }
    }
  }
}
