/** The live edge of a stream and the test a blocking playlist reload waits on
    (`SegmentStore::live_edge`, `SegmentStore::has_reached_locked`), stated
    against the log of everything the producer published. */
module LiveEdge {
  import opened Prelude

  /** A media position: a segment, or (part >= 0) one of its parts. */
  datatype Position = Position(sequence: nat, part: int)

  /** What the store's edge test looks at: the newest part of the open segment,
      and the newest complete segment with the index of its last part (-1 when it
      has none). */
  datatype Edge = Edge(ended: bool, open: Option<Position>, complete: Option<Position>)

  /** Everything that moves the edge. A fallback copy replaces the newest complete
      segment and leaves the open parts alone. */
  datatype Event =
    | PartAdded(at: Position)
    | SegmentAdded(at: Position)
    | FallbackAdded(at: Position)
    | Ended
    | Resumed

  predicate HasReached(e: Edge, sequence: nat, part: int) {
    if e.ended then true
    else if e.open.None? && e.complete.None? then false
    else
      var edge := if e.open.Some? then e.open.value else e.complete.value;
      if edge.sequence > sequence then true
      else if edge.sequence < sequence then false
      else if part < 0 then e.complete.Some? && e.complete.value.sequence >= sequence
      else edge.part >= part
  }

  function Advance(e: Edge, ev: Event): Edge {
    match ev
    case PartAdded(at) => e.(open := Some(at))
    case SegmentAdded(at) => e.(open := None, complete := Some(at))
    case FallbackAdded(at) => e.(complete := Some(at))
    case Ended => e.(ended := true)
    case Resumed => e.(ended := false)
  }

  function EdgeAfter(log: seq<Event>): Edge {
    if log == [] then Edge(false, None, None)
    else Advance(EdgeAfter(log[..|log| - 1]), log[|log| - 1])
  }

  lemma OneMoreEvent(log: seq<Event>, ev: Event)
    ensures EdgeAfter(log + [ev]) == Advance(EdgeAfter(log), ev)
  {
    assert (log + [ev])[..|log|] == log;
  }

  /** The event is the next thing an in-order producer may publish: parts 0, 1, 2,
      ... of the segment after the newest complete one, then that segment with
      exactly those parts, or a segment without parts; or the end. */
  predicate Follows(e: Edge, ev: Event) {
    match ev
    case PartAdded(at) =>
      if e.open.Some? then at == Position(e.open.value.sequence, e.open.value.part + 1)
      else at.part == 0 && (e.complete.Some? ==> at.sequence == e.complete.value.sequence + 1)
    case SegmentAdded(at) =>
      if e.open.Some? then at == e.open.value
      else at.part == -1 && (e.complete.Some? ==> at.sequence == e.complete.value.sequence + 1)
    case Ended => true
    case FallbackAdded(_) => false
    case Resumed => false
  }

  predicate InOrder(log: seq<Event>) {
    log != [] ==> InOrder(log[..|log| - 1]) && Follows(EdgeAfter(log[..|log| - 1]), log[|log| - 1])
  }

  /** The event by itself answers a request for (sequence, part): the stream ended,
      something of a later segment appeared, the named segment completed (no part
      asked for), or the named part or a later one of that segment appeared. */
  predicate Answers(ev: Event, sequence: nat, part: int) {
    match ev
    case PartAdded(at) => at.sequence > sequence || (at.sequence == sequence && 0 <= part <= at.part)
    case SegmentAdded(at) => at.sequence > sequence || (at.sequence == sequence && part < 0)
    case Ended => true
    case FallbackAdded(_) => false
    case Resumed => false
  }

  ghost predicate Published(log: seq<Event>, sequence: nat, part: int) {
    exists i :: 0 <= i < |log| && Answers(log[i], sequence, part)
  }

  lemma {:induction false} OpenFollowsComplete(log: seq<Event>)
    requires InOrder(log)
    ensures var e := EdgeAfter(log);
            && (e.open.Some? ==> e.open.value.part >= 0)
            && (e.open.Some? && e.complete.Some? ==>
                  e.open.value.sequence == e.complete.value.sequence + 1)
  {
    if log != [] {
      OpenFollowsComplete(log[..|log| - 1]);
    }
  }

  /** For an in-order producer the edge test, which sees only the newest part and
      segment, answers exactly what the whole publication log answers. */
  lemma {:induction false} HasReachedIffPublished(log: seq<Event>, sequence: nat, part: int)
    requires InOrder(log)
    ensures HasReached(EdgeAfter(log), sequence, part) <==> Published(log, sequence, part)
  {
    if log != [] {
      var before, ev := log[..|log| - 1], log[|log| - 1];
      HasReachedIffPublished(before, sequence, part);
      OpenFollowsComplete(before);
      OpenFollowsComplete(log);
      assert Published(log, sequence, part) <==> Published(before, sequence, part) || Answers(ev, sequence, part) by {
        if Published(before, sequence, part) {
          var i :| 0 <= i < |before| && Answers(before[i], sequence, part);
          assert Answers(log[i], sequence, part);
        }
      }
    }
  }

  lemma {:induction false} PrefixInOrder(log: seq<Event>, more: seq<Event>)
    requires InOrder(log + more)
    ensures InOrder(log)
  {
    if more == [] {
      assert log + more == log;
    } else {
      assert (log + more)[..|log + more| - 1] == log + more[..|more| - 1];
      PrefixInOrder(log, more[..|more| - 1]);
    }
  }

  /** Once a position is reached it stays reached, whatever an in-order producer
      publishes next. */
  lemma HasReachedIsMonotone(log: seq<Event>, more: seq<Event>, sequence: nat, part: int)
    requires InOrder(log + more)
    requires HasReached(EdgeAfter(log), sequence, part)
    ensures HasReached(EdgeAfter(log + more), sequence, part)
  {
    PrefixInOrder(log, more);
    HasReachedIffPublished(log, sequence, part);
    HasReachedIffPublished(log + more, sequence, part);
    var i :| 0 <= i < |log| && Answers(log[i], sequence, part);
    assert Answers((log + more)[i], sequence, part);
  }

  /** A request for a part past the last part of the newest complete segment waits
      until the very next publication: the following segment's first part, the
      following segment itself, or the end of the stream, and no later. */
  lemma PastLastPartWaitsForNextSegment(log: seq<Event>, more: seq<Event>, part: int)
    requires InOrder(log + more)
    requires var e := EdgeAfter(log); !e.ended && e.open.None? && e.complete.Some?
    requires EdgeAfter(log).complete.value.part < part && 0 <= part
    ensures var sequence := EdgeAfter(log).complete.value.sequence;
            && (HasReached(EdgeAfter(log + more), sequence, part) <==> more != [])
            && (more != [] ==> more[0] in {Ended, PartAdded(Position(sequence + 1, 0)),
                                           SegmentAdded(Position(sequence + 1, -1))})
  {
    hide HasReached, EdgeAfter, InOrder;
    var sequence := EdgeAfter(log).complete.value.sequence;
    if more == [] {
      assert log + more == log;
      NotYetPast(EdgeAfter(log), part);
    } else {
      assert log + more == (log + [more[0]]) + more[1..];
      PrefixInOrder(log + [more[0]], more[1..]);
      FirstPast(log, more[0], part);
      HasReachedIsMonotone(log + [more[0]], more[1..], sequence, part);
    }
  }

  lemma NotYetPast(e: Edge, part: int)
    requires !e.ended && e.open.None? && e.complete.Some? && e.complete.value.part < part && 0 <= part
    ensures !HasReached(e, e.complete.value.sequence, part)
  {
  }

  /** What an in-order producer may publish next reaches past the newest segment. */
  lemma FirstPast(log: seq<Event>, ev: Event, part: int)
    requires InOrder(log + [ev])
    requires var e := EdgeAfter(log); !e.ended && e.open.None? && e.complete.Some?
    requires EdgeAfter(log).complete.value.part < part && 0 <= part
    ensures var sequence := EdgeAfter(log).complete.value.sequence;
            && HasReached(EdgeAfter(log + [ev]), sequence, part)
            && ev in {Ended, PartAdded(Position(sequence + 1, 0)), SegmentAdded(Position(sequence + 1, -1))}
  {
    assert (log + [ev])[..|log|] == log && (log + [ev])[|log|] == ev;
    OneMoreEvent(log, ev);
    FollowsPast(EdgeAfter(log), ev, part);
  }

  lemma FollowsPast(e: Edge, ev: Event, part: int)
    requires Follows(e, ev) && !e.ended && e.open.None? && e.complete.Some? && e.complete.value.part < part && 0 <= part
    ensures var sequence := e.complete.value.sequence;
            && HasReached(Advance(e, ev), sequence, part)
            && ev in {Ended, PartAdded(Position(sequence + 1, 0)), SegmentAdded(Position(sequence + 1, -1))}
  {
  }
}
