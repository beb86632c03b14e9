/** The live segment store (`hls::SegmentStore`): a bounded suffix of everything ever
    appended, with name indexes, byte accounting, renumbering, stall backfill and
    eviction. Every statement is made against the append history. */
module Store {
  import opened Prelude
  import opened Media
  import opened StoreParts
  import opened StoreInvariants
  import L = LiveEdge
  import P = Playlist
  import S = PlaylistSheet
  import KeyTag
  import Text
  import Decimal

  datatype Config = Config(
    liveWindow: nat,               // live_window_segments
    grace: nat,                    // retention_grace_segments
    maxTotalBytes: nat,
    targetDurationSeconds: nat,
    repeatOnStall: bool,           // repeat_last_segment_on_stall
    seamlessRecovery: bool,        // seamless_fallback_recovery
    lowLatency: bool,
    playlistVersion: nat,
    holdBackMs: nat,               // playlist_hold_back_seconds, in thousandths
    partTargetMs: nat,             // part_target_duration
    partHoldBackMs: nat,           // part_hold_back_seconds, in thousandths
    partWindow: nat                // part_window_segments
  ) {
    function Retention(): nat {
      liveWindow + grace
    }
  }

  /** std::chrono::steady_clock, in nanoseconds: readings never decrease. */
  class SteadyClock {
    var time: int

    constructor ()
      ensures time == 0
    {
      time := 0;
    }

    method Now() returns (t: int)
      modifies this
      ensures t == time && old(time) <= t
    {
      var passed: int :| 0 <= passed;
      time := time + passed;
      t := time;
    }
  }

  /** What the encryptor hands back for one segment. */
  datatype Sealed = Sealed(data: seq<byte>, key: Option<KeyInfo>)

  function Seal(s: Segment, sealed: Option<Sealed>): Segment {
    match sealed
    case None => s
    case Some(c) => s.(data := c.data, key := c.key, iframePrefixBytes := 0)
  }

  function PositionOf(s: Segment): L.Position {
    L.Position(s.sequence, if s.parts == [] then -1 else s.parts[|s.parts| - 1].index)
  }

  /** The live edge as the store's test reads it off its containers. */
  function EdgeOf(ended: bool, open: seq<Part>, segments: seq<Segment>): L.Edge {
    L.Edge(ended,
           if open == [] then None
           else Some(L.Position(open[|open| - 1].segmentSequence, open[|open| - 1].index)),
           if segments == [] then None else Some(PositionOf(segments[|segments| - 1])))
  }

  /** The producer's segment must take the number after the newest one, either because
      it carries another or because copies were appended meanwhile. */
  predicate MustRenumber(config: Config, newest: Option<Segment>, fallbackActive: bool, s: Segment) {
    config.repeatOnStall && newest.Some? && (s.sequence != newest.value.sequence + 1 || fallbackActive)
  }

  /** The number, name and discontinuity flag add_segment stores a segment under. */
  function Numbered(config: Config, newest: Option<Segment>, fallbackActive: bool, s: Segment): (r: Segment)
    ensures r.data == s.data && r.key == s.key && r.duration == s.duration
    ensures config.repeatOnStall && newest.Some? ==> r.sequence == newest.value.sequence + 1
    ensures MustRenumber(config, newest, fallbackActive, s) ==>
              && r.name == NameWithSequence(s, r.sequence) && r.parts == []
              && r.discontinuity == (s.discontinuity || (fallbackActive && !config.seamlessRecovery))
    ensures !MustRenumber(config, newest, fallbackActive, s) ==> r == s
  {
    if MustRenumber(config, newest, fallbackActive, s)
    then CopyWithSequence(s, newest.value.sequence + 1, fallbackActive && !config.seamlessRecovery)
    else s
  }

  /** What is stored is what the producer handed in, or what the encryptor made of it, with its
      key; a recovery from a stall is flagged unless it is seamless, and no flag is lost. */
  predicate StoresMedia(s: Segment, segment: Segment, sealed: Option<Sealed>, recovers: bool) {
    && s.data == (if sealed.Some? then sealed.value.data else segment.data)
    && s.key == (if sealed.Some? then sealed.value.key else segment.key)
    && s.duration == segment.duration && s.discontinuity == (segment.discontinuity || recovers)
    && s.iframePrefixBytes in {0, segment.iframePrefixBytes}
    && (sealed.Some? || s.sequence != segment.sequence ==> s.iframePrefixBytes == 0)
  }

  lemma NumberedStores(config: Config, newest: Option<Segment>, fallbackActive: bool, segment: Segment,
                       sealed: Option<Sealed>)
    requires fallbackActive ==> newest.Some? && config.repeatOnStall
    ensures StoresMedia(Numbered(config, newest, fallbackActive, Seal(segment, sealed)), segment, sealed,
                        fallbackActive && !config.seamlessRecovery)
  {
  }

  lemma NumberedRenumbers(config: Config, history: seq<Segment>, fallbackActive: bool, segment: Segment,
                          sealed: Option<Sealed>)
    ensures Renumbers(config.repeatOnStall, history, segment,
                      Numbered(config, Newest(history), fallbackActive, Seal(segment, sealed)))
  {
  }

  /** The same once the open parts, if there are any, have become the segment's own. */
  lemma ClaimedStores(config: Config, history: seq<Segment>, fallbackActive: bool, segment: Segment,
                      sealed: Option<Sealed>, open: seq<Part>)
    requires fallbackActive ==> history != [] && config.repeatOnStall
    ensures var numbered := Numbered(config, Newest(history), fallbackActive, Seal(segment, sealed));
            var s := if open != [] then numbered.(parts := open) else numbered;
            && StoresMedia(s, segment, sealed, fallbackActive && !config.seamlessRecovery)
            && Renumbers(config.repeatOnStall, history, segment, s)
  {
    NumberedStores(config, Newest(history), fallbackActive, segment, sealed);
    NumberedRenumbers(config, history, fallbackActive, segment, sealed);
  }

  function Newest(segments: seq<Segment>): Option<Segment> {
    if segments == [] then None else Some(segments[|segments| - 1])
  }

  /** The store's containers: segments_, by_name_, open_parts_, parts_by_name_,
      bytes_held_ and discontinuity_sequence_. */
  datatype Shelf = Shelf(
    segments: seq<Segment>,
    byName: map<string, Segment>,
    openParts: seq<Part>,
    partsByName: map<string, Part>,
    bytesHeld: nat,
    discontinuitySequence: nat
  )

  /** Everything that happened since construction or the last clear(). */
  datatype Log = Log(
    history: seq<Segment>,    // every segment appended, copies included
    produced: seq<Segment>,   // every segment the producer handed in
    added: seq<Part>,         // every part appended
    events: seq<L.Event>,     // what moved the live edge
    accounted: bool,          // no segment brought along parts add_part had not seen
    byteDrops: nat,           // segments evicted for bytes, not for count
    dropAt: nat,              // length of the history at the last append that cost any,
    dropSize: nat,            // and how many segments that append left
    realAt: int,              // when the newest producer segment was added
    realLength: nat,          // length of the history then
    fallbackMs: int           // duration of the copies appended since then
  )

  const EMPTY_SHELF := Shelf([], map[], [], map[], 0, 0)
  const EMPTY_LOG := Log([], [], [], [], true, 0, 0, 0, 0, 0, 0)

  function Smaller(a: nat, b: nat): nat {
    if a < b then a else b
  }

  /** The containers agree with the log. `transit`: parts that have left the open list
      for a segment not yet appended. */
  ghost predicate Coherent(shelf: Shelf, log: Log, transit: seq<Part>) {
    && SegmentsOk(log.history, shelf.segments, shelf.discontinuitySequence, shelf.byName)
    && (log.accounted ==>
          PartsOk(log.added, shelf.segments, transit, shelf.openParts, shelf.bytesHeld, shelf.partsByName))
  }

  /** How many segments are retained when the history is `n` long and the byte cap has cost
      nothing since `log.dropAt`. */
  function Retained(config: Config, log: Log, n: nat): nat
    requires log.dropAt <= n
  {
    Smaller(log.dropSize + (n - log.dropAt), config.Retention())
  }

  /** The segments retained are as many as the count cap and the last byte-cap eviction allow,
      and the log's own counters mean what they say. */
  ghost predicate WithinCount(config: Config, shelf: Shelf, log: Log) {
    && |shelf.segments| <= config.Retention()
    && (log.history != [] ==> shelf.segments != [])
    && log.dropAt <= |log.history| && |shelf.segments| == Retained(config, log, |log.history|)
    && log.realLength <= |log.history| && log.fallbackMs == TotalMs(log.history[log.realLength..])
  }

  lemma RealWithin(config: Config, shelf: Shelf, log: Log)
    requires WithinCount(config, shelf, log)
    ensures log.realLength <= |log.history|
  {
  }

  /** Total duration of a list of segments. */
  function TotalMs(segments: seq<Segment>): nat {
    if segments == [] then 0 else TotalMs(segments[..|segments| - 1]) + segments[|segments| - 1].duration
  }

  /** An append that leaves `size` segments keeps both. */
  lemma CountKept(config: Config, shelf: Shelf, log: Log, s: Segment, fallback: bool, produced: seq<Segment>,
                  drops: nat, now: int, after: Shelf)
    requires WithinCount(config, shelf, log) && 1 <= |after.segments| <= config.Retention()
    requires |after.segments| + drops == Smaller(|shelf.segments| + 1, config.Retention())
    ensures WithinCount(config, after,
                        Logged(log, s, fallback, produced, log.byteDrops + drops, |after.segments|, now))
  {
    hide TotalMs, Smaller;
    SizeKept(log.dropSize + (|log.history| - log.dropAt), |shelf.segments|, |after.segments|, drops,
             config.Retention());
    MsKept(log.history, log.realLength, s);
  }

  /** The number retained, after one more append. */
  lemma SizeKept(uncapped: nat, size: nat, size': nat, drops: nat, retention: nat)
    requires size == Smaller(uncapped, retention) && 1 <= size' <= retention
    requires size' + drops == Smaller(size + 1, retention)
    ensures drops == 0 ==> size' == Smaller(uncapped + 1, retention)
    ensures size' == Smaller(size' + 0, retention)
  {
  }

  lemma MsKept(history: seq<Segment>, from: nat, s: Segment)
    requires from <= |history|
    ensures TotalMs((history + [s])[from..]) == TotalMs(history[from..]) + s.duration
    ensures TotalMs((history + [s])[|history| + 1..]) == 0
  {
    var copies := (history + [s])[from..];
    assert copies == history[from..] + [s];
    assert copies[..|copies| - 1] == history[from..];
    assert (history + [s])[|history| + 1..] == [];
  }

  /** drop_front: forgets the oldest segment and its parts. */
  method DropFront(shelf: Shelf, ghost log: Log) returns (r: Shelf)
    requires shelf.segments != [] && Coherent(shelf, log, [])
    ensures Coherent(r, log, [])
    ensures r.segments == shelf.segments[1..] && r.openParts == shelf.openParts
  {
    hide SegmentsOk, PartsOk, IndexedSuffix, AllParts, HeldBytes, PartBytes, PartNames;
    var front := shelf.segments[0];
    SegmentDropped(log.history, shelf.segments, shelf.discontinuitySequence, shelf.byName);
    if log.accounted {
      FrontParts(log.added, shelf.segments, shelf.openParts, shelf.bytesHeld, shelf.partsByName);
    }
    var index, held := EraseParts(shelf.partsByName, Minus(shelf.bytesHeld, |front.data|), front.parts, log.added,
                                  AllParts(shelf.segments[1..]) + shelf.openParts,
                                  HeldBytes(shelf.segments[1..]) + PartBytes(shelf.openParts), log.accounted);
    if log.accounted {
      PartsDropped(log.added, shelf.segments[1..], shelf.openParts, index);
    }
    r := Shelf(shelf.segments[1..], shelf.byName - {front.name}, shelf.openParts, index, held,
               shelf.discontinuitySequence + if front.discontinuity then 1 else 0);
  }

  lemma BytesAreHeld(shelf: Shelf, log: Log)
    requires Coherent(shelf, log, []) && log.accounted
    ensures shelf.bytesHeld == HeldBytes(shelf.segments) + PartBytes(shelf.openParts)
  {
  }

  /** evict_locked: afterwards both caps hold, or one segment remains; and nothing was
      dropped that the caps did not demand. `drops` counts what the byte cap cost. */
  method Evict(config: Config, shelf: Shelf, ghost log: Log) returns (r: Shelf, ghost drops: nat)
    requires shelf.segments != [] && 1 <= config.Retention() && Coherent(shelf, log, [])
    ensures Coherent(r, log, [])
    ensures r.openParts == shelf.openParts
    ensures 1 <= |r.segments| <= config.Retention()
    ensures r.bytesHeld <= config.maxTotalBytes || |r.segments| == 1
    ensures |r.segments| <= |shelf.segments| && r.segments == shelf.segments[|shelf.segments| - |r.segments|..]
    ensures |r.segments| + drops == Smaller(|shelf.segments|, config.Retention())
    ensures log.accounted && drops > 0 ==>
              HeldBytes(shelf.segments[|shelf.segments| - |r.segments| - 1..]) + PartBytes(shelf.openParts) >
              config.maxTotalBytes
  {
    hide SegmentsOk, PartsOk, Coherent, HeldBytes, PartBytes;
    r, drops := shelf, 0;
    ghost var k := 0;
    while |r.segments| > config.Retention()
      invariant Coherent(r, log, []) && r.segments != [] && r.openParts == shelf.openParts
      invariant k + |r.segments| == |shelf.segments| && r.segments == shelf.segments[k..]
      invariant |r.segments| >= Smaller(|shelf.segments|, config.Retention())
    {
      r := DropFront(r, log);
      k := k + 1;
    }
    while r.bytesHeld > config.maxTotalBytes && |r.segments| > 1
      invariant Coherent(r, log, []) && 1 <= |r.segments| <= config.Retention() && r.openParts == shelf.openParts
      invariant k + |r.segments| == |shelf.segments| && r.segments == shelf.segments[k..] && drops <= k
      invariant |r.segments| + drops == Smaller(|shelf.segments|, config.Retention())
      invariant log.accounted && drops > 0 ==>
                  HeldBytes(shelf.segments[k - 1..]) + PartBytes(shelf.openParts) > config.maxTotalBytes
      decreases |r.segments|
    {
      if log.accounted {
        BytesAreHeld(r, log);
      }
      r := DropFront(r, log);
      k := k + 1;
      drops := drops + 1;
    }
  }

  lemma ShelfTakes(shelf: Shelf, log: Log, s: Segment)
    requires Coherent(shelf, log, s.parts)
    ensures Coherent(shelf.(segments := shelf.segments + [s], byName := Emplace(shelf.byName, s.name, s),
                            bytesHeld := shelf.bytesHeld + |s.data|),
                     log.(history := log.history + [s]), [])
  {
    SegmentAppended(log.history, shelf.segments, shelf.discontinuitySequence, shelf.byName, s);
    if log.accounted {
      SegmentTakesParts(log.added, shelf.segments, shelf.openParts, shelf.bytesHeld, shelf.partsByName, s);
    }
  }

  /** A finished segment moves the edge as the log says. */
  lemma SegmentMovesEdge(ended: bool, open: seq<Part>, segments: seq<Segment>, events: seq<L.Event>,
                         s: Segment, after: seq<Segment>)
    requires EdgeOf(ended, open, segments) == L.EdgeAfter(events)
    requires after != [] && after[|after| - 1] == s
    ensures EdgeOf(ended, [], after) == L.EdgeAfter(events + [L.SegmentAdded(PositionOf(s))])
  {
    L.OneMoreEvent(events, L.SegmentAdded(PositionOf(s)));
  }

  lemma FallbackMovesEdge(ended: bool, open: seq<Part>, segments: seq<Segment>, events: seq<L.Event>,
                          s: Segment, after: seq<Segment>)
    requires EdgeOf(ended, open, segments) == L.EdgeAfter(events)
    requires after != [] && after[|after| - 1] == s
    ensures EdgeOf(ended, open, after) == L.EdgeAfter(events + [L.FallbackAdded(PositionOf(s))])
  {
    L.OneMoreEvent(events, L.FallbackAdded(PositionOf(s)));
  }

  lemma CoherentIgnores(shelf: Shelf, log: Log, other: Log, transit: seq<Part>)
    requires Coherent(shelf, log, transit)
    requires other.history == log.history && other.added == log.added && (other.accounted ==> log.accounted)
    ensures Coherent(shelf, other, transit)
  {
  }

  /** The containers with one more open part. */
  function WithPart(shelf: Shelf, p: Part): Shelf {
    shelf.(bytesHeld := shelf.bytesHeld + |p.data|, openParts := shelf.openParts + [p],
           partsByName := Emplace(shelf.partsByName, p.name, p))
  }

  lemma PartTaken(config: Config, shelf: Shelf, log: Log, p: Part)
    requires Coherent(shelf, log, []) && WithinCount(config, shelf, log)
    ensures Coherent(WithPart(shelf, p), log.(added := log.added + [p]), [])
    ensures WithinCount(config, WithPart(shelf, p), log.(added := log.added + [p]))
  {
    hide SegmentsOk, PartsOk, TotalMs;
    if log.accounted {
      PartAppended(log.added, shelf.segments, shelf.openParts, shelf.bytesHeld, shelf.partsByName, p);
    }
  }

  lemma EventsApart(config: Config, shelf: Shelf, log: Log, events: seq<L.Event>)
    requires Coherent(shelf, log, []) && WithinCount(config, shelf, log)
    ensures Coherent(shelf, log.(events := events), []) && WithinCount(config, shelf, log.(events := events))
  {
    hide SegmentsOk, PartsOk, Smaller, TotalMs;
  }

  /** The parts published while the segment was open become the segment's own. One that
      brings other parts along ends exact accounting. */
  method ClaimParts(config: Config, segment: Segment, shelf: Shelf, ghost log: Log)
    returns (s: Segment, shelf': Shelf, ghost log': Log)
    requires Coherent(shelf, log, []) && (!config.lowLatency ==> shelf.openParts == [])
    requires WithinCount(config, shelf, log)
    ensures Coherent(shelf', log', s.parts) && WithinCount(config, shelf', log')
    ensures s == if shelf.openParts != [] then segment.(parts := shelf.openParts) else segment
    ensures shelf' == shelf.(openParts := [])
    ensures log' == log.(accounted := log.accounted && (shelf.openParts != [] || s.parts == []))
  {
    s, shelf', log' := segment, shelf, log;
    if config.lowLatency && shelf.openParts != [] {
      if log.accounted {
        PartsClosed(log.added, shelf.segments, shelf.openParts, shelf.bytesHeld, shelf.partsByName);
      }
      s := s.(parts := shelf.openParts);
      shelf' := shelf.(openParts := []);
    } else {
      log' := log.(accounted := log.accounted && s.parts == []);
    }
  }

  /** What an append adds to the log. */
  function Logged(log: Log, s: Segment, fallback: bool, produced: seq<Segment>, byteDrops: nat, size: nat,
                  now: int): Log
  {
    var event := if fallback then L.FallbackAdded(PositionOf(s)) else L.SegmentAdded(PositionOf(s));
    var n := |log.history| + 1;
    Log(log.history + [s], produced, log.added, log.events + [event], log.accounted, byteDrops,
        if byteDrops > log.byteDrops then n else log.dropAt, if byteDrops > log.byteDrops then size else log.dropSize,
        if fallback then log.realAt else now, if fallback then log.realLength else n,
        if fallback then log.fallbackMs + s.duration else 0)
  }

  lemma LoggedHistory(log: Log, s: Segment, fallback: bool, produced: seq<Segment>, byteDrops: nat, size: nat, now: int)
    ensures var l := Logged(log, s, fallback, produced, byteDrops, size, now);
            && l.history == log.history + [s] && l.added == log.added
            && l.accounted == log.accounted && l.byteDrops == byteDrops
  {
  }

  lemma LoggedReal(log: Log, accounted: bool, s: Segment, produced: seq<Segment>, byteDrops: nat, size: nat, now: int)
    ensures var l := Logged(log.(accounted := accounted), s, false, produced, byteDrops, size, now);
            && l == Logged(log, s, false, produced, byteDrops, size, now).(accounted := accounted)
            && l.history == log.history + [s] && l.produced == produced
            && l.events == log.events + [L.SegmentAdded(PositionOf(s))]
            && l.realAt == now && l.fallbackMs == 0 && l.realLength == |l.history|
  {
  }

  // ----------------------------------------------------------------- playlists

  /** What a player must see of a window that starts at history index `start`: segment j
      under the number MEDIA-SEQUENCE promises it, with the discontinuity number that
      counts every flagged segment ever appended up to it, and with its own key. */
  function View(history: seq<Segment>, start: nat, n: nat, uriPrefix: string): seq<P.Entry>
    requires start + n <= |history|
  {
    if n == 0 then []
    else View(history, start, n - 1, uriPrefix) +
         [P.Entry(history[start].sequence + n - 1, Flagged(history[..start + n]),
                  KeyTag.Effective(history[start + n - 1].key), uriPrefix + history[start + n - 1].name)]
  }

  lemma {:induction false} FlaggedConcat(a: seq<Segment>, b: seq<Segment>)
    ensures Flagged(a + b) == Flagged(a) + Flagged(b)
  {
    if b == [] {
      assert a + b == a;
    } else {
      assert (a + b)[..|a + b| - 1] == a + b[..|b| - 1];
      FlaggedConcat(a, b[..|b| - 1]);
    }
  }

  /** Counting from the declared discontinuity sequence is counting from the beginning. */
  lemma {:induction false} SeenIsView(history: seq<Segment>, start: nat, n: nat, uriPrefix: string)
    requires start + n <= |history|
    ensures n > 0 ==> P.Seen(history[start..], n, history[start].sequence, Flagged(history[..start]), uriPrefix) ==
                      View(history, start, n, uriPrefix)
    ensures P.Seen(history[start..], 0, P.MediaSequence(history[start..]), Flagged(history[..start]), uriPrefix) ==
            View(history, start, 0, uriPrefix)
  {
    if n > 0 {
      SeenIsView(history, start, n - 1, uriPrefix);
      FlaggedConcat(history[..start], history[start..][..n]);
      assert history[..start] + history[start..][..n] == history[..start + n];
    }
  }

  lemma {:induction false} ViewAt(history: seq<Segment>, start: nat, n: nat, uriPrefix: string, i: nat)
    requires start + n <= |history| && i < n
    ensures |View(history, start, n, uriPrefix)| == n
    ensures View(history, start, n, uriPrefix)[i] ==
            P.Entry(history[start].sequence + i, Flagged(history[..start + i + 1]),
                    KeyTag.Effective(history[start + i].key), uriPrefix + history[start + i].name)
  {
    hide Flagged, KeyTag.Effective;
    if n > 1 {
      ViewAt(history, start, n - 1, uriPrefix, if i < n - 1 then i else 0);
    }
  }

  /** Whatever is appended later, a segment keeps its key, its discontinuity number and its
      URI in every later playlist that still lists it; and when the numbers of the history
      do not skip, it keeps its media sequence number too, which is its own. */
  lemma ListedTheSameForEver(history: seq<Segment>, more: seq<Segment>, start: nat, n: nat, start': nat, n': nat,
                             uriPrefix: string, j: nat)
    requires start <= j < start + n <= |history| && start' <= j < start' + n' <= |history + more|
    ensures |View(history, start, n, uriPrefix)| == n && |View(history + more, start', n', uriPrefix)| == n'
    ensures var e := View(history, start, n, uriPrefix)[j - start];
            var e' := View(history + more, start', n', uriPrefix)[j - start'];
            && e.key == e'.key == KeyTag.Effective(history[j].key)
            && e.discontinuity == e'.discontinuity == Flagged(history[..j + 1])
            && e.uri == e'.uri == uriPrefix + history[j].name
            && (Contiguous(history + more) ==> e == e' && e.sequence == history[j].sequence)
  {
    hide View, Flagged;
    ViewAt(history, start, n, uriPrefix, j - start);
    ViewAt(history + more, start', n', uriPrefix, j - start');
    assert (history + more)[..j + 1] == history[..j + 1];
    assert history[j] == (history + more)[j] && history[start] == (history + more)[start];
  }

  predicate PlainWindow(window: seq<Segment>, open: seq<Part>, uriPrefix: string) {
    && '\n' !in uriPrefix
    && (forall i | 0 <= i < |open| :: '\n' !in open[i].name)
    && (forall i | 0 <= i < |window| :: P.Plain(window[i], uriPrefix))
  }

  /** The URI of the next part that does not exist yet. */
  function PreloadHint(segments: seq<Segment>, open: seq<Part>): string {
    var sequence := if open != [] then open[|open| - 1].segmentSequence
                    else if segments == [] then 0 else segments[|segments| - 1].sequence + 1;
    var index := if open == [] then 0 else open[|open| - 1].index + 1;
    "segment-" + Decimal.Print(sequence) + "." + Decimal.Print(index) + ".ts"
  }

  function PlaylistOptions(config: Config, ended: bool, segments: seq<Segment>, open: seq<Part>,
                           discontinuities: nat, uriPrefix: string): P.Options
  {
    P.Options(config.targetDurationSeconds, config.playlistVersion, discontinuities, ended, uriPrefix, true,
              config.holdBackMs, config.lowLatency, if config.lowLatency then config.partTargetMs else 0,
              if config.lowLatency then config.partHoldBackMs else 0, config.partWindow,
              if config.lowLatency then open else [], if config.lowLatency then PreloadHint(segments, open) else "")
  }

  lemma HintOneLine(segments: seq<Segment>, open: seq<Part>)
    ensures '\n' !in PreloadHint(segments, open)
  {
  }

  /** The text printed for the newest `n` segments reads back as their view of history. */
  lemma WindowReadsBack(config: Config, ended: bool, history: seq<Segment>, segments: seq<Segment>, open: seq<Part>,
                        n: nat, uriPrefix: string)
    requires n <= |history| && PlainWindow(history[|history| - n..], open, uriPrefix)
    ensures var start := |history| - n;
            var o := PlaylistOptions(config, ended, segments, open, Flagged(history[..start]), uriPrefix);
            P.Read(Text.Terminated(P.AllLines(history[start..], o), '\n')) == View(history, start, n, uriPrefix)
  {
    hide P.Read, P.AllLines, Text.Terminated, P.Seen, View, KeyTag.WellFormed, PreloadHint;
    var start := |history| - n;
    var o := PlaylistOptions(config, ended, segments, open, Flagged(history[..start]), uriPrefix);
    HintOneLine(segments, open);
    P.PlaylistReadsBack(history[start..], o);
    SeenIsView(history, start, n, uriPrefix);
  }

  predicate QuotableWindow(window: seq<Segment>, open: seq<Part>, uriPrefix: string) {
    && '"' !in uriPrefix && S.AllQuotable(open, uriPrefix)
    && forall i | 0 <= i < |window| :: S.AllQuotable(window[i].parts, uriPrefix)
  }

  /** What a playlist of `window` is to tell a player besides the order of its segments: how long
      each lasts and, for the newest, of which parts it is made; a target that covers them all and
      is asked for by the configuration or by one of them; the delays with their floors; the parts
      of the segment to come and the part to ask for; and whether the stream has ended. */
  ghost predicate SheetSays(q: S.Sheet, config: Config, ended: bool, window: seq<Segment>, open: seq<Part>,
                            hint: string, uriPrefix: string)
  {
    && q.target.Some? && TargetFits(q.target.value, config.targetDurationSeconds, window)
    && q.version == Some(if config.lowLatency && config.playlistVersion < 9 then 9 else config.playlistVersion)
    && q.control == Some(S.Control(
         config.lowLatency,
         if config.holdBackMs > 0 then Some(S.AtLeast(config.holdBackMs, 3000 * q.target.value)) else None,
         if config.lowLatency && config.partTargetMs > 0
         then Some(S.AtLeast(config.partHoldBackMs, 3 * config.partTargetMs)) else None))
    && q.partTargetMs == (if config.lowLatency && config.partTargetMs > 0 then Some(config.partTargetMs) else None)
    && |q.segments| == |window|
    && (forall i | 0 <= i < |window| ::
          q.segments[i] == S.SegmentSeen(uriPrefix + window[i].name, window[i].duration,
                                         if config.lowLatency && i + config.partWindow >= |window|
                                         then S.PartsSeen(window[i].parts, uriPrefix) else []))
    && q.parts == (if config.lowLatency then S.PartsSeen(open, uriPrefix) else [])
    && q.hint == (if config.lowLatency then Some(uriPrefix + hint) else None) && q.ended == ended
  }

  ghost predicate TargetFits(target: nat, configured: nat, window: seq<Segment>) {
    && target >= 1 && target >= configured
    && (forall i | 0 <= i < |window| :: window[i].duration <= 1000 * target)
    && (|| target == configured || target == 1
        || exists i :: 0 <= i < |window| && 1000 * (target - 1) < window[i].duration)
  }

  lemma TargetFitsWindow(window: seq<Segment>, configured: nat)
    ensures TargetFits(P.Larger(P.Target(window, configured), 1), configured, window)
  {
    hide P.Target;
    if window == [] {
      NoTarget(configured);
    } else {
      forall i | 0 <= i < |window|
        ensures window[i].duration <= 1000 * P.Target(window, configured)
      {
        P.TargetCoversSegments(window, configured, i);
      }
      P.TargetCoversSegments(window, configured, 0);
    }
  }

  lemma NoTarget(configured: nat)
    ensures P.Target([], configured) == configured
  {
  }

  lemma {:induction false} SegmentsSeenAt(window: seq<Segment>, n: nat, o: P.Options, i: nat)
    requires n <= |window|
    ensures |S.SegmentsSeen(window, n, o)| == n
    ensures i < n ==> S.SegmentsSeen(window, n, o)[i] ==
                      S.SegmentSeen(o.uriPrefix + window[i].name, window[i].duration,
                                    if o.lowLatency && i + o.partWindow >= |window|
                                    then S.PartsSeen(window[i].parts, o.uriPrefix) else [])
  {
    hide S.PartsSeen;
    if n > 0 {
      SegmentsSeenAt(window, n - 1, o, i);
    }
  }

  lemma HintQuotable(segments: seq<Segment>, open: seq<Part>)
    ensures '"' !in PreloadHint(segments, open) && PreloadHint(segments, open) != ""
  {
  }

  /** The text printed for a window says so. */
  lemma WindowSheet(config: Config, ended: bool, window: seq<Segment>, segments: seq<Segment>, open: seq<Part>,
                    discontinuities: nat, uriPrefix: string)
    requires PlainWindow(window, open, uriPrefix) && QuotableWindow(window, open, uriPrefix)
    ensures var o := PlaylistOptions(config, ended, segments, open, discontinuities, uriPrefix);
            SheetSays(S.ReadSheet(Text.Terminated(P.AllLines(window, o), '\n')), config, ended, window, open,
                      PreloadHint(segments, open), uriPrefix)
  {
    hide S.ReadSheet, P.AllLines, Text.Terminated, P.Plain, PreloadHint, S.PartsSeen, S.AllQuotable, P.Target,
         S.SegmentsSeen, TargetFits, P.Larger;
    var o := PlaylistOptions(config, ended, segments, open, discontinuities, uriPrefix);
    HintOneLine(segments, open);
    HintQuotable(segments, open);
    NoneQuotable(uriPrefix);
    S.SheetReadsBack(window, o);
    TargetFitsWindow(window, config.targetDurationSeconds);
    SegmentsSeenAt(window, |window|, o, 0);
    forall i | 0 <= i < |window|
      ensures S.SegmentsSeen(window, |window|, o)[i] ==
              S.SegmentSeen(uriPrefix + window[i].name, window[i].duration,
                            if config.lowLatency && i + config.partWindow >= |window|
                            then S.PartsSeen(window[i].parts, uriPrefix) else [])
    {
      SegmentsSeenAt(window, |window|, o, i);
    }
  }

  lemma NoneQuotable(uriPrefix: string)
    ensures S.AllQuotable([], uriPrefix)
  {
  }

  /** What no poll changes: what the producer handed in, when its newest segment came and
      where that stands in the history, and, unless the poll's own copies ran into the byte
      cap, what the last eviction for bytes left. */
  predicate PolledOnly(before: Log, after: Log) {
    && after.produced == before.produced && after.added == before.added && after.accounted == before.accounted
    && after.realAt == before.realAt && after.realLength == before.realLength
    && (after.dropAt <= |before.history| ==> after.dropAt == before.dropAt && after.dropSize == before.dropSize)
  }

  /** How many copies of the newest segment a poll at `now` owes the live window. */
  function CopiesDue(config: Config, ended: bool, newest: Option<Segment>, lastAddedAt: Option<int>,
                     fallbackActive: bool, now: int): nat
  {
    if !config.repeatOnStall || ended || newest.None? || lastAddedAt.None? then 0
    else BackfillCount(now - lastAddedAt.value, Interval(newest.value.duration, config.targetDurationSeconds),
                       fallbackActive, config.Retention())
  }

  /** However long the stall, a poll owes at most a full retention of copies, and none
      at an instant not after the newest append: a second poll at the same instant
      appends nothing. */
  lemma PollIsBounded(config: Config, ended: bool, newest: Option<Segment>, lastAddedAt: Option<int>,
                      fallbackActive: bool, now: int)
    ensures var due := CopiesDue(config, ended, newest, lastAddedAt, fallbackActive, now);
            due <= config.Retention() && (lastAddedAt.Some? && now <= lastAddedAt.value ==> due == 0)
  {
  }

  /** The stall since the newest segment is made up for: one copy for every full cadence of it,
      or a full retention of them. */
  predicate StallMet(config: Config, newest: Segment, fallbackActive: bool, elapsedNs: int, copies: nat) {
    var interval := Interval(newest.duration, config.targetDurationSeconds);
    var grace := InitialGrace(interval, fallbackActive);
    && IsCadence(interval, grace, newest.duration, config.targetDurationSeconds, fallbackActive)
    && WholeCadences(copies, interval + grace, elapsedNs, config.Retention())
  }

  /** The k-th copy of a segment: the same media under the k-th number after it. */
  predicate IsCopy(c: Segment, source: Segment, k: nat) {
    && c.sequence == source.sequence + k
    && c.data == source.data && c.duration == source.duration && c.key == source.key
    && c.discontinuity == source.discontinuity && c.parts == []
  }

  /** The history from `from` on repeats the segment before it. */
  ghost predicate Repeats(history: seq<Segment>, from: nat) {
    0 < from <= |history| && forall k | from <= k < |history| :: IsCopy(history[k], history[from - 1], k - from + 1)
  }

  lemma OneMoreRepeat(history: seq<Segment>, from: nat, c: Segment)
    requires Repeats(history, from) && IsCopy(c, history[|history| - 1], 1)
    ensures Repeats(history + [c], from)
  {
  }

  /** The rest of playlist(): the snapshot of the window and its printing. */
  method Render(config: Config, ended: bool, shelf: Shelf, ghost log: Log, uriPrefix: string) returns (text: string)
    requires Coherent(shelf, log, [])
    ensures var n := Smaller(config.liveWindow, |shelf.segments|);
            && n <= |log.history|
            && (PlainWindow(log.history[|log.history| - n..], shelf.openParts, uriPrefix) ==>
                  P.Read(text) == View(log.history, |log.history| - n, n, uriPrefix))
            && (PlainWindow(log.history[|log.history| - n..], shelf.openParts, uriPrefix) &&
                QuotableWindow(log.history[|log.history| - n..], shelf.openParts, uriPrefix) ==>
                  SheetSays(S.ReadSheet(text), config, ended, log.history[|log.history| - n..], shelf.openParts,
                            PreloadHint(shelf.segments, shelf.openParts), uriPrefix))
  {
    hide PartsOk, SegmentsOk, PlainWindow, P.Read, View, P.AllLines, Text.Terminated, PlaylistOptions, QuotableWindow,
         SheetSays, S.ReadSheet, PreloadHint;
    var segments := shelf.segments;
    var count := Smaller(config.liveWindow, |segments|);
    var start := |segments| - count;
    WindowFits(log.history, segments, shelf.discontinuitySequence, shelf.byName);
    WindowOfHistory(log.history, segments, shelf.discontinuitySequence, shelf.byName, count);
    var before := shelf.discontinuitySequence;
    for i := 0 to start
      invariant before == shelf.discontinuitySequence + Flagged(segments[..i])
    {
      assert segments[..i + 1][..i] == segments[..i];
      if segments[i].discontinuity {
        before := before + 1;
      }
    }
    var options := PlaylistOptions(config, ended, segments, shelf.openParts, before, uriPrefix);
    text := P.BuildMediaPlaylist(segments[start..], options);
    if PlainWindow(log.history[|log.history| - count..], shelf.openParts, uriPrefix) {
      WindowReadsBack(config, ended, log.history, segments, shelf.openParts, count, uriPrefix);
      if QuotableWindow(log.history[|log.history| - count..], shelf.openParts, uriPrefix) {
        WindowSheet(config, ended, segments[start..], segments, shelf.openParts, before, uriPrefix);
      }
    }
  }

  class SegmentStore {
    const config: Config
    const clock: SteadyClock
    var shelf: Shelf
    var ended: bool
    var fallbackActive: bool              // fallback_active_
    var lastAddedAt: Option<int>          // last_segment_added_at_
    ghost var log: Log

    /** The copies appended since the newest producer segment never run ahead of the clock. */
    ghost predicate Timed()
      reads this, clock
    {
      && (lastAddedAt.Some? <==> log.history != [])
      && (fallbackActive <==> log.realLength < |log.history|) && (fallbackActive ==> config.repeatOnStall)
      && (lastAddedAt.Some? ==> lastAddedAt.value <= clock.time &&
                                log.fallbackMs * NS_PER_MS <= lastAddedAt.value - log.realAt)
    }

    ghost predicate Valid()
      reads this, clock
    {
      && 1 <= config.Retention()
      && Coherent(shelf, log, []) && WithinCount(config, shelf, log)
      && NumberingOk(config.repeatOnStall, log.history, log.produced)
      && (!config.lowLatency ==> shelf.openParts == [])
      && EdgeOf(ended, shelf.openParts, shelf.segments) == L.EdgeAfter(log.events)
      && Timed()
    }

    constructor (config: Config, clock: SteadyClock)
      requires 1 <= config.Retention()
      ensures Valid() && this.config == config && this.clock == clock
      ensures log == EMPTY_LOG && !ended
    {
      EmptyStore(config.repeatOnStall);
      this.config := config;
      this.clock := clock;
      shelf, log := EMPTY_SHELF, EMPTY_LOG;
      ended, fallbackActive, lastAddedAt := false, false, None;
    }

    /** append_locked; `produced` is the producer's side of the log from here on. */
    method Append(s: Segment, fallback: bool, ghost produced: seq<Segment>)
      requires 1 <= config.Retention() && Coherent(shelf, log, s.parts) && WithinCount(config, shelf, log)
      modifies this`shelf, this`fallbackActive, this`lastAddedAt, this`log, clock
      ensures Coherent(shelf, log, []) && WithinCount(config, shelf, log)
      ensures log == Logged(old(log), s, fallback, produced, log.byteDrops, |shelf.segments|, clock.time)
      ensures log.byteDrops >= old(log).byteDrops
      ensures |shelf.segments| + (log.byteDrops - old(log).byteDrops) ==
              Smaller(|old(shelf).segments| + 1, config.Retention())
      ensures shelf.segments != [] && shelf.segments[|shelf.segments| - 1] == s
      ensures shelf.openParts == old(shelf).openParts
      ensures shelf.bytesHeld <= config.maxTotalBytes || |shelf.segments| == 1
      ensures fallbackActive == fallback
      ensures old(clock.time) <= clock.time && lastAddedAt == Some(clock.time)
    {
      hide SegmentsOk, PartsOk, Coherent, WithinCount, Logged, Emplace;
      ShelfTakes(shelf, log, s);
      var fuller := shelf.(segments := shelf.segments + [s], byName := Emplace(shelf.byName, s.name, s),
                           bytesHeld := shelf.bytesHeld + |s.data|);
      ghost var longer := log.(history := log.history + [s]);
      fallbackActive := fallback;
      var now := clock.Now();
      lastAddedAt := Some(now);
      ghost var drops: nat;
      shelf, drops := Evict(config, fuller, longer);
      CountKept(config, old(shelf), log, s, fallback, produced, drops, now, shelf);
      LoggedHistory(log, s, fallback, produced, log.byteDrops + drops, |shelf.segments|, now);
      log := Logged(log, s, fallback, produced, log.byteDrops + drops, |shelf.segments|, now);
      CoherentIgnores(shelf, longer, log, []);
    }

    lemma LastIsNewest()
      requires Valid()
      ensures Newest(shelf.segments) == Newest(log.history)
    {
    }

    /** In an outage, after any polls: the copies appended since the producer's newest
        segment last no longer, all together, than the time gone by since it came. */
    lemma CopiesWithinOutage()
      requires Valid() && log.history != []
      ensures 0 <= log.realLength <= |log.history|
      ensures TotalMs(log.history[log.realLength..]) * NS_PER_MS <= clock.time - log.realAt
    {
      hide Coherent, Retained, NumberingOk, EdgeOf, L.EdgeAfter;
    }

    /** A playlist served when the history was `served` long listed the newest segments of
        those retained then. Each of them is found by its name through the next `grace`
        appends, unless the byte cap evicts something in between. */
    lemma AdvertisedStaysFetchable(served: nat, j: nat)
      requires Valid() && Distinct(SegmentNames(log.history))
      requires log.dropAt <= served <= |log.history| <= served + config.grace
      requires served - Smaller(config.liveWindow, Retained(config, log, served)) <= j < served
      ensures log.history[j].name in shelf.byName && shelf.byName[log.history[j].name] == log.history[j]
    {
      hide PartsOk, NumberingOk, EdgeOf, L.EdgeAfter, Distinct, Flagged, TotalMs;
      var k := |log.history| - |shelf.segments|;
      assert SegmentNames(log.history)[k..][j - k] == log.history[j].name;
    }

    /** Over every run in stall-repeat mode, producer segments and copies mixed in any order:
        numbers never skip, in the history as in the window; every name is the producer's
        pattern with the segment's own number; and no name is used twice. */
    lemma RepeatModeNumbering(prefix: string, suffix: string)
      requires Valid() && config.repeatOnStall
      requires Named(log.produced, prefix, suffix) && Decimal.NoDigits(suffix)
      ensures Contiguous(log.history) && Named(log.history, prefix, suffix) && Distinct(SegmentNames(log.history))
      ensures Contiguous(shelf.segments) && Named(shelf.segments, prefix, suffix)
      ensures shelf.segments != [] ==>
                forall i | 0 <= i < |shelf.segments| ::
                  shelf.segments[i].sequence == P.MediaSequence(shelf.segments) + i
    {
      hide PartsOk, EdgeOf, L.EdgeAfter, WithinCount, IndexedSuffix, SegmentNames, Distinct;
      NamesNeverRepeat(log.history, prefix, suffix);
      var k := |log.history| - |shelf.segments|;
      SuffixOfHistory(log.history, shelf.segments, shelf.discontinuitySequence, shelf.byName);
      forall i | 0 <= i < |shelf.segments|
        ensures shelf.segments[i] == log.history[k + i]
      {
      }
    }

    /** add_segment: stores the producer's segment under the next number when numbers
        must stay contiguous, together with the parts published while it was open. */
    method AddSegment(segment: Segment, sealed: Option<Sealed>)
      requires Valid()
      modifies this`shelf, this`fallbackActive, this`lastAddedAt, this`log, clock
      ensures Valid()
      ensures var numbered := Numbered(config, Newest(old(log).history), old(fallbackActive), Seal(segment, sealed));
              var open := old(shelf).openParts;
              var s := if open != [] then numbered.(parts := open) else numbered;
              log == Logged(old(log), s, false, old(log).produced + [segment], log.byteDrops, |shelf.segments|,
                            clock.time)
                     .(accounted := old(log).accounted && (open != [] || s.parts == []))
      ensures log.history != [] &&
              StoresMedia(log.history[|log.history| - 1], segment, sealed,
                          old(log).realLength < |old(log).history| && !config.seamlessRecovery)
      ensures log.byteDrops >= old(log).byteDrops
      ensures shelf.openParts == [] && !fallbackActive && lastAddedAt == Some(clock.time)
      ensures shelf.bytesHeld <= config.maxTotalBytes || |shelf.segments| == 1
    {
      hide SegmentsOk, PartsOk, NumberingOk, Coherent, WithinCount, Numbered, Seal, L.EdgeAfter, EdgeOf, PositionOf,
           Logged, StoresMedia, Renumbers;
      LastIsNewest();
      ClaimedStores(config, log.history, fallbackActive, segment, sealed, shelf.openParts);
      var s := Numbered(config, Newest(shelf.segments), fallbackActive, Seal(segment, sealed));
      ghost var open := shelf.openParts;
      s, shelf, log := ClaimParts(config, s, shelf, log);
      ghost var claimed := log;
      AppendProduced(s, segment, open);
      LoggedReal(old(log), claimed.accounted, s, claimed.produced + [segment], log.byteDrops, |shelf.segments|,
                 clock.time);
    }

    /** The producer's segment appended; `open` were the open parts before it claimed them. */
    method AppendProduced(s: Segment, ghost segment: Segment, ghost open: seq<Part>)
      requires 1 <= config.Retention() && Coherent(shelf, log, s.parts) && WithinCount(config, shelf, log)
      requires NumberingOk(config.repeatOnStall, log.history, log.produced)
      requires Renumbers(config.repeatOnStall, log.history, segment, s)
      requires shelf.openParts == [] && EdgeOf(ended, open, shelf.segments) == L.EdgeAfter(log.events)
      modifies this`shelf, this`fallbackActive, this`lastAddedAt, this`log, clock
      ensures Valid()
      ensures log == Logged(old(log), s, false, old(log).produced + [segment], log.byteDrops, |shelf.segments|,
                            clock.time)
      ensures log.byteDrops >= old(log).byteDrops
      ensures shelf.openParts == [] && !fallbackActive && lastAddedAt == Some(clock.time)
      ensures shelf.bytesHeld <= config.maxTotalBytes || |shelf.segments| == 1
    {
      hide SegmentsOk, PartsOk, NumberingOk, Coherent, WithinCount, L.EdgeAfter, EdgeOf, PositionOf, Logged, Renumbers;
      ProducerNumbered(config.repeatOnStall, log.history, log.produced, segment, s);
      ghost var segments := shelf.segments;
      Append(s, false, log.produced + [segment]);
      LoggedReal(old(log), old(log).accounted, s, old(log).produced + [segment], log.byteDrops, |shelf.segments|,
                 clock.time);
      SegmentMovesEdge(ended, open, segments, old(log).events, s, shelf.segments);
    }

    /** add_part: ignored unless the store is configured for low latency. */
    method AddPart(part: Part, sealed: Option<seq<byte>>)
      requires Valid()
      modifies this`shelf, this`log
      ensures Valid()
      ensures !config.lowLatency ==> shelf == old(shelf) && log == old(log)
      ensures config.lowLatency ==>
                var p := if sealed.Some? then part.(data := sealed.value) else part;
                var event := L.PartAdded(L.Position(part.segmentSequence, part.index));
                && shelf.segments == old(shelf).segments && shelf.openParts == old(shelf).openParts + [p]
                && log == old(log).(added := old(log).added + [p], events := old(log).events + [event])
    {
      hide NumberingOk, L.EdgeAfter, Coherent, WithinCount;
      if config.lowLatency {
        var p := if sealed.Some? then part.(data := sealed.value) else part;
        PartTaken(config, shelf, log, p);
        ghost var event := L.PartAdded(L.Position(p.segmentSequence, p.index));
        L.OneMoreEvent(log.events, event);
        EventsApart(config, WithPart(shelf, p), log.(added := log.added + [p]), log.events + [event]);
        shelf := shelf.(bytesHeld := shelf.bytesHeld + |p.data|, openParts := shelf.openParts + [p],
                        partsByName := Emplace(shelf.partsByName, p.name, p));
        log := log.(added := log.added + [p], events := log.events + [event]);
      }
    }

    /** mark_ended */
    method MarkEnded()
      requires Valid()
      modifies this`ended, this`log
      ensures Valid() && ended && log == old(log).(events := old(log).events + [L.Ended])
    {
      hide Coherent, WithinCount, NumberingOk, L.EdgeAfter;
      L.OneMoreEvent(log.events, L.Ended);
      EventsApart(config, shelf, log, log.events + [L.Ended]);
      ended := true;
      log := log.(events := log.events + [L.Ended]);
    }

    /** mark_live */
    method MarkLive()
      requires Valid()
      modifies this`ended, this`log
      ensures Valid() && !ended && log == old(log).(events := old(log).events + [L.Resumed])
    {
      hide Coherent, WithinCount, NumberingOk, L.EdgeAfter;
      L.OneMoreEvent(log.events, L.Resumed);
      EventsApart(config, shelf, log, log.events + [L.Resumed]);
      ended := false;
      log := log.(events := log.events + [L.Resumed]);
    }

    /** clear: the log starts over. */
    method Clear()
      requires Valid()
      modifies this
      ensures Valid() && log == EMPTY_LOG && shelf == EMPTY_SHELF && !ended
    {
      hide SegmentsOk, PartsOk, NumberingOk;
      EmptyStore(config.repeatOnStall);
      shelf, log := EMPTY_SHELF, EMPTY_LOG;
      ended, fallbackActive, lastAddedAt := false, false, None;
    }

    /** has_reached: the test a blocking reload waits on, answered for the whole
        publication log when the producer is in order. */
    method HasReached(sequence: nat, part: int) returns (r: bool)
      requires Valid()
      ensures L.InOrder(log.events) ==> (r <==> L.Published(log.events, sequence, part))
    {
      r := L.HasReached(EdgeOf(ended, shelf.openParts, shelf.segments), sequence, part);
      if L.InOrder(log.events) {
        L.HasReachedIffPublished(log.events, sequence, part);
      }
    }

    /** find_segment: a hit is the retained segment of that name; as long as no name was
        used twice, every retained segment is found and nothing else. */
    method FindSegment(name: string) returns (r: Option<Segment>)
      requires Valid()
      ensures Distinct(SegmentNames(log.history)) ==>
                && (r.Some? ==> r.value in shelf.segments && r.value.name == name)
                && (r.None? ==> name !in SegmentNames(shelf.segments))
    {
      hide SegmentsOk, PartsOk, NumberingOk;
      r := if name in shelf.byName then Some(shelf.byName[name]) else None;
      if Distinct(SegmentNames(log.history)) {
        SegmentLookup(log.history, shelf.segments, shelf.discontinuitySequence, shelf.byName, name);
      }
    }

    /** find_part: the same for the parts of retained segments and of the open one. */
    method FindPart(name: string) returns (r: Option<Part>)
      requires Valid()
      ensures log.accounted && Distinct(PartNames(log.added)) ==>
                var retained := AllParts(shelf.segments) + shelf.openParts;
                && (r.Some? ==> r.value in retained && r.value.name == name)
                && (r.None? ==> name !in PartNames(retained))
    {
      hide SegmentsOk, PartsOk, NumberingOk;
      r := if name in shelf.partsByName then Some(shelf.partsByName[name]) else None;
      if log.accounted && Distinct(PartNames(log.added)) {
        PartLookup(log.added, shelf.segments, shelf.openParts, shelf.bytesHeld, shelf.partsByName, name);
      }
    }

    /** One synthetic copy of the newest segment, appended under the next number. */
    method AppendCopy()
      requires Valid() && log.history != [] && config.repeatOnStall
      requires (log.fallbackMs + log.history[|log.history| - 1].duration) * NS_PER_MS <= clock.time - log.realAt
      modifies this`shelf, this`fallbackActive, this`lastAddedAt, this`log, clock
      ensures Valid() && fallbackActive && shelf.openParts == old(shelf).openParts
      ensures old(clock.time) <= clock.time && lastAddedAt == Some(clock.time)
      ensures |log.history| == |old(log).history| + 1 && log.history[..|old(log).history|] == old(log).history
      ensures IsCopy(log.history[|old(log).history|], old(log).history[|old(log).history| - 1], 1)
      ensures log == Logged(old(log), log.history[|old(log).history|], true, old(log).produced, log.byteDrops,
                            |shelf.segments|, clock.time)
    {
      hide SegmentsOk, PartsOk, NumberingOk, Coherent, WithinCount, NameWithSequence, L.EdgeAfter, EdgeOf, PositionOf;
      LastIsNewest();
      var newest := shelf.segments[|shelf.segments| - 1];
      var copy := CopyWithSequence(newest, newest.sequence + 1, false);
      FallbackNumbered(log.history, log.produced, copy);
      RealWithin(config, shelf, log);
      Append(copy, true, log.produced);
      FallbackMovesEdge(ended, old(shelf).openParts, old(shelf).segments, old(log).events, copy, shelf.segments);
    }

    /** The loop of append_fallback_if_due_locked, for a count the clock allows. */
    method AppendCopies(count: nat, ghost interval: nat, ghost now: int)
      requires Valid() && log.history != [] && config.repeatOnStall && now <= clock.time
      requires log.history[|log.history| - 1].duration <= interval
      requires Affordable(count, interval, now - lastAddedAt.value)
      modifies this`shelf, this`fallbackActive, this`lastAddedAt, this`log, clock
      ensures Valid() && now <= clock.time && shelf.openParts == old(shelf).openParts
      ensures |log.history| == |old(log).history| + count && log.history[..|old(log).history|] == old(log).history
      ensures Repeats(log.history, |old(log).history|)
      ensures count == 0 ==> shelf == old(shelf) && log == old(log) && lastAddedAt == old(lastAddedAt)
      ensures count > 0 ==> lastAddedAt.Some? && now <= lastAddedAt.value
      ensures fallbackActive == (old(fallbackActive) || count > 0)
      ensures PolledOnly(old(log), log)
    {
      hide SegmentsOk, PartsOk, NumberingOk, Coherent, WithinCount, L.EdgeAfter, EdgeOf, Repeats,
           Affordable, CopiesMs;
      ghost var newest := log.history[|log.history| - 1];
      NoRepeatYet(log.history);
      OneMoreCopy(0, newest.duration);
      var i := 0;
      while i < count
        invariant 0 <= i <= count
        invariant Valid() && now <= clock.time && shelf.openParts == old(shelf).openParts
        invariant |log.history| == |old(log).history| + i && log.history[..|old(log).history|] == old(log).history
        invariant Repeats(log.history, |old(log).history|)
        invariant log.history[|log.history| - 1].duration == newest.duration
        invariant i == 0 ==> shelf == old(shelf) && log == old(log) && lastAddedAt == old(lastAddedAt)
        invariant i > 0 ==> lastAddedAt.Some? && now <= lastAddedAt.value
        invariant fallbackActive == (old(fallbackActive) || i > 0)
        invariant log.fallbackMs == old(log).fallbackMs + CopiesMs(i, newest.duration)
        invariant PolledOnly(old(log), log)
      {
        BackfillFits(old(log).fallbackMs, old(lastAddedAt).value, log.realAt, now, clock.time, newest.duration,
                     interval, count, i + 1);
        OneMoreCopy(i, newest.duration);
        ghost var before := log.history;
        AppendCopy();
        OneMoreRepeat(before, |old(log).history|, log.history[|before|]);
        assert log.history == before + [log.history[|before|]];
        i := i + 1;
      }
    }

    /** append_fallback_if_due_locked, with `now` the instant it measured the stall at:
        exactly the copies that are due, all repeating the newest segment. */
    method AppendFallbackIfDue() returns (now: int)
      requires Valid()
      modifies this`shelf, this`fallbackActive, this`lastAddedAt, this`log, clock
      ensures Valid() && old(clock.time) <= now <= clock.time
      ensures shelf.openParts == old(shelf).openParts
      ensures var n := CopiesDue(config, ended, Newest(old(log).history), old(lastAddedAt), old(fallbackActive), now);
              && |log.history| == |old(log).history| + n && log.history[..|old(log).history|] == old(log).history
              && (n == 0 ==> shelf == old(shelf) && log == old(log) && lastAddedAt == old(lastAddedAt) &&
                             fallbackActive == old(fallbackActive))
              && (n > 0 ==> Repeats(log.history, |old(log).history|) && fallbackActive &&
                            lastAddedAt.Some? && now <= lastAddedAt.value)
      ensures PolledOnly(old(log), log)
      ensures config.repeatOnStall && !ended && old(log).history != [] ==>
                old(lastAddedAt).Some? &&
                StallMet(config, old(log).history[|old(log).history| - 1], old(fallbackActive),
                         now - old(lastAddedAt).value, |log.history| - |old(log).history|)
    {
      hide SegmentsOk, PartsOk, NumberingOk, Coherent, WithinCount, L.EdgeAfter, EdgeOf, BackfillCount, Interval,
           Repeats, Affordable, WholeCadences, IsCadence, InitialGrace;
      now := clock.time;
      LastIsNewest();
      if !config.repeatOnStall || ended || shelf.segments == [] || lastAddedAt.None? {
        return;
      }
      var newest := shelf.segments[|shelf.segments| - 1];
      now := clock.Now();
      var interval := Interval(newest.duration, config.targetDurationSeconds);
      var count := BackfillCount(now - lastAddedAt.value, interval, fallbackActive, config.Retention());
      BackfillIsExact(now - lastAddedAt.value, newest.duration, config.targetDurationSeconds, fallbackActive,
                      config.Retention());
      BackfillIsBounded(now - lastAddedAt.value, interval, InitialGrace(interval, fallbackActive), count,
                        config.Retention());
      DurationWithinInterval(newest.duration, config.targetDurationSeconds);
      AppendCopies(count, interval, now);
    }

    /** playlist: backfills a stall, then prints the live window. A player reading the
        text sees exactly the newest segments of the append history, as `View` says. */
    method Playlist(uriPrefix: string) returns (text: string, now: int)
      requires Valid()
      modifies this`shelf, this`fallbackActive, this`lastAddedAt, this`log, clock
      ensures Valid() && old(clock.time) <= now <= clock.time
      ensures var due := CopiesDue(config, ended, Newest(old(log).history), old(lastAddedAt), old(fallbackActive), now);
              && |log.history| == |old(log).history| + due && log.history[..|old(log).history|] == old(log).history
              && (due == 0 ==> shelf == old(shelf) && log == old(log) && lastAddedAt == old(lastAddedAt) &&
                               fallbackActive == old(fallbackActive))
              && (due > 0 ==> Repeats(log.history, |old(log).history|) && lastAddedAt.Some? && now <= lastAddedAt.value)
      ensures PolledOnly(old(log), log) && shelf.openParts == old(shelf).openParts
      ensures config.repeatOnStall && !ended && old(log).history != [] ==>
                old(lastAddedAt).Some? &&
                StallMet(config, old(log).history[|old(log).history| - 1], old(fallbackActive),
                         now - old(lastAddedAt).value, |log.history| - |old(log).history|)
      ensures var n := Smaller(config.liveWindow, |shelf.segments|);
              && n <= |log.history|
              && (PlainWindow(log.history[|log.history| - n..], shelf.openParts, uriPrefix) ==>
                    P.Read(text) == View(log.history, |log.history| - n, n, uriPrefix))
              && (PlainWindow(log.history[|log.history| - n..], shelf.openParts, uriPrefix) &&
                  QuotableWindow(log.history[|log.history| - n..], shelf.openParts, uriPrefix) ==>
                    SheetSays(S.ReadSheet(text), config, ended, log.history[|log.history| - n..], shelf.openParts,
                              PreloadHint(shelf.segments, shelf.openParts), uriPrefix))
    {
      hide PartsOk, SegmentsOk, NumberingOk, Coherent, WithinCount, PlainWindow, P.Read, View, L.EdgeAfter, EdgeOf,
           CopiesDue, Repeats, StallMet, QuotableWindow, SheetSays, S.ReadSheet, PreloadHint;
      now := AppendFallbackIfDue();
      text := Render(config, ended, shelf, log, uriPrefix);
    }

    /** Two polls, nothing else in between: if the clock has not moved, the second appends
        nothing and changes nothing. */
    method PollTwice(uriPrefix: string) returns (first: int, second: int, ghost between: Log)
      requires Valid()
      modifies this`shelf, this`fallbackActive, this`lastAddedAt, this`log, clock
      ensures Valid() && first <= second && PolledOnly(old(log), between) && PolledOnly(between, log)
      ensures |between.history| <= |old(log).history| + config.Retention()
      ensures second == first ==> log == between
    {
      hide Coherent, WithinCount, NumberingOk, L.EdgeAfter, EdgeOf, PlainWindow, P.Read, View, Repeats, CopiesDue,
           StallMet, QuotableWindow, SheetSays;
      var text;
      text, first := Playlist(uriPrefix);
      PollIsBounded(config, ended, Newest(old(log).history), old(lastAddedAt), old(fallbackActive), first);
      between := log;
      ghost var stamp, active := lastAddedAt, fallbackActive;
      text, second := Playlist(uriPrefix);
      PollIsBounded(config, ended, Newest(between.history), stamp, active, second);
    }

    /** An outage: any number of polls at whatever instants. The producer's side of the log
        stands still, each poll appends at most a full retention of copies, and all copies
        together last no longer than the time since the newest real segment. */
    method PollThrough(polls: nat, uriPrefix: string)
      requires Valid() && log.history != []
      modifies this`shelf, this`fallbackActive, this`lastAddedAt, this`log, clock
      ensures Valid() && log.history != []
      ensures log.produced == old(log).produced && log.realAt == old(log).realAt
      ensures log.realLength == old(log).realLength <= |log.history|
      ensures old(log).history <= log.history && |log.history| <= |old(log).history| + polls * config.Retention()
      ensures TotalMs(log.history[old(log).realLength..]) * NS_PER_MS <= clock.time - old(log).realAt
    {
      hide Coherent, WithinCount, NumberingOk, L.EdgeAfter, EdgeOf, PlainWindow, P.Read, View, Repeats, CopiesDue,
           StallMet, QuotableWindow, SheetSays;
      ghost var bound := |log.history|;
      for i := 0 to polls
        invariant Valid() && log.history != [] && old(log).history <= log.history
        invariant log.produced == old(log).produced && log.realAt == old(log).realAt
        invariant log.realLength == old(log).realLength
        invariant |log.history| <= bound == |old(log).history| + i * config.Retention()
      {
        ghost var newest, stamp, active := Newest(log.history), lastAddedAt, fallbackActive;
        var text, now := Playlist(uriPrefix);
        PollIsBounded(config, ended, newest, stamp, active, now);
        OneMoreTimes(i, config.Retention());
        bound := bound + config.Retention();
      }
      CopiesWithinOutage();
    }
  }

  lemma OneMoreTimes(i: nat, n: nat)
    ensures (i + 1) * n == i * n + n
  {
  }

  lemma WindowFits(history: seq<Segment>, segments: seq<Segment>, gone: nat, byName: map<string, Segment>)
    requires SegmentsOk(history, segments, gone, byName)
    ensures |segments| <= |history|
  {
  }

  lemma SuffixOfHistory(history: seq<Segment>, segments: seq<Segment>, gone: nat, byName: map<string, Segment>)
    requires SegmentsOk(history, segments, gone, byName)
    ensures |segments| <= |history| && segments == history[|history| - |segments|..]
  {
  }

  lemma WindowOfHistory(history: seq<Segment>, segments: seq<Segment>, gone: nat, byName: map<string, Segment>, n: nat)
    requires SegmentsOk(history, segments, gone, byName) && n <= |segments|
    ensures history[|history| - n..] == segments[|segments| - n..]
    ensures gone + Flagged(segments[..|segments| - n]) == Flagged(history[..|history| - n])
  {
    var k := |history| - |segments|;
    FlaggedConcat(history[..k], segments[..|segments| - n]);
    assert history[..k] + segments[..|segments| - n] == history[..|history| - n];
  }

  lemma NoRepeatYet(history: seq<Segment>)
    requires history != []
    ensures Repeats(history, |history|)
  {
  }
}
