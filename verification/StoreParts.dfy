/** Value-level pieces of the segment store: renumbered copies, the name indexes,
    byte accounting, discontinuity counting and the stall backfill arithmetic. */
module StoreParts {
  import opened Prelude
  import opened Media
  import opened Text
  import Decimal

  // -------------------------------------------------------- renumbered copies

  /** std::string::rfind: the last position of `pattern` in `s`, or None. */
  function LastIndexOf(s: string, pattern: string): (r: Option<nat>)
    ensures r.Some? ==> r.value + |pattern| <= |s|
  {
    if |s| < |pattern| then None
    else if s[|s| - |pattern|..] == pattern then Some(|s| - |pattern|)
    else if s == [] then None
    else LastIndexOf(s[..|s| - 1], pattern)
  }

  /** It is an occurrence, and there is none behind it. */
  lemma {:induction false} LastIndexIsLast(s: string, pattern: string)
    ensures LastIndexOf(s, pattern).Some? ==> At(s, pattern, LastIndexOf(s, pattern).value)
    ensures forall i: nat | At(s, pattern, i) ::
              LastIndexOf(s, pattern).Some? && i <= LastIndexOf(s, pattern).value
  {
    if |s| >= |pattern| && s[|s| - |pattern|..] != pattern && s != [] {
      LastIndexIsLast(s[..|s| - 1], pattern);
      forall i: nat
        ensures At(s, pattern, i) <==> At(s[..|s| - 1], pattern, i)
      {
        AtInPrefix(s, |s| - 1, pattern, i);
        if i + |pattern| == |s| {
          assert s[i..i + |pattern|] == s[|s| - |pattern|..];
        }
      }
    }
  }

  function NameWithSequence(source: Segment, sequence: nat): string {
    var digits := Decimal.Print(source.sequence);
    match LastIndexOf(source.name, digits)
    case Some(at) => source.name[..at] + Decimal.Print(sequence) + source.name[at + |digits|..]
    case None => "segment-" + Decimal.Print(sequence) + ".ts"
  }

  function CopyWithSequence(source: Segment, sequence: nat, forceDiscontinuity: bool): Segment {
    Segment(sequence, NameWithSequence(source, sequence), source.data, source.duration,
            source.discontinuity || forceDiscontinuity, [], source.key, 0)
  }

  lemma {:induction false} LastNumberIsTheSequence(prefix: string, digits: string, suffix: string)
    requires |digits| > 0 && Decimal.AllDigits(digits) && Decimal.NoDigits(suffix)
    ensures LastIndexOf(prefix + digits + suffix, digits) == Some(|prefix|)
  {
    var s := prefix + digits + suffix;
    if suffix == [] {
      assert s[|s| - |digits|..] == digits;
    } else {
      var shorter := suffix[..|suffix| - 1];
      assert s[|s| - 1] == suffix[|suffix| - 1];
      assert s[|s| - |digits|..][|digits| - 1] == s[|s| - 1];
      assert s[..|s| - 1] == prefix + digits + shorter;
      LastNumberIsTheSequence(prefix, digits, shorter);
    }
  }

  /** Renumbering a segment named prefix + sequence + suffix gives the name the
      producer itself would give the new number, whatever digits the prefix holds. */
  lemma RenumberedName(source: Segment, prefix: string, suffix: string, sequence: nat)
    requires source.name == SegmentName(prefix, source.sequence, suffix)
    requires Decimal.NoDigits(suffix)
    ensures NameWithSequence(source, sequence) == SegmentName(prefix, sequence, suffix)
  {
    var digits := Decimal.Print(source.sequence);
    LastNumberIsTheSequence(prefix, digits, suffix);
    assert source.name[..|prefix|] == prefix;
    assert source.name[|prefix| + |digits|..] == suffix;
  }

  // ------------------------------------------------------------- name indexes

  function SegmentNames(segments: seq<Segment>): (r: seq<string>)
    ensures |r| == |segments| && forall i | 0 <= i < |r| :: r[i] == segments[i].name
  {
    seq(|segments|, i requires 0 <= i < |segments| => segments[i].name)
  }

  function PartNames(parts: seq<Part>): (r: seq<string>)
    ensures |r| == |parts| && forall i | 0 <= i < |r| :: r[i] == parts[i].name
  {
    seq(|parts|, i requires 0 <= i < |parts| => parts[i].name)
  }

  predicate Distinct(names: seq<string>) {
    forall i, j | 0 <= i < j < |names| :: names[i] != names[j]
  }

  /** The map holds exactly these values, each under its own name. */
  predicate Indexes<T(==)>(m: map<string, T>, names: seq<string>, values: seq<T>) {
    && |names| == |values|
    && m.Keys == (set n | n in names)
    && forall i | 0 <= i < |names| :: names[i] in m && m[names[i]] == values[i]
  }

  /** std::unordered_map::emplace: an existing entry wins. */
  function Emplace<T>(m: map<string, T>, name: string, value: T): map<string, T> {
    if name in m then m else m[name := value]
  }

  /** `kept` is a suffix of everything ever added, and, as long as no name was used
      twice, the index holds exactly the kept values. */
  predicate IndexedSuffix<T(==)>(names: seq<string>, all: seq<T>, kept: seq<T>, index: map<string, T>) {
    && |names| == |all|
    && |kept| <= |all|
    && kept == all[|all| - |kept|..]
    && (Distinct(names) ==> Indexes(index, names[|all| - |kept|..], kept))
  }

  lemma AppendIndexed<T>(names: seq<string>, all: seq<T>, kept: seq<T>, index: map<string, T>, name: string, value: T)
    requires IndexedSuffix(names, all, kept, index)
    ensures IndexedSuffix(names + [name], all + [value], kept + [value], Emplace(index, name, value))
  {
    var k := |all| - |kept|;
    assert (all + [value])[k..] == kept + [value];
    assert (names + [name])[k..] == names[k..] + [name];
    if Distinct(names + [name]) {
      forall i | 0 <= i < |names|
        ensures names[i] == (names + [name])[i] && names[i] != (names + [name])[|names|]
      {
      }
    }
  }

  lemma DropIndexed<T>(names: seq<string>, all: seq<T>, kept: seq<T>, index: map<string, T>)
    requires kept != [] && IndexedSuffix(names, all, kept, index)
    ensures IndexedSuffix(names, all, kept[1..], index - {names[|all| - |kept|]})
  {
    hide Distinct, Indexes;
    var k := |all| - |kept|;
    assert all[k..][1..] == all[k + 1..];
    if Distinct(names) {
      assert names[k..][1..] == names[k + 1..] && names[k..][0] == names[k];
      SuffixDistinct(names, k);
      DropFirstIndexed(index, names[k..], kept);
    }
  }

  lemma SuffixDistinct(names: seq<string>, k: nat)
    requires Distinct(names) && k <= |names|
    ensures Distinct(names[k..])
  {
  }

  lemma DropFirstIndexed<T>(index: map<string, T>, names: seq<string>, values: seq<T>)
    requires names != [] && |names| == |values| && Distinct(names) && Indexes(index, names, values)
    ensures Indexes(index - {names[0]}, names[1..], values[1..])
  {
  }

  /** Under distinct names a lookup hits exactly the kept values. */
  lemma LookupIsExact<T>(names: seq<string>, all: seq<T>, kept: seq<T>, index: map<string, T>, name: string)
    requires IndexedSuffix(names, all, kept, index) && Distinct(names)
    ensures var keptNames := names[|all| - |kept|..];
            && (name in index <==> name in keptNames)
            && (name in index ==> exists i :: 0 <= i < |kept| && keptNames[i] == name && kept[i] == index[name])
  {
  }

  // ---------------------------------------------------------- byte accounting

  function PartBytes(parts: seq<Part>): nat {
    if parts == [] then 0 else |parts[0].data| + PartBytes(parts[1..])
  }

  function HeldBytes(segments: seq<Segment>): nat {
    if segments == [] then 0
    else |segments[0].data| + PartBytes(segments[0].parts) + HeldBytes(segments[1..])
  }

  function AllParts(segments: seq<Segment>): seq<Part> {
    if segments == [] then [] else segments[0].parts + AllParts(segments[1..])
  }

  lemma {:induction false} PartBytesAppend(parts: seq<Part>, more: seq<Part>)
    ensures PartBytes(parts + more) == PartBytes(parts) + PartBytes(more)
  {
    if parts == [] {
      assert parts + more == more;
    } else {
      assert (parts + more)[1..] == parts[1..] + more;
      PartBytesAppend(parts[1..], more);
    }
  }

  lemma {:induction false} AppendSegment(segments: seq<Segment>, s: Segment)
    ensures HeldBytes(segments + [s]) == HeldBytes(segments) + |s.data| + PartBytes(s.parts)
    ensures AllParts(segments + [s]) == AllParts(segments) + s.parts
  {
    if segments == [] {
      assert segments + [s] == [s];
    } else {
      assert (segments + [s])[1..] == segments[1..] + [s];
      AppendSegment(segments[1..], s);
    }
  }

  // ---------------------------------------------------------- discontinuities

  function Flagged(segments: seq<Segment>): nat {
    if segments == [] then 0
    else Flagged(segments[..|segments| - 1]) + if segments[|segments| - 1].discontinuity then 1 else 0
  }

  // ------------------------------------------------------------ stall backfill

  const NS_PER_MS := 1_000_000

  /** The cadence copies are due at: the newest segment's duration, or the target
      duration when that segment has none. */
  function Interval(durationMs: int, targetSeconds: nat): (r: nat)
    ensures r > 0
  {
    if durationMs <= 0 then 1000 * (if targetSeconds < 1 then 1 else targetSeconds) else durationMs
  }

  lemma DurationWithinInterval(durationMs: int, targetSeconds: nat)
    ensures durationMs <= Interval(durationMs, targetSeconds)
  {
  }

  function InitialGrace(interval: nat, fallbackActive: bool): nat {
    if fallbackActive then 0 else if interval / 4 < 500 then interval / 4 else 500
  }

  /** How many copies a poll appends when `elapsedNs` have passed since the newest
      segment was added. */
  function BackfillCount(elapsedNs: int, interval: nat, fallbackActive: bool, maxBackfill: nat): nat
    requires interval > 0
  {
    var cadence := interval + InitialGrace(interval, fallbackActive);
    if elapsedNs < cadence * NS_PER_MS then 0
    else
      var missed := elapsedNs / NS_PER_MS / cadence;
      var atLeastOne := if missed < 1 then 1 else missed;
      if atLeastOne < maxBackfill then atLeastOne else maxBackfill
  }

  /** `n` is how often the cadence has gone by in full, as far as `most` allows. */
  predicate WholeCadences(n: nat, cadenceMs: nat, elapsedNs: int, most: nat) {
    && n <= most && n * cadenceMs * NS_PER_MS <= elapsedNs
    && (n < most ==> elapsedNs < (n + 1) * cadenceMs * NS_PER_MS)
  }

  /** The interval is the newest segment's own duration, or the target duration, of a second at
      least, when it has none. A stall is declared a quarter of it late, half a second at most;
      while one lasts, at once. */
  predicate IsCadence(interval: nat, grace: nat, durationMs: int, targetSeconds: nat, fallbackActive: bool) {
    && (durationMs > 0 ==> interval == durationMs)
    && (durationMs <= 0 ==>
          interval >= 1000 && (interval == 1000 * targetSeconds || (targetSeconds == 0 && interval == 1000)))
    && (fallbackActive ==> grace == 0)
    && (!fallbackActive ==> grace <= 500 && 4 * grace <= interval && (grace == 500 || interval < 4 * (grace + 1)))
  }

  /** A poll owes exactly one copy for every full cadence that has gone by, up to the retention:
      none too many and none too few. */
  lemma BackfillIsExact(elapsedNs: int, durationMs: int, targetSeconds: nat, fallbackActive: bool, maxBackfill: nat)
    requires 0 <= elapsedNs
    ensures var interval := Interval(durationMs, targetSeconds);
            var grace := InitialGrace(interval, fallbackActive);
            && IsCadence(interval, grace, durationMs, targetSeconds, fallbackActive)
            && WholeCadences(BackfillCount(elapsedNs, interval, fallbackActive, maxBackfill), interval + grace,
                             elapsedNs, maxBackfill)
  {
    var interval := Interval(durationMs, targetSeconds);
    var cadence := interval + InitialGrace(interval, fallbackActive);
    var n := BackfillCount(elapsedNs, interval, fallbackActive, maxBackfill);
    if elapsedNs < cadence * NS_PER_MS {
      assert n == 0;
    } else {
      var ms := elapsedNs / NS_PER_MS;
      var missed := ms / cadence;
      assert ms >= cadence;
      QuotientTimesDivisor(ms, cadence);
      TimesMonotone(n, missed, cadence, cadence);
      if n < maxBackfill {
        assert n == missed;
        WithinNextMultiple(ms, cadence);
      }
    }
  }

  lemma WithinNextMultiple(a: nat, d: nat)
    requires d > 0
    ensures a < (a / d + 1) * d
  {
  }

  /** Backfill never runs ahead of the clock, and nothing is due at the instant a segment was
      added. */
  lemma BackfillIsBounded(elapsedNs: int, interval: nat, grace: nat, n: nat, maxBackfill: nat)
    requires WholeCadences(n, interval + grace, elapsedNs, maxBackfill) && 0 < interval
    ensures Affordable(n, interval, elapsedNs)
    ensures n == 0 <==> maxBackfill == 0 || elapsedNs < (interval + grace) * NS_PER_MS
    ensures elapsedNs == 0 ==> n == 0
  {
    TimesMonotone(n, n, interval, interval + grace);
    if n > 0 {
      TimesMonotone(1, n, interval + grace, interval + grace);
    }
  }

  /** The time since the newest segment covers this many copies. */
  predicate Affordable(count: nat, interval: nat, elapsedNs: int) {
    count * interval * NS_PER_MS <= elapsedNs
  }

  /** Total duration of some copies. */
  function CopiesMs(count: nat, durationMs: int): int {
    count * durationMs
  }

  lemma OneMoreCopy(count: nat, durationMs: int)
    ensures CopiesMs(count + 1, durationMs) == CopiesMs(count, durationMs) + durationMs
    ensures CopiesMs(0, durationMs) == 0
  {
  }

  /** Adding some of the copies that are due keeps their total within the time passed
      since the producer's last segment. */
  lemma BackfillFits(beforeMs: int, lastAt: int, realAt: int, now: int, stamp: int, durationMs: int,
                     interval: nat, n: nat, i: nat)
    requires beforeMs * NS_PER_MS <= lastAt - realAt
    requires durationMs <= interval && 0 < i <= n && Affordable(n, interval, now - lastAt) && now <= stamp
    ensures (beforeMs + CopiesMs(i, durationMs)) * NS_PER_MS <= stamp - realAt
  {
    if durationMs > 0 {
      TimesMonotone(i, n, durationMs, interval);
    } else {
      assert i * durationMs <= 0;
    }
  }

  lemma QuotientTimesDivisor(a: nat, d: nat)
    requires d > 0
    ensures (a / d) * d <= a
    ensures a >= d ==> a / d >= 1
  {
  }

  lemma TimesMonotone(a: nat, b: nat, c: nat, d: nat)
    requires a <= b && c <= d
    ensures a * c <= b * d
  {
    assert a * c <= b * c;
    assert b * c <= b * d;
  }
}
