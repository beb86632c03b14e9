/** From Annex B byte streams to AVCC samples (`split_nals` and the sample construction of
    `RenditionFeed::push_video`). */
module AnnexB {
  import opened Media

  // ------------------------------------------------------------------- splitting

  /** Length of the start code at `p`: 3, 4, or 0 when there is none. */
  function CodeLength(s: seq<byte>, p: nat): (n: nat)
    ensures n == 0 || (n == 3 && p + 3 <= |s|) || (n == 4 && p + 4 <= |s|)
  {
    if p + 3 <= |s| && s[p] == 0 && s[p + 1] == 0 && s[p + 2] == 1 then 3
    else if p + 4 <= |s| && s[p] == 0 && s[p + 1] == 0 && s[p + 2] == 0 && s[p + 3] == 1 then 4
    else 0
  }

  /** The next start code at or after `p`, or the end. */
  function NextCode(s: seq<byte>, p: nat): (q: nat)
    requires p <= |s|
    ensures p <= q <= |s| && (q < |s| ==> CodeLength(s, q) > 0)
    decreases |s| - p
  {
    if p == |s| || CodeLength(s, p) > 0 then p else NextCode(s, p + 1)
  }

  /** The units from the start code at `i` on. */
  function UnitsFrom(s: seq<byte>, i: nat): seq<seq<byte>>
    requires i <= |s| && (i < |s| ==> CodeLength(s, i) > 0)
    decreases |s| - i
  {
    if i == |s| then []
    else
      var start := i + CodeLength(s, i);
      var next := NextCode(s, start);
      (if next > start then [s[start..next]] else []) + UnitsFrom(s, next)
  }

  function Units(s: seq<byte>): seq<seq<byte>> {
    UnitsFrom(s, NextCode(s, 0))
  }

  method FindCode(s: seq<byte>, from: nat) returns (p: nat)
    requires from <= |s|
    ensures p == NextCode(s, from)
  {
    p := from;
    while p < |s| && CodeLength(s, p) == 0
      invariant from <= p <= |s| && NextCode(s, p) == NextCode(s, from)
    {
      p := p + 1;
    }
  }

  /** split_nals: two moving positions over the buffer. */
  method SplitNals(s: seq<byte>) returns (nals: seq<seq<byte>>)
    ensures nals == Units(s)
  {
    hide CodeLength, NextCode, UnitsFrom;
    nals := [];
    var i := FindCode(s, 0);
    assert [] + Units(s) == Units(s);
    while i < |s|
      invariant i <= |s| && (i < |s| ==> CodeLength(s, i) > 0)
      invariant nals + UnitsFrom(s, i) == Units(s)
      decreases |s| - i
    {
      UnitsStep(s, i);
      var start := i + CodeLength(s, i);
      var next := FindCode(s, start);
      if next > start {
        assert nals + ([s[start..next]] + UnitsFrom(s, next)) == nals + [s[start..next]] + UnitsFrom(s, next);
        nals := nals + [s[start..next]];
      } else {
        assert [] + UnitsFrom(s, next) == UnitsFrom(s, next);
      }
      i := next;
    }
    NothingFrom(s);
    assert nals + [] == nals;
  }

  lemma UnitsStep(s: seq<byte>, i: nat)
    requires i < |s| && CodeLength(s, i) > 0
    ensures var start := i + CodeLength(s, i);
            start <= |s| &&
            var next := NextCode(s, start);
            UnitsFrom(s, i) == (if next > start then [s[start..next]] else []) + UnitsFrom(s, next)
  {
  }

  // --------------------------------------------------------------------- joining

  /** A unit and the start code in front of it. */
  datatype Framed = Framed(nal: seq<byte>, long: bool)

  function Code(long: bool): seq<byte> {
    if long then [0, 0, 0, 1] else [0, 0, 1]
  }

  function Joined(units: seq<Framed>): seq<byte> {
    if units == [] then [] else Code(units[0].long) + units[0].nal + Joined(units[1..])
  }

  function Nals(units: seq<Framed>): seq<seq<byte>> {
    seq(|units|, i requires 0 <= i < |units| => units[i].nal)
  }

  /** Not empty, and no start code inside. */
  predicate Sound(nal: seq<byte>) {
    nal != [] && forall p | 0 <= p < |nal| :: CodeLength(nal, p) == 0
  }

  predicate EndsInZero(nal: seq<byte>) {
    nal != [] && nal[|nal| - 1] == 0
  }

  /** The first unit ends in a zero that the next start code, being short, takes for its own. */
  predicate LosesZero(units: seq<Framed>) {
    |units| >= 2 && EndsInZero(units[0].nal) && !units[1].long
  }

  /** What can be made of the units again. */
  function Recovered(units: seq<Framed>): seq<seq<byte>> {
    if units == [] then [] else
      var nal := units[0].nal;
      var kept := if LosesZero(units) then nal[..|nal| - 1] else nal;
      (if kept != [] then [kept] else []) + Recovered(units[1..])
  }

  /** A start code that begins inside a unit and ends behind it: only the long one a zero and a
      short one make. */
  lemma NoCodeInside(a: seq<byte>, nal: seq<byte>, long: bool, more: seq<byte>, p: nat)
    requires Sound(nal) && |a| <= p < |a| + |nal|
    ensures CodeLength(a + nal + (Code(long) + more), p) ==
            if EndsInZero(nal) && !long && p == |a| + |nal| - 1 then 4 else 0
  {
    var s, k, e := a + nal + (Code(long) + more), p - |a|, |a| + |nal|;
    assert CodeLength(nal, k) == 0;
    assert forall j | p <= j < e :: s[j] == nal[j - |a|];
    assert s[e] == 0 && s[e + 1] == 0 && s[e + 2] == (if long then 0 else 1);
  }

  lemma NoCodeAtEnd(a: seq<byte>, nal: seq<byte>, p: nat)
    requires Sound(nal) && |a| <= p < |a| + |nal|
    ensures CodeLength(a + nal, p) == 0
  {
    var s := a + nal;
    assert CodeLength(nal, p - |a|) == 0;
    assert forall j | p <= j < |s| :: s[j] == nal[j - |a|];
  }

  /** Scanning on from inside a unit, to where the next start code is seen. */
  lemma {:induction false} NextCodeAfter(a: seq<byte>, nal: seq<byte>, long: bool, more: seq<byte>, p: nat)
    requires Sound(nal)
    requires var lost := if EndsInZero(nal) && !long then 1 else 0; |a| <= p <= |a| + |nal| - lost
    ensures NextCode(a + nal + (Code(long) + more), p) == |a| + |nal| - if EndsInZero(nal) && !long then 1 else 0
    decreases |a| + |nal| - p
  {
    hide CodeLength, Sound, EndsInZero;
    var lost := if EndsInZero(nal) && !long then 1 else 0;
    if p < |a| + |nal| - lost {
      NoCodeInside(a, nal, long, more, p);
      NextCodeAfter(a, nal, long, more, p + 1);
    } else if lost == 1 {
      NoCodeInside(a, nal, long, more, p);
    } else {
      CodeThere(a + nal, long, more);
      assert a + nal + (Code(long) + more) == (a + nal) + Code(long) + more;
    }
  }

  lemma {:induction false} NothingAfter(a: seq<byte>, nal: seq<byte>, p: nat)
    requires Sound(nal) && |a| <= p <= |a| + |nal|
    ensures NextCode(a + nal, p) == |a| + |nal|
    decreases |a| + |nal| - p
  {
    hide CodeLength, Sound;
    if p < |a| + |nal| {
      NoCodeAtEnd(a, nal, p);
      NothingAfter(a, nal, p + 1);
    }
  }

  lemma CodeThere(a: seq<byte>, long: bool, b: seq<byte>)
    ensures CodeLength(a + Code(long) + b, |a|) == |Code(long)|
  {
    var s := a + Code(long) + b;
    assert s[|a|..|a| + |Code(long)|] == Code(long);
    assert forall j | 0 <= j < |Code(long)| :: s[|a| + j] == Code(long)[j];
  }

  /** The last unit is read to the end. */
  lemma LastUnit(before: seq<byte>, long: bool, nal: seq<byte>)
    requires Sound(nal)
    ensures var s := before + Code(long) + nal;
            |before| < |s| && CodeLength(s, |before|) > 0 && UnitsFrom(s, |before|) == [nal]
  {
    hide CodeLength, NextCode, Sound;
    var a := before + Code(long);
    var s := a + nal;
    CodeThere(before, long, nal);
    NothingAfter(a, nal, |a|);
    UnitsStep(s, |before|);
    NothingFrom(s);
    assert s[|a|..|s|] == nal;
    SoundIsNotEmpty(nal);
  }

  lemma SoundIsNotEmpty(nal: seq<byte>)
    requires Sound(nal)
    ensures nal != []
  {
  }

  /** A unit before another start code: all of it, or all but a zero that code takes; and then
      whatever starts behind it. */
  lemma OneUnit(before: seq<byte>, long: bool, nal: seq<byte>, next: bool, more: seq<byte>)
    requires Sound(nal)
    ensures var s := before + Code(long) + nal + (Code(next) + more);
            var kept := if EndsInZero(nal) && !next then nal[..|nal| - 1] else nal;
            var end := |before| + |Code(long)| + |nal|;
            && |before| < end < |s| && CodeLength(s, |before|) > 0 && CodeLength(s, end) > 0
            && UnitsFrom(s, |before|) == (if kept != [] then [kept] else []) + UnitsFrom(s, end)
  {
    hide CodeLength, NextCode, Sound, UnitsFrom, EndsInZero;
    var a := before + Code(long);
    var s := a + nal + (Code(next) + more);
    var end := |a| + |nal|;
    CodesAround(before, long, nal, next, more);
    SoundIsNotEmpty(nal);
    NextCodeAfter(a, nal, next, more, |a|);
    UnitsStep(s, |before|);
    if EndsInZero(nal) && !next {
      NoCodeInside(a, nal, next, more, end - 1);
      SameFrom(s, end);
      Inside(a, nal, Code(next) + more, |nal| - 1);
    } else {
      Inside(a, nal, Code(next) + more, |nal|);
      assert nal[..|nal|] == nal;
    }
  }

  lemma CodesAround(before: seq<byte>, long: bool, nal: seq<byte>, next: bool, more: seq<byte>)
    ensures var s := before + Code(long) + nal + (Code(next) + more);
            && CodeLength(s, |before|) == |Code(long)|
            && CodeLength(s, |before| + |Code(long)| + |nal|) == |Code(next)|
  {
    hide CodeLength;
    var a := before + Code(long);
    var s := a + nal + (Code(next) + more);
    assert s == before + Code(long) + (nal + (Code(next) + more));
    CodeThere(before, long, nal + (Code(next) + more));
    assert s == (a + nal) + Code(next) + more;
    CodeThere(a + nal, next, more);
  }

  lemma Inside(a: seq<byte>, nal: seq<byte>, b: seq<byte>, n: nat)
    requires n <= |nal|
    ensures (a + nal + b)[|a|..|a| + n] == nal[..n]
  {
  }

  /** A long start code read in place of the short one behind its first zero ends with it. */
  lemma SameFrom(s: seq<byte>, end: nat)
    requires 0 < end < |s| && CodeLength(s, end - 1) == 4 && CodeLength(s, end) == 3
    ensures UnitsFrom(s, end - 1) == UnitsFrom(s, end)
  {
    hide CodeLength, NextCode;
    UnitsStep(s, end - 1);
    UnitsStep(s, end);
  }

  /** Reading from the first start code of joined units. */
  lemma {:induction false} UnitsOfJoined(before: seq<byte>, units: seq<Framed>)
    requires forall i | 0 <= i < |units| :: Sound(units[i].nal)
    ensures var s := before + Joined(units);
            && (units != [] ==> |before| < |s| && CodeLength(s, |before|) > 0)
            && UnitsFrom(s, |before|) == Recovered(units)
    decreases |units|
  {
    hide CodeLength, Sound, UnitsFrom, EndsInZero, Joined, Code;
    var s := before + Joined(units);
    if units == [] {
      NothingJoined();
      assert s == before;
      NothingFrom(s);
    } else {
      var long, nal := units[0].long, units[0].nal;
      JoinedHead(before, units);
      SoundIsNotEmpty(nal);
      if |units| == 1 {
        LastUnit(before, long, nal);
        assert Recovered(units[1..]) == [];
      } else {
        UnitsOfJoined(before + Code(long) + nal, units[1..]);
        OneUnit(before, long, nal, units[1].long, units[1].nal + Joined(units[1..][1..]));
      }
    }
  }

  lemma NothingJoined()
    ensures Joined([]) == []
  {
  }

  lemma JoinedHead(before: seq<byte>, units: seq<Framed>)
    requires units != []
    ensures var a := before + Code(units[0].long) + units[0].nal;
            && before + Joined(units) == a + Joined(units[1..])
            && (|units| == 1 ==> before + Joined(units) == a)
            && (|units| > 1 ==> Joined(units[1..]) == Code(units[1].long) + (units[1].nal + Joined(units[1..][1..])))
  {
    hide Code, Joined;
    JoinedFirst(units);
    Grouped(before, Code(units[0].long), units[0].nal, Joined(units[1..]));
    if |units| == 1 {
      assert units[1..] == [];
      NothingJoined();
      var a := before + Code(units[0].long) + units[0].nal;
      assert a + [] == a;
    } else {
      JoinedFirst(units[1..]);
      Grouped([], Code(units[1].long), units[1].nal, Joined(units[1..][1..]));
    }
  }

  lemma JoinedFirst(units: seq<Framed>)
    requires units != []
    ensures Joined(units) == Code(units[0].long) + units[0].nal + Joined(units[1..])
  {
  }

  lemma Grouped(a: seq<byte>, b: seq<byte>, c: seq<byte>, d: seq<byte>)
    ensures a + (b + c + d) == a + b + c + d && b + c + d == b + (c + d)
  {
  }

  lemma NothingFrom(s: seq<byte>)
    ensures UnitsFrom(s, |s|) == []
  {
  }

  /** What split_nals makes of joined units, whatever zeros they end in. */
  lemma SplitOfJoin(units: seq<Framed>)
    requires forall i | 0 <= i < |units| :: Sound(units[i].nal)
    ensures Units(Joined(units)) == Recovered(units)
  {
    hide Sound, Recovered;
    UnitsOfJoined([], units);
    assert [] + Joined(units) == Joined(units);
  }

  /** No unit that ends in a zero is followed by a short start code. */
  predicate NoneLost(units: seq<Framed>) {
    forall i | 0 <= i < |units| - 1 :: !(EndsInZero(units[i].nal) && !units[i + 1].long)
  }

  function Total(nals: seq<seq<byte>>): nat {
    if nals == [] then 0 else |nals[0]| + Total(nals[1..])
  }

  lemma TotalOfCons(nal: seq<byte>, rest: seq<seq<byte>>)
    ensures Total((if nal != [] then [nal] else []) + rest) == |nal| + Total(rest)
  {
    if nal != [] {
      assert ([nal] + rest)[1..] == rest;
    } else {
      assert [] + rest == rest;
    }
  }

  lemma NalsOfCons(units: seq<Framed>)
    requires units != []
    ensures Nals(units) == [units[0].nal] + Nals(units[1..])
    ensures NoneLost(units) <==> !LosesZero(units) && NoneLost(units[1..])
  {
    hide EndsInZero;
    var rest := units[1..];
    if !LosesZero(units) && NoneLost(rest) {
      forall i | 0 <= i < |units| - 1
        ensures !(EndsInZero(units[i].nal) && !units[i + 1].long)
      {
        if i > 0 {
          assert units[i] == rest[i - 1] && units[i + 1] == rest[i - 1 + 1];
        }
      }
    }
    if NoneLost(units) {
      assert |units| >= 2 ==> !(EndsInZero(units[0].nal) && !units[0 + 1].long);
      forall i | 0 <= i < |rest| - 1
        ensures !(EndsInZero(rest[i].nal) && !rest[i + 1].long)
      {
        assert rest[i] == units[i + 1] && rest[i + 1] == units[i + 1 + 1];
      }
    }
  }

  /** All of it, or strictly less. */
  lemma {:induction false} RecoveredTotal(units: seq<Framed>)
    requires forall i | 0 <= i < |units| :: Sound(units[i].nal)
    ensures NoneLost(units) ==> Recovered(units) == Nals(units)
    ensures !NoneLost(units) ==> Total(Recovered(units)) < Total(Nals(units))
    ensures Total(Recovered(units)) <= Total(Nals(units))
  {
    hide NoneLost, Sound, Total, Nals;
    if units != [] {
      RecoveredTotal(units[1..]);
      NalsOfCons(units);
      SoundIsNotEmpty(units[0].nal);
      var nal := units[0].nal;
      var kept := if LosesZero(units) then nal[..|nal| - 1] else nal;
      TotalOfCons(kept, Recovered(units[1..]));
      TotalOfCons(nal, Nals(units[1..]));
    } else {
      NoUnitsAtAll();
    }
  }

  lemma NoUnitsAtAll()
    ensures Nals([]) == [] && NoneLost([]) && Total([]) == 0
  {
  }

  /** Splitting undoes joining, for any mix of 3- and 4-byte start codes and any non-empty units
      without a start code inside, if and only if no unit that ends in a zero is followed by a
      3-byte start code. */
  lemma SplitUndoesJoinExactly(units: seq<Framed>)
    requires forall i | 0 <= i < |units| :: Sound(units[i].nal)
    ensures Units(Joined(units)) == Nals(units) <==> NoneLost(units)
  {
    hide Sound, Recovered, NoneLost, Joined, Nals, Total;
    SplitOfJoin(units);
    RecoveredTotal(units);
  }

  /** Not empty, no start code inside, no zero at the end. */
  predicate Clean(nal: seq<byte>) {
    Sound(nal) && nal[|nal| - 1] != 0
  }

  /** In particular for units that end in no zero. */
  lemma SplitUndoesJoin(units: seq<Framed>)
    requires forall i | 0 <= i < |units| :: Clean(units[i].nal)
    ensures Units(Joined(units)) == Nals(units)
  {
    hide Joined, Nals, Units, CodeLength;
    SplitUndoesJoinExactly(units);
  }

  /** Why no zero may end a unit: before a short start code it is taken for the beginning
      of a long one. */
  lemma TrailingZeroIsLost(nal: seq<byte>, next: seq<byte>)
    requires Clean(nal) && Clean(next)
    ensures Units(Joined([Framed(nal + [0], false), Framed(next, false)])) == [nal, next]
  {
    hide Clean, Units;
    var lossy, other := [Framed(nal + [0], false), Framed(next, false)], [Framed(nal, false), Framed(next, true)];
    JoinedTwo(lossy);
    JoinedTwo(other);
    assert Joined(lossy) == Joined(other);
    SplitUndoesJoin(other);
  }

  lemma JoinedTwo(units: seq<Framed>)
    requires |units| == 2
    ensures Joined(units) == Code(units[0].long) + units[0].nal + (Code(units[1].long) + units[1].nal)
  {
    var last := units[1..];
    assert last[1..] == [] && Joined(last[1..]) == [];
    assert Joined(last) == Code(units[1].long) + units[1].nal + [] == Code(units[1].long) + units[1].nal;
  }

  // ------------------------------------------------------------------ AVCC samples

  const SPS := 7
  const PPS := 8
  const AUD := 9

  /** The unit goes into the sample; parameter sets and delimiters do not. */
  predicate Carried(nal: seq<byte>) {
    nal != [] && nal[0] % 32 != SPS && nal[0] % 32 != PPS && nal[0] % 32 != AUD
  }

  function CarriedOf(nals: seq<seq<byte>>): seq<seq<byte>> {
    if nals == [] then [] else
      CarriedOf(nals[..|nals| - 1]) + if Carried(nals[|nals| - 1]) then [nals[|nals| - 1]] else []
  }

  /** put_u32: the low 32 bits, most significant byte first. */
  function U32Bytes(n: nat): seq<byte> {
    [n / 0x100_0000 % 256, n / 0x1_0000 % 256, n / 0x100 % 256, n % 256]
  }

  function Sample(nals: seq<seq<byte>>): seq<byte> {
    if nals == [] then [] else Sample(nals[..|nals| - 1]) + U32Bytes(|nals[|nals| - 1]|) + nals[|nals| - 1]
  }

  function ToMs(ticks: int): int {
    if ticks < 0 then -(-ticks / 90) else ticks / 90
  }

  /** Frame type, packet type, and the composition time's low 24 bits. */
  function TagHeader(keyframe: bool, pts: int, dts: int): seq<byte> {
    var cts := ToMs(pts - dts) % 0x100_0000;
    [if keyframe then 0x17 else 0x27, 0x01, cts / 0x1_0000 % 256, cts / 0x100 % 256, cts % 256]
  }

  /** The sample construction of push_video; None when no slice was there to write. */
  method BuildSample(nals: seq<seq<byte>>, keyframe: bool, pts: int, dts: int) returns (body: seq<byte>, wrote: bool)
    ensures body == TagHeader(keyframe, pts, dts) + Sample(CarriedOf(nals))
    ensures wrote <==> CarriedOf(nals) != []
  {
    hide U32Bytes, TagHeader, Carried, CarriedOf, Sample;
    var header := TagHeader(keyframe, pts, dts);
    body, wrote := header, false;
    NoUnits();
    assert nals[..0] == [];
    for i := 0 to |nals|
      invariant body == header + Sample(CarriedOf(nals[..i]))
      invariant wrote <==> CarriedOf(nals[..i]) != []
    {
      CarriedStep(nals, i);
      if Carried(nals[i]) {
        OneMoreUnit(CarriedOf(nals[..i]), nals[i]);
        Regroup(header, Sample(CarriedOf(nals[..i])), U32Bytes(|nals[i]|), nals[i]);
        body := body + U32Bytes(|nals[i]|) + nals[i];
        wrote := true;
      }
    }
    assert nals[..|nals|] == nals;
  }

  lemma NoUnits()
    ensures CarriedOf([]) == [] && Sample([]) == []
  {
  }

  lemma Regroup(a: seq<byte>, b: seq<byte>, c: seq<byte>, d: seq<byte>)
    ensures a + (b + c + d) == a + b + c + d
  {
  }

  lemma CarriedStep(nals: seq<seq<byte>>, i: nat)
    requires i < |nals|
    ensures CarriedOf(nals[..i + 1]) ==
            if Carried(nals[i]) then CarriedOf(nals[..i]) + [nals[i]] else CarriedOf(nals[..i])
  {
    assert nals[..i + 1][..i] == nals[..i];
  }

  lemma OneMoreUnit(nals: seq<seq<byte>>, nal: seq<byte>)
    ensures Sample(nals + [nal]) == Sample(nals) + U32Bytes(|nal|) + nal
  {
    assert (nals + [nal])[..|nals|] == nals;
  }

  // --------------------------------------------------------------- reading it back

  function U32Value(b: seq<byte>): nat
    requires |b| >= 4
  {
    (b[0] as int) * 0x100_0000 + (b[1] as int) * 0x1_0000 + (b[2] as int) * 0x100 + b[3] as int
  }

  /** A reader of length-prefixed units; one that runs past the end reads nothing. */
  function ReadSample(b: seq<byte>): seq<seq<byte>>
    decreases |b|
  {
    if |b| < 4 || |b| - 4 < U32Value(b) then []
    else [b[4..4 + U32Value(b)]] + ReadSample(b[4 + U32Value(b)..])
  }

  lemma U32RoundTrip(n: nat, rest: seq<byte>)
    requires n < 0x1_0000_0000
    ensures U32Value(U32Bytes(n) + rest) == n
  {
    var b := U32Bytes(n) + rest;
    assert b[0] == n / 0x100_0000 && b[1] == n / 0x1_0000 % 256 && b[2] == n / 0x100 % 256 && b[3] == n % 256;
    assert n / 0x1_0000 == 256 * (n / 0x100_0000) + n / 0x1_0000 % 256;
    assert n / 0x100 == 256 * (n / 0x1_0000) + n / 0x100 % 256;
  }

  lemma ReadOne(nal: seq<byte>, rest: seq<byte>)
    requires |nal| < 0x1_0000_0000
    ensures ReadSample(U32Bytes(|nal|) + nal + rest) == [nal] + ReadSample(rest)
  {
    hide U32Value;
    var b := U32Bytes(|nal|) + (nal + rest);
    assert U32Bytes(|nal|) + nal + rest == b;
    U32RoundTrip(|nal|, nal + rest);
    assert b[4..4 + |nal|] == nal && b[4 + |nal|..] == rest;
  }

  lemma {:induction false} ReadsBackBefore(nals: seq<seq<byte>>, rest: seq<byte>)
    requires forall i | 0 <= i < |nals| :: |nals[i]| < 0x1_0000_0000
    ensures ReadSample(Sample(nals) + rest) == nals + ReadSample(rest)
    decreases |nals|
  {
    hide ReadSample, U32Bytes;
    if nals == [] {
      assert Sample(nals) + rest == rest;
    } else {
      var before, nal := nals[..|nals| - 1], nals[|nals| - 1];
      ReadOne(nal, rest);
      ReadsBackBefore(before, U32Bytes(|nal|) + nal + rest);
      assert Sample(nals) + rest == Sample(before) + (U32Bytes(|nal|) + nal + rest);
      assert nals == before + [nal];
    }
  }

  /** Reading the lengths back gives the units that were written. */
  lemma SampleReadsBack(nals: seq<seq<byte>>)
    requires forall i | 0 <= i < |nals| :: |nals[i]| < 0x1_0000_0000
    ensures ReadSample(Sample(nals)) == nals
  {
    ReadsBackBefore(nals, []);
    assert Sample(nals) + [] == Sample(nals) && ReadSample([]) == [] && nals + [] == nals;
  }

  lemma {:induction false} CarriedFit(nals: seq<seq<byte>>)
    requires forall i | 0 <= i < |nals| :: |nals[i]| < 0x1_0000_0000
    ensures forall i | 0 <= i < |CarriedOf(nals)| :: |CarriedOf(nals)[i]| < 0x1_0000_0000
  {
    if nals != [] {
      CarriedFit(nals[..|nals| - 1]);
    }
  }

  /** From an access unit to its sample and back: the slices, in order, and nothing else. */
  lemma StreamToSampleAndBack(units: seq<Framed>, keyframe: bool, pts: int, dts: int)
    requires NoneLost(units) && forall i | 0 <= i < |units| :: Sound(units[i].nal) && |units[i].nal| < 0x1_0000_0000
    ensures var body := TagHeader(keyframe, pts, dts) + Sample(CarriedOf(Units(Joined(units))));
            |TagHeader(keyframe, pts, dts)| == 5 && ReadSample(body[5..]) == CarriedOf(Nals(units))
  {
    hide Sound, NoneLost, Joined, Units;
    SplitUndoesJoinExactly(units);
    CarriedFit(Nals(units));
    SampleReadsBack(CarriedOf(Nals(units)));
    var body := TagHeader(keyframe, pts, dts) + Sample(CarriedOf(Nals(units)));
    assert body[5..] == Sample(CarriedOf(Nals(units)));
  }
}
