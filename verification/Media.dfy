/** Published media: partial segments, segments and their key descriptions
    (include/rtmp_server/hls/segment.hpp). Durations are in milliseconds. */
module Media {
  import opened Prelude
  import Decimal

  type byte = b: int | 0 <= b < 256

  datatype KeyInfo = KeyInfo(
    cipher: string,             // METHOD; empty or NONE means in the clear
    uri: string,
    ivHex: string,
    keyFormat: string,
    keyFormatVersions: string
  ) {
    predicate Encrypted() {
      cipher != "" && cipher != "NONE"
    }
  }

  datatype Part = Part(
    segmentSequence: nat,
    index: nat,
    name: string,
    data: seq<byte>,
    duration: nat,
    independent: bool
  )

  datatype Segment = Segment(
    sequence: nat,
    name: string,
    data: seq<byte>,
    duration: nat,
    discontinuity: bool,
    parts: seq<Part>,
    key: Option<KeyInfo>,
    iframePrefixBytes: nat
  )

  function SegmentName(prefix: string, sequence: nat, suffix: string): string {
    prefix + Decimal.Print(sequence) + suffix
  }

  function PartName(prefix: string, sequence: nat, index: nat, suffix: string): string {
    prefix + Decimal.Print(sequence) + "." + Decimal.Print(index) + suffix
  }

  lemma SegmentNameInjective(prefix: string, m: nat, n: nat, suffix: string)
    requires SegmentName(prefix, m, suffix) == SegmentName(prefix, n, suffix)
    ensures m == n
  {
    var a, b := SegmentName(prefix, m, suffix), SegmentName(prefix, n, suffix);
    assert a[|prefix|..|a| - |suffix|] == Decimal.Print(m);
    assert b[|prefix|..|b| - |suffix|] == Decimal.Print(n);
    Decimal.PrintInjective(m, n);
  }

  /** The digits before the first dot and the text after it can be told apart. */
  lemma DottedSplit(a: string, x: string, b: string, y: string)
    requires Decimal.AllDigits(a) && Decimal.AllDigits(b)
    requires a + "." + x == b + "." + y
    ensures a == b && x == y
  {
    assert a + "." + x == a + ("." + x) && b + "." + y == b + ("." + y);
    Decimal.DigitRunStops(a, "." + x);
    Decimal.DigitRunStops(b, "." + y);
    assert (a + "." + x)[..|a|] == a && (b + "." + y)[..|b|] == b;
    assert (a + "." + x)[|a| + 1..] == x && (b + "." + y)[|b| + 1..] == y;
  }

  lemma PartNameInjective(prefix: string, m: nat, i: nat, n: nat, j: nat, suffix: string)
    requires PartName(prefix, m, i, suffix) == PartName(prefix, n, j, suffix)
    ensures m == n && i == j
  {
    var a, b := PartName(prefix, m, i, suffix), PartName(prefix, n, j, suffix);
    assert a[|prefix|..|a| - |suffix|] == Decimal.Print(m) + "." + Decimal.Print(i);
    assert b[|prefix|..|b| - |suffix|] == Decimal.Print(n) + "." + Decimal.Print(j);
    DottedSplit(Decimal.Print(m), Decimal.Print(i), Decimal.Print(n), Decimal.Print(j));
    Decimal.PrintInjective(m, n);
    Decimal.PrintInjective(i, j);
  }

  /** A part never takes the name of a segment: only one of them has a dot between
      the digits and the suffix. */
  lemma PartIsNoSegmentName(prefix: string, m: nat, i: nat, n: nat, suffix: string)
    ensures PartName(prefix, m, i, suffix) != SegmentName(prefix, n, suffix)
  {
    var digits, rest := Decimal.Print(m), "." + Decimal.Print(i);
    var a, b := PartName(prefix, m, i, suffix), SegmentName(prefix, n, suffix);
    assert a[|prefix|..|a| - |suffix|] == digits + rest;
    assert b[|prefix|..|b| - |suffix|] == Decimal.Print(n) + [];
    Decimal.DigitRunStops(digits, rest);
    Decimal.DigitRunStops(Decimal.Print(n), []);
  }
}
