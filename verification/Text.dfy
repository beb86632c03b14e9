/** Searching and splitting text, shared by the playlist reader and the HTTP code. */
module Text {
  import opened Prelude

  /** Position of the first `c`, or the length when there is none. */
  function IndexOf(s: string, c: char): (i: nat)
    ensures i <= |s|
    ensures c !in s[..i]
    ensures i < |s| ==> s[i] == c
  {
    if s == [] || s[0] == c then 0 else
      var i := 1 + IndexOf(s[1..], c);
      assert s[..i] == [s[0]] + s[1..][..i - 1];
      i
  }

  lemma {:induction false} IndexOfFirst(before: string, c: char, after: string)
    requires c !in before
    ensures IndexOf(before + [c] + after, c) == |before|
  {
    var s := before + [c] + after;
    if before != [] {
      assert s[1..] == before[1..] + [c] + after;
      IndexOfFirst(before[1..], c, after);
    }
  }

  lemma {:induction false} IndexOfNone(s: string, c: char)
    requires c !in s
    ensures IndexOf(s, c) == |s|
  {
    if s != [] {
      IndexOfNone(s[1..], c);
    }
  }

  /** The pieces of a text whose separator ends a piece: a trailing separator opens no
      further piece, a leading one closes an empty piece. */
  function Split(s: string, separator: char): seq<string> {
    if s == [] then []
    else
      var i := IndexOf(s, separator);
      if i == |s| then [s] else [s[..i]] + Split(s[i + 1..], separator)
  }

  lemma SplitFirst(piece: string, separator: char, rest: string)
    requires separator !in piece
    ensures Split(piece + [separator] + rest, separator) == [piece] + Split(rest, separator)
  {
    var s := piece + [separator] + rest;
    IndexOfFirst(piece, separator, rest);
    assert s[..|piece|] == piece;
    assert s[|piece| + 1..] == rest;
  }

  lemma SplitLast(piece: string, separator: char)
    requires separator !in piece
    ensures Split(piece, separator) == if piece == [] then [] else [piece]
  {
    IndexOfNone(piece, separator);
  }

  /** Every piece followed by a separator. */
  function Terminated(pieces: seq<string>, separator: char): string {
    if pieces == [] then [] else Terminated(pieces[..|pieces| - 1], separator) + pieces[|pieces| - 1] + [separator]
  }

  lemma TerminatedSnoc(pieces: seq<string>, piece: string, separator: char)
    ensures Terminated(pieces + [piece], separator) == Terminated(pieces, separator) + piece + [separator]
  {
    assert (pieces + [piece])[..|pieces|] == pieces;
  }

  lemma {:induction false} TerminatedConcat(a: seq<string>, b: seq<string>, separator: char)
    ensures Terminated(a + b, separator) == Terminated(a, separator) + Terminated(b, separator)
  {
    if b == [] {
      assert a + b == a;
    } else {
      assert (a + b)[..|a + b| - 1] == a + b[..|b| - 1];
      TerminatedConcat(a, b[..|b| - 1], separator);
    }
  }

  lemma {:induction false} TerminatedCons(piece: string, pieces: seq<string>, separator: char)
    ensures Terminated([piece] + pieces, separator) == piece + [separator] + Terminated(pieces, separator)
  {
    if pieces == [] {
      assert [piece] + pieces == [piece];
      assert [piece][..0] == [];
    } else {
      var last := |pieces| - 1;
      assert ([piece] + pieces)[..last + 1] == [piece] + pieces[..last];
      TerminatedCons(piece, pieces[..last], separator);
    }
  }

  lemma {:induction false} SplitTerminated(pieces: seq<string>, separator: char)
    requires forall i | 0 <= i < |pieces| :: separator !in pieces[i]
    ensures Split(Terminated(pieces, separator), separator) == pieces
  {
    if pieces != [] {
      assert pieces == [pieces[0]] + pieces[1..];
      TerminatedCons(pieces[0], pieces[1..], separator);
      SplitTerminated(pieces[1..], separator);
      SplitFirst(pieces[0], separator, Terminated(pieces[1..], separator));
    }
  }

  predicate StartsWith(s: string, prefix: string) {
    |prefix| <= |s| && s[..|prefix|] == prefix
  }

  /** `pattern` occurs in `s` at `i`. */
  predicate At(s: string, pattern: string, i: nat) {
    i + |pattern| <= |s| && s[i..i + |pattern|] == pattern
  }

  /** The first occurrence at or after `from`, as std::string::find reports it. */
  function FindFrom(s: string, pattern: string, from: nat): (r: Option<nat>)
    ensures r.Some? ==> from <= r.value && At(s, pattern, r.value)
    ensures r.Some? ==> forall i | from <= i < r.value :: !At(s, pattern, i)
    ensures r.None? ==> forall i | from <= i :: !At(s, pattern, i)
    decreases |s| - from
  {
    if from + |pattern| > |s| then None
    else if At(s, pattern, from) then Some(from)
    else FindFrom(s, pattern, from + 1)
  }

  function Find(s: string, pattern: string): (r: Option<nat>) {
    FindFrom(s, pattern, 0)
  }

  /** More text does not move the first occurrence. */
  lemma FindExtends(s: string, more: string, pattern: string)
    requires Find(s, pattern).Some?
    ensures Find(s + more, pattern) == Find(s, pattern)
  {
    var m := Find(s, pattern).value;
    forall i: nat | i <= m
      ensures At(s + more, pattern, i) == At(s, pattern, i)
    {
      if i + |pattern| <= |s| {
        assert (s + more)[i..i + |pattern|] == s[i..i + |pattern|];
      }
    }
  }

  /** A prefix without the pattern ends before the first occurrence does. */
  lemma FindInPrefix(s: string, n: nat, pattern: string)
    requires n <= |s| && Find(s[..n], pattern).None? && Find(s, pattern).Some?
    ensures n < Find(s, pattern).value + |pattern|
  {
    AtInPrefix(s, n, pattern, Find(s, pattern).value);
    assert !At(s[..n], pattern, Find(s, pattern).value);
  }

  lemma AtInPrefix(s: string, n: nat, pattern: string, i: nat)
    requires n <= |s|
    ensures At(s[..n], pattern, i) <==> i + |pattern| <= n && At(s, pattern, i)
  {
    if i + |pattern| <= n {
      assert s[..n][i..i + |pattern|] == s[i..i + |pattern|];
    }
  }
}
