/** Cluster placement (`cluster::NodeRegistry::locate`): staged preferences, the exact
    least-loaded set by cross-multiplication, round robin over ties. The node table is a
    hash map, so the order in which it is walked is arbitrary here. */
module NodeRegistry {
  import opened Prelude

  type u32 = n: int | 0 <= n < 0x1_0000_0000
  const U64 := 0x1_0000_0000_0000_0000

  datatype Role = Origin | Edge | Shield | Transcoder

  /** A row of the node table; `role` is None when its text names no role. */
  datatype Row = Row(
    id: string,
    role: Option<Role>,
    region: string,
    lastSeen: int,
    capacity: u32,
    active: u32,
    draining: bool
  )

  datatype Status = Status(
    id: string,
    role: Role,
    region: string,
    capacity: u32,
    active: u32,
    draining: bool,
    healthy: bool
  )

  // ----------------------------------------------------------- what placement means

  /** status_of_locked: a heartbeat from the future counts as fresh, and either the node or
      the control plane can order a drain. */
  function StatusOf(row: Row, forced: map<string, bool>, timeout: int, now: int): (s: Status)
    ensures s.healthy <==> now - row.lastSeen <= timeout && 0 <= timeout
    ensures s.draining <==> row.draining || (row.id in forced && forced[row.id])
    ensures s.id == row.id && s.region == row.region && s.capacity == row.capacity && s.active == row.active
    ensures s.role == match row.role case Some(role) => role case None => Edge
  {
    var silence := if now - row.lastSeen < 0 then 0 else now - row.lastSeen;
    Status(row.id, if row.role.Some? then row.role.value else Edge, row.region, row.capacity, row.active,
           row.draining || (row.id in forced && forced[row.id]), silence <= timeout)
  }

  /** May be handed to a viewer at all. */
  predicate Serves(s: Status) {
    && s.healthy && !s.draining && (s.role.Edge? || s.role.Origin?)
    && !(s.capacity != 0 && s.active >= s.capacity)
  }

  /** The row's node may be handed to a viewer: it was heard of within the timeout, nobody asked
      it to drain, it delivers to viewers, and it is not full, if it says what it can take. */
  predicate RowServes(row: Row, forced: map<string, bool>, timeout: int, now: int) {
    && 0 <= timeout && now <= row.lastSeen + timeout
    && !row.draining && !(row.id in forced && forced[row.id])
    && row.role !in {Some(Shield), Some(Transcoder)} && (row.capacity > 0 ==> row.active < row.capacity)
  }

  lemma ServesByRow(row: Row, forced: map<string, bool>, timeout: int, now: int)
    ensures Serves(StatusOf(row, forced, timeout, now)) <==> RowServes(row, forced, timeout, now)
  {
  }

  /** The status is that of a row in the table that may be handed out. */
  ghost predicate FromTable(s: Status, nodes: map<string, Row>, forced: map<string, bool>, timeout: int, now: int) {
    && s.id in nodes && RowServes(nodes[s.id], forced, timeout, now)
    && s.region == nodes[s.id].region && s.capacity == nodes[s.id].capacity && s.active == nodes[s.id].active
    && (nodes[s.id].role.Some? ==> s.role == nodes[s.id].role.value)
  }

  /** Somebody is eligible exactly when some row may be handed out, and is that row's node. */
  lemma EligibleByRow(nodes: map<string, Row>, forced: map<string, bool>, timeout: int, now: int)
    requires forall id | id in nodes :: nodes[id].id == id
    ensures Eligible(nodes, forced, timeout, now) == {} <==>
              forall id | id in nodes :: !RowServes(nodes[id], forced, timeout, now)
    ensures forall s | s in Eligible(nodes, forced, timeout, now) :: FromTable(s, nodes, forced, timeout, now)
  {
    hide RowServes, Serves;
    var eligible := Eligible(nodes, forced, timeout, now);
    forall id | id in nodes
      ensures Serves(StatusOf(nodes[id], forced, timeout, now)) <==> RowServes(nodes[id], forced, timeout, now)
      ensures RowServes(nodes[id], forced, timeout, now) ==> eligible != {}
    {
      ServesByRow(nodes[id], forced, timeout, now);
      if RowServes(nodes[id], forced, timeout, now) {
        assert StatusOf(nodes[id], forced, timeout, now) in eligible;
      }
    }
  }

  ghost function Eligible(nodes: map<string, Row>, forced: map<string, bool>, timeout: int, now: int): set<Status> {
    set id | id in nodes && Serves(StatusOf(nodes[id], forced, timeout, now)) ::
      StatusOf(nodes[id], forced, timeout, now)
  }

  ghost function InRegion(s: set<Status>, hint: string): set<Status> {
    if hint != "" && exists n :: n in s && n.region == hint then set n | n in s && n.region == hint else s
  }

  ghost function Edges(s: set<Status>): set<Status> {
    if exists n :: n in s && n.role.Edge? then set n | n in s && n.role.Edge? else s
  }

  ghost predicate AnySized(s: set<Status>) {
    exists n :: n in s && n.capacity != 0
  }

  ghost function Sized(s: set<Status>): set<Status> {
    if AnySized(s) then set n | n in s && n.capacity != 0 else s
  }

  /** At most as loaded: by exact ratio among sized nodes, else by viewers. */
  predicate AtMost(sized: bool, a: Status, b: Status) {
    if sized then a.active * b.capacity <= b.active * a.capacity else a.active <= b.active
  }

  /** The least loaded of a set of candidates. */
  ghost function Ties(s: set<Status>): set<Status> {
    set n | n in s && forall m | m in s :: AtMost(AnySized(s), n, m)
  }

  /** Who may be chosen: region before tier before capacity before load. */
  ghost function Choices(nodes: map<string, Row>, forced: map<string, bool>, timeout: int, now: int,
                         hint: string): set<Status>
  {
    Ties(Sized(Edges(InRegion(Eligible(nodes, forced, timeout, now), hint))))
  }

  // -------------------------------------------------------------------- the order

  /** std::string's order. */
  predicate Before(a: string, b: string) {
    if b == "" then false
    else if a == "" then true
    else if a[0] != b[0] then a[0] < b[0]
    else Before(a[1..], b[1..])
  }

  /** A proper prefix of the other, or smaller at the first character in which they differ. */
  ghost predicate Lexicographic(a: string, b: string, k: nat) {
    && k <= |a| && k < |b| && a[..k] == b[..k] && (k == |a| || a[k] < b[k])
  }

  lemma {:induction false} BeforeIsLexicographic(a: string, b: string)
    ensures Before(a, b) <==> exists k: nat :: Lexicographic(a, b, k)
  {
    if a != "" && b != "" && a[0] == b[0] {
      BeforeIsLexicographic(a[1..], b[1..]);
      if Before(a, b) {
        var k: nat :| Lexicographic(a[1..], b[1..], k);
        assert a[..k + 1] == [a[0]] + a[1..][..k] && b[..k + 1] == [b[0]] + b[1..][..k];
        assert Lexicographic(a, b, k + 1);
      }
      forall k: nat | Lexicographic(a, b, k)
        ensures Lexicographic(a[1..], b[1..], k - 1)
      {
        assert a[1..][..k - 1] == a[..k][1..] && b[1..][..k - 1] == b[..k][1..];
      }
    } else if b != "" {
      if Before(a, b) {
        assert Lexicographic(a, b, 0);
      }
      forall k: nat | Lexicographic(a, b, k)
        ensures k == 0
      {
      }
    }
  }

  lemma {:induction false} BeforeTotal(a: string, b: string)
    ensures a != b ==> Before(a, b) || Before(b, a)
    ensures !(Before(a, b) && Before(b, a))
    ensures Before(a, b) ==> a != b
  {
    if a != "" && b != "" && a[0] == b[0] {
      BeforeTotal(a[1..], b[1..]);
      assert a == [a[0]] + a[1..] && b == [b[0]] + b[1..];
    }
  }

  lemma {:induction false} BeforeTransitive(a: string, b: string, c: string)
    requires Before(a, b) && Before(b, c)
    ensures Before(a, c)
  {
    if a != "" && a[0] == b[0] == c[0] {
      BeforeTransitive(a[1..], b[1..], c[1..]);
    }
  }

  predicate Ascending(list: seq<Status>) {
    forall i, j | 0 <= i < j < |list| :: Before(list[i].id, list[j].id)
  }

  ghost function ToSet(list: seq<Status>): set<Status> {
    set n | n in list
  }

  /** The list of a set of nodes in order of their names. */
  ghost predicate Lists(list: seq<Status>, s: set<Status>) {
    Ascending(list) && ToSet(list) == s
  }

  lemma SameFirst(a: seq<Status>, b: seq<Status>)
    requires a != [] && b != [] && Ascending(a) && Ascending(b) && ToSet(a) == ToSet(b)
    ensures a[0] == b[0]
  {
    assert a[0] in ToSet(a) && b[0] in ToSet(b);
    var i :| 0 <= i < |b| && b[i] == a[0];
    var j :| 0 <= j < |a| && a[j] == b[0];
    if i > 0 && j > 0 {
      BeforeTotal(b[0].id, b[i].id);
    }
  }

  /** A set of nodes has only one such list, so the order of the table cannot show. */
  lemma {:induction false} ListIsUnique(a: seq<Status>, b: seq<Status>, s: set<Status>)
    requires Lists(a, s) && Lists(b, s)
    ensures a == b
  {
    EmptyList(a);
    EmptyList(b);
    if a != [] {
      SameFirst(a, b);
      RestOf(a);
      RestOf(b);
      ListIsUnique(a[1..], b[1..], s - {a[0]});
      assert a == [a[0]] + a[1..] && b == [b[0]] + b[1..];
    }
  }

  lemma EmptyList(list: seq<Status>)
    ensures list == [] <==> ToSet(list) == {}
  {
    if list != [] {
      assert list[0] in ToSet(list);
    }
  }

  lemma RestOf(list: seq<Status>)
    requires list != [] && Ascending(list)
    ensures Ascending(list[1..]) && ToSet(list[1..]) == ToSet(list) - {list[0]}
  {
    forall n
      ensures n in ToSet(list[1..]) <==> n in ToSet(list) - {list[0]}
    {
      if n in list[1..] {
        var i :| 0 <= i < |list[1..]| && list[1..][i] == n;
        BeforeTotal(list[0].id, list[i + 1].id);
      }
    }
  }

  // ---------------------------------------------------------------- exact ratios

  /** The products compared are below 2^64. */
  lemma CrossProductFits(a: u32, b: u32)
    ensures 0 <= a * b < U64
  {
    Scaled(b, 0xFFFF_FFFF, a);
  }

  /** Among sized nodes the comparison is that of the exact ratios of viewers to capacity. */
  lemma AtMostIsRatio(a: Status, b: Status)
    requires a.capacity > 0 && b.capacity > 0
    ensures AtMost(true, a, b) <==> a.active as real / a.capacity as real <= b.active as real / b.capacity as real
  {
    RatioByCross(a.active as real, a.capacity as real, b.active as real, b.capacity as real);
    assert (a.active * b.capacity) as real == a.active as real * b.capacity as real;
    assert (b.active * a.capacity) as real == b.active as real * a.capacity as real;
  }

  lemma RatioByCross(a: real, c: real, b: real, d: real)
    requires c > 0.0 && d > 0.0
    ensures a / c <= b / d <==> a * d <= b * c
  {
    var x, y := a / c, b / d;
    assert a == x * c && b == y * d;
    assert a * d == x * (c * d) && b * c == y * (c * d);
    if x <= y {
      RealScaled(x, y, c * d);
    } else {
      RealScaledStrict(y, x, c * d);
    }
  }

  lemma RealScaled(x: real, y: real, k: real)
    requires x <= y && k > 0.0
    ensures x * k <= y * k
  {
  }

  lemma RealScaledStrict(x: real, y: real, k: real)
    requires x < y && k > 0.0
    ensures x * k < y * k
  {
  }

  lemma RatioTransitive(a: u32, c: u32, b: u32, d: u32, e: u32, f: u32)
    requires d > 0 && a * d <= b * c && b * f <= e * d
    ensures a * f <= e * c
  {
    calc <= {
      (a * f) * d;
    ==
      (a * d) * f;
    <= { Scaled(a * d, b * c, f); }
      (b * c) * f;
    ==
      (b * f) * c;
    <= { Scaled(b * f, e * d, c); }
      (e * d) * c;
    ==
      (e * c) * d;
    }
    if a * f > e * c {
      Scaled(e * c + 1, a * f, d);
    }
  }

  lemma Scaled(x: int, y: int, k: nat)
    requires x <= y
    ensures x * k <= y * k
  {
  }

  lemma AtMostTransitive(sized: bool, a: Status, b: Status, c: Status)
    requires sized ==> b.capacity > 0
    requires AtMost(sized, a, b) && AtMost(sized, b, c)
    ensures AtMost(sized, a, c)
  {
    if sized {
      RatioTransitive(a.active, a.capacity, b.active, b.capacity, c.active, c.capacity);
    }
  }

  // -------------------------------------------------------------------- the search

  predicate NoTwice(list: seq<Status>) {
    forall i, j | 0 <= i < j < |list| :: list[i].id != list[j].id
  }

  /** std::erase_if of the nodes that do not qualify. */
  method Keep(list: seq<Status>, qualifies: Status -> bool) returns (r: seq<Status>)
    requires NoTwice(list)
    ensures NoTwice(r) && ToSet(r) == set n | n in ToSet(list) && qualifies(n)
  {
    r := [];
    for i := 0 to |list|
      invariant NoTwice(r) && forall n :: n in r <==> n in list[..i] && qualifies(n)
    {
      assert list[..i + 1] == list[..i] + [list[i]];
      if qualifies(list[i]) {
        forall k | 0 <= k < |r|
          ensures r[k].id != list[i].id
        {
          assert r[k] in r;
          var j :| 0 <= j < i && list[j] == r[k];
        }
        r := r + [list[i]];
      }
    }
    assert list[..|list|] == list;
  }

  /** The part of the result the search for the least loaded has built so far. */
  ghost predicate LeastOf(sized: bool, seen: seq<Status>, least: seq<Status>) {
    && least != [] && NoTwice(least)
    && (forall n :: n in least <==> n in seen && forall m | m in seen :: AtMost(sized, n, m))
  }

  predicate Comparable(sized: bool, n: Status) {
    sized ==> n.capacity > 0
  }

  /** The new node is strictly less loaded than all before it. */
  lemma LeastAnew(sized: bool, seen: seq<Status>, least: seq<Status>, n: Status)
    requires LeastOf(sized, seen, least) && Comparable(sized, n) && forall m | m in seen :: Comparable(sized, m)
    requires !AtMost(sized, least[0], n)
    ensures LeastOf(sized, seen + [n], [n])
  {
    var front := least[0];
    assert front in least;
    forall m | m in seen
      ensures AtMost(sized, n, m) && !AtMost(sized, m, n)
    {
      AtMostTransitive(sized, n, front, m);
      if AtMost(sized, m, n) {
        AtMostTransitive(sized, front, m, n);
      }
    }
  }

  /** The new node ties with the least loaded, or is more loaded. */
  lemma LeastOn(sized: bool, seen: seq<Status>, least: seq<Status>, n: Status)
    requires LeastOf(sized, seen, least) && Comparable(sized, n) && forall m | m in seen :: Comparable(sized, m)
    requires AtMost(sized, least[0], n) && forall m | m in seen :: m.id != n.id
    ensures LeastOf(sized, seen + [n], if AtMost(sized, n, least[0]) then least + [n] else least)
  {
    var front := least[0];
    assert front in least;
    var ahead := AtMost(sized, n, front);
    forall x | x in least
      ensures AtMost(sized, x, n)
    {
      AtMostTransitive(sized, x, front, n);
    }
    if ahead {
      forall m | m in seen
        ensures AtMost(sized, n, m)
      {
        AtMostTransitive(sized, n, front, m);
      }
    }
    forall k | 0 <= k < |least|
      ensures least[k].id != n.id
    {
      assert least[k] in least;
    }
  }


  /** The loop that collects the least loaded nodes. */
  method LeastLoaded(sized: bool, eligible: seq<Status>) returns (least: seq<Status>)
    requires eligible != [] && NoTwice(eligible) && forall n | n in eligible :: Comparable(sized, n)
    ensures LeastOf(sized, eligible, least)
  {
    hide AtMost, LeastOf;
    least := [eligible[0]];
    LeastAtFirst(sized, eligible[0]);
    assert eligible[..1] == [eligible[0]];
    for i := 1 to |eligible|
      invariant LeastOf(sized, eligible[..i], least)
    {
      LeastIsThere(sized, eligible[..i], least);
      var candidate, current := eligible[i], least[0];
      assert eligible[..i + 1] == eligible[..i] + [candidate];
      var mine, theirs := candidate.active, current.active;
      if sized {
        CrossProductFits(candidate.active, current.capacity);
        CrossProductFits(current.active, candidate.capacity);
        mine, theirs := candidate.active * current.capacity, current.active * candidate.capacity;
      }
      Compared(sized, candidate, current);
      if mine < theirs {
        LeastAnew(sized, eligible[..i], least, candidate);
        least := [candidate];
      } else {
        LeastOn(sized, eligible[..i], least, candidate);
        if mine == theirs {
          least := least + [candidate];
        }
      }
    }
    assert eligible[..|eligible|] == eligible;
  }

  /** What the two products decide. */
  lemma Compared(sized: bool, a: Status, b: Status)
    ensures var mine := if sized then a.active * b.capacity else a.active;
            var theirs := if sized then b.active * a.capacity else b.active;
            (AtMost(sized, b, a) <==> mine >= theirs) && (AtMost(sized, a, b) <==> mine <= theirs)
  {
  }

  lemma LeastAtFirst(sized: bool, n: Status)
    ensures LeastOf(sized, [n], [n])
  {
  }

  lemma LeastIsThere(sized: bool, seen: seq<Status>, least: seq<Status>)
    requires LeastOf(sized, seen, least)
    ensures least != []
  {
  }

  /** std::ranges::sort by id. */
  method SortById(list: seq<Status>) returns (sorted: seq<Status>)
    requires NoTwice(list)
    ensures Lists(sorted, ToSet(list)) && |sorted| == |list|
  {
    hide Before;
    sorted := [];
    for i := 0 to |list|
      invariant |sorted| == i && Ascending(sorted) && forall n :: n in sorted <==> n in list[..i]
    {
      assert list[..i + 1] == list[..i] + [list[i]];
      forall n | n in sorted
        ensures n.id != list[i].id
      {
        var j :| 0 <= j < i && list[j] == n;
      }
      sorted := Insert(sorted, list[i]);
    }
    assert list[..|list|] == list;
  }

  method Insert(sorted: seq<Status>, n: Status) returns (r: seq<Status>)
    requires Ascending(sorted) && forall m | m in sorted :: m.id != n.id
    ensures Ascending(r) && |r| == |sorted| + 1 && forall m :: m in r <==> m in sorted || m == n
  {
    hide Before;
    var k := 0;
    while k < |sorted| && Before(sorted[k].id, n.id)
      invariant 0 <= k <= |sorted| && forall i | 0 <= i < k :: Before(sorted[i].id, n.id)
    {
      k := k + 1;
    }
    r := sorted[..k] + [n] + sorted[k..];
    forall i | k <= i < |sorted|
      ensures Before(n.id, sorted[i].id)
    {
      BeforeTotal(n.id, sorted[k].id);
      assert sorted[k] in sorted;
      if i > k {
        BeforeTransitive(n.id, sorted[k].id, sorted[i].id);
      }
    }
    assert sorted == sorted[..k] + sorted[k..];
  }

  // ------------------------------------------------------------------ round robin

  /** The node a call picks from the list of ties when the cursor stands at `cursor`. */
  function Pick(list: seq<Status>, cursor: nat): Status
    requires list != []
  {
    list[cursor % |list|]
  }

  /** The turn at which the list's `i`-th node comes up. */
  function TurnOf(k: nat, cursor: nat, i: nat): nat
    requires i < k
  {
    if cursor % k <= i then i - cursor % k else i + k - cursor % k
  }

  lemma TurnComes(k: nat, cursor: nat, i: nat)
    requires i < k
    ensures TurnOf(k, cursor, i) < k && (cursor + TurnOf(k, cursor, i)) % k == i
  {
    assert cursor == k * (cursor / k) + cursor % k;
    TurnFrom(k, cursor / k, cursor % k, i);
  }

  lemma TurnFrom(k: nat, q: nat, c: nat, i: nat)
    requires c < k && i < k
    ensures (k * q + c + if c <= i then i - c else i + k - c) % k == i
  {
    if c <= i {
      RemainderOf(k, q, i);
    } else {
      RemainderOf(k, q + 1, i);
      assert k * (q + 1) == k * q + k;
    }
  }

  lemma RemainderOf(k: nat, p: nat, i: nat)
    requires i < k
    ensures (k * p + i) % k == i
  {
    var n := k * p + i;
    Remainder(k, n / k, p, i, n);
  }

  lemma Remainder(k: nat, q: int, p: int, i: nat, n: int)
    requires i < k && n == k * p + i && q == n / k
    ensures n % k == i
  {
    assert n == k * q + n % k;
    assert k * (p - q) == n % k - i;
    if p > q {
      Scaled(1, p - q, k);
    } else if p < q {
      Scaled(1, q - p, k);
    }
  }

  /** What the call made `turn` calls later picks, the registry unchanged. */
  function Later(list: seq<Status>, cursor: nat, turn: nat): Status
    requires list != []
  {
    Pick(list, cursor + turn)
  }

  lemma SomeTurnPicks(list: seq<Status>, cursor: nat, n: Status)
    requires n in list
    ensures exists turn: nat :: turn < |list| && Later(list, cursor, turn) == n
  {
    hide Pick;
    var i :| 0 <= i < |list| && list[i] == n;
    TurnComes(|list|, cursor, i);
    var turn := TurnOf(|list|, cursor, i);
    PickAt(list, cursor + turn, i);
    assert Later(list, cursor, turn) == n;
  }

  lemma PickAt(list: seq<Status>, cursor: nat, i: nat)
    requires i < |list| && cursor % |list| == i
    ensures Pick(list, cursor) == list[i]
  {
  }

  /** As many consecutive turns as there are ties take every tied node, and none twice. */
  lemma RoundRobinPicksEachOnce(list: seq<Status>, cursor: nat, n: Status)
    requires Ascending(list) && n in list
    ensures exists turn: nat :: turn < |list| && Later(list, cursor, turn) == n
    ensures forall a: nat, b: nat | a < b < |list| :: Later(list, cursor, a) != Later(list, cursor, b)
  {
    hide Later, Before;
    SomeTurnPicks(list, cursor, n);
    forall a: nat, b: nat | a < b < |list|
      ensures Later(list, cursor, a) != Later(list, cursor, b)
    {
      TurnsPickDifferent(list, cursor, a, b);
    }
  }

  lemma TurnsPickDifferent(list: seq<Status>, cursor: nat, a: nat, b: nat)
    requires Ascending(list) && a < b < |list|
    ensures Later(list, cursor, a) != Later(list, cursor, b)
  {
    hide Before;
    TurnsDiffer(|list|, cursor + a, cursor + b);
    var x, y := (cursor + a) % |list|, (cursor + b) % |list|;
    BeforeTotal(list[x].id, list[y].id);
  }

  lemma TurnsDiffer(k: nat, a: nat, b: nat)
    requires a < b < a + k
    ensures a % k != b % k
  {
    assert a == k * (a / k) + a % k && b == k * (b / k) + b % k;
    NoMultiple(k, b - a, b / k - a / k);
    assert k * (b / k) - k * (a / k) == k * (b / k - a / k);
  }

  lemma NoMultiple(k: nat, d: nat, q: int)
    requires 0 < d < k
    ensures d != k * q
  {
    if q >= 1 {
      Scaled(1, q, k);
    } else {
      Scaled(q, 0, k);
    }
  }

  // --------------------------------------------------------------------- the class

  /** The three preference stages of locate, each an any_of and an erase_if. */
  method Preferred(eligible: seq<Status>, hint: string) returns (r: seq<Status>, sized: bool)
    requires NoTwice(eligible) && eligible != []
    ensures NoTwice(r) && r != [] && ToSet(r) == Sized(Edges(InRegion(ToSet(eligible), hint)))
    ensures sized == AnySized(ToSet(r)) && forall n | n in r :: Comparable(sized, n)
  {
    r := KeepIfAny(eligible, (n: Status) => n.region == hint, hint != "");
    assert ToSet(r) == InRegion(ToSet(eligible), hint);
    ghost var regional := r;
    r := KeepIfAny(r, (n: Status) => n.role.Edge?, true);
    assert ToSet(r) == Edges(ToSet(regional));
    ghost var edges := r;
    sized := exists i | 0 <= i < |r| :: r[i].capacity != 0;
    r := KeepIfAny(r, (n: Status) => n.capacity != 0, true);
    assert ToSet(r) == Sized(ToSet(edges));
    SizedStays(edges, r, sized);
  }

  lemma SizedStays(edges: seq<Status>, r: seq<Status>, sized: bool)
    requires ToSet(r) == Sized(ToSet(edges)) && r != []
    requires sized == exists i | 0 <= i < |edges| :: edges[i].capacity != 0
    ensures sized == AnySized(ToSet(r)) && forall n | n in r :: Comparable(sized, n)
  {
    assert r[0] in ToSet(r);
    if sized {
      var i :| 0 <= i < |edges| && edges[i].capacity != 0;
      assert edges[i] in ToSet(edges);
    }
    forall n | n in r
      ensures n in ToSet(r)
    {
    }
  }

  method KeepIfAny(list: seq<Status>, qualifies: Status -> bool, wanted: bool) returns (r: seq<Status>)
    requires NoTwice(list) && list != []
    ensures NoTwice(r) && r != []
    ensures ToSet(r) == if wanted && exists n :: n in ToSet(list) && qualifies(n)
                        then set n | n in ToSet(list) && qualifies(n) else ToSet(list)
  {
    r := list;
    if wanted && exists i | 0 <= i < |list| :: qualifies(list[i]) {
      ghost var i :| 0 <= i < |list| && qualifies(list[i]);
      r := Keep(list, qualifies);
      assert list[i] in ToSet(list);
      assert list[i] in ToSet(r);
    }
  }

  class Registry {
    const timeout: int                // heartbeat_timeout, in seconds
    var nodes: map<string, Row>
    var forcedDraining: map<string, bool>
    var cursor: nat                   // placement_cursor_

    ghost predicate Valid()
      reads this
    {
      cursor < U64 && forall id | id in nodes :: nodes[id].id == id
    }

    constructor (timeout: int)
      ensures Valid() && nodes == map[] && forcedDraining == map[] && cursor == 0
    {
      this.timeout := timeout;
      nodes, forcedDraining, cursor := map[], map[], 0;
    }

    /** The walk over the table, in whatever order it yields the nodes. */
    method CollectEligible(now: int) returns (eligible: seq<Status>)
      requires Valid()
      ensures NoTwice(eligible) && ToSet(eligible) == Eligible(nodes, forcedDraining, timeout, now)
    {
      hide StatusOf, Serves;
      eligible := [];
      var left := nodes.Keys;
      while left != {}
        invariant left <= nodes.Keys && NoTwice(eligible)
        invariant forall n :: n in eligible <==>
                    && n.id in nodes && n.id !in left
                    && n == StatusOf(nodes[n.id], forcedDraining, timeout, now) && Serves(n)
        decreases |left|
      {
        var id :| id in left;
        var candidate := StatusOf(nodes[id], forcedDraining, timeout, now);
        if Serves(candidate) {
          forall k | 0 <= k < |eligible|
            ensures eligible[k].id != id
          {
            assert eligible[k] in eligible;
          }
          eligible := eligible + [candidate];
        }
        left := left - {id};
      }
    }

    /** locate: nobody exactly when no node may serve; otherwise a node of the least
        loaded among the preferred, the one whose turn it is in the order of names. */
    method Locate(hint: string, now: int) returns (r: Option<Status>)
      requires Valid()
      modifies this`cursor
      ensures Valid()
      ensures r.None? <==> Eligible(nodes, forcedDraining, timeout, now) == {}
      ensures r.None? <==> forall id | id in nodes :: !RowServes(nodes[id], forcedDraining, timeout, now)
      ensures r.Some? ==> FromTable(r.value, nodes, forcedDraining, timeout, now)
      ensures r.None? ==> cursor == old(cursor)
      ensures r.Some? ==> cursor == (old(cursor) + 1) % U64 && Serves(r.value)
      ensures r.Some? ==> r.value in Choices(nodes, forcedDraining, timeout, now, hint)
      ensures r.Some? ==> exists list :: Lists(list, Choices(nodes, forcedDraining, timeout, now, hint))
      ensures r.Some? ==> forall list | Lists(list, Choices(nodes, forcedDraining, timeout, now, hint)) ::
                            list != [] && r.value == Pick(list, old(cursor))
    {
      hide Before, AtMost, StatusOf, Pick, Eligible, InRegion, Edges, Sized, RowServes, FromTable;
      EligibleByRow(nodes, forcedDraining, timeout, now);
      var eligible := CollectEligible(now);
      EmptyList(eligible);
      if eligible == [] {
        return None;
      }
      var preferred, sized := Preferred(eligible, hint);
      var least := LeastLoaded(sized, preferred);
      ghost var choices := Choices(nodes, forcedDraining, timeout, now, hint);
      LeastAreTies(sized, preferred, least);
      var list := SortById(least);
      var chosen := Pick(list, cursor);
      Chosen(list, cursor, choices);
      ChoiceServes(nodes, forcedDraining, timeout, now, hint, chosen);
      cursor := (cursor + 1) % U64;
      r := Some(chosen);
    }

    /** A burst of calls on an unchanged registry, as many as there are ties, the cursor not
        wrapping: every tied node is picked, and none twice. */
    method LocateBurst(hint: string, now: int, calls: nat, ghost list: seq<Status>) returns (picks: seq<Status>)
      requires Valid() && Lists(list, Choices(nodes, forcedDraining, timeout, now, hint))
      requires calls == |list| && list != [] && cursor + calls <= U64
      modifies this`cursor
      ensures Valid() && |picks| == calls
      ensures forall a, b | 0 <= a < b < calls :: picks[a] != picks[b]
      ensures ToSet(picks) == Choices(nodes, forcedDraining, timeout, now, hint)
    {
      hide Choices, Before, Pick, Eligible, ToSet, Ascending;
      ghost var choices := Choices(nodes, forcedDraining, timeout, now, hint);
      SomebodyServes(nodes, forcedDraining, timeout, now, hint, list);
      picks := [];
      for i := 0 to calls
        invariant Valid() && |picks| == i && (i < calls ==> cursor == old(cursor) + i)
        invariant forall k | 0 <= k < i :: picks[k] == Later(list, old(cursor), k)
      {
        var r := Locate(hint, now);
        picks := picks + [r.value];
      }
      BurstCovers(list, old(cursor), picks);
    }
  }

  lemma SomebodyServes(nodes: map<string, Row>, forced: map<string, bool>, timeout: int, now: int, hint: string,
                       list: seq<Status>)
    requires Lists(list, Choices(nodes, forced, timeout, now, hint)) && list != []
    ensures Eligible(nodes, forced, timeout, now) != {}
  {
    hide Choices, Eligible;
    assert list[0] in ToSet(list);
    ChoiceServes(nodes, forced, timeout, now, hint, list[0]);
  }

  lemma BurstCovers(list: seq<Status>, cursor: nat, picks: seq<Status>)
    requires Ascending(list) && |picks| == |list| > 0
    requires forall k | 0 <= k < |picks| :: picks[k] == Later(list, cursor, k)
    ensures forall a, b | 0 <= a < b < |picks| :: picks[a] != picks[b]
    ensures ToSet(picks) == ToSet(list)
  {
    hide Before, Ascending, Pick;
    forall a, b | 0 <= a < b < |picks|
      ensures picks[a] != picks[b]
    {
      TurnsPickDifferent(list, cursor, a, b);
    }
    forall n | n in list
      ensures n in picks
    {
      SomeTurnPicks(list, cursor, n);
      var turn: nat :| turn < |list| && Later(list, cursor, turn) == n;
      assert picks[turn] == n;
    }
    forall n | n in picks
      ensures n in list
    {
      var k :| 0 <= k < |picks| && picks[k] == n;
      PickIsListed(list, cursor + k);
    }
  }

  lemma PickIsListed(list: seq<Status>, cursor: nat)
    requires list != []
    ensures Pick(list, cursor) in list
  {
  }

  lemma LeastAreTies(sized: bool, preferred: seq<Status>, least: seq<Status>)
    requires LeastOf(sized, preferred, least) && sized == AnySized(ToSet(preferred))
    ensures ToSet(least) == Ties(ToSet(preferred)) && least != []
  {
    hide AtMost;
  }

  lemma Chosen(list: seq<Status>, cursor: nat, choices: set<Status>)
    requires list != [] && Lists(list, choices)
    ensures Pick(list, cursor) in choices
    ensures forall other | Lists(other, choices) :: other != [] && Pick(other, cursor) == Pick(list, cursor)
  {
    forall other | Lists(other, choices)
      ensures other == list
    {
      ListIsUnique(other, list, choices);
    }
    assert list[cursor % |list|] in ToSet(list);
  }

  /** Every possible choice may serve, and no preference is passed over: a choice lies in the
      asked region if any serving node does, is an edge if any left is, has a declared
      capacity if any left has, and is no more loaded than any left. */
  lemma ChoiceServes(nodes: map<string, Row>, forced: map<string, bool>, timeout: int, now: int, hint: string,
                     n: Status)
    requires n in Choices(nodes, forced, timeout, now, hint)
    ensures n in Eligible(nodes, forced, timeout, now) && Serves(n)
    ensures var regional := InRegion(Eligible(nodes, forced, timeout, now), hint);
            && (hint != "" && (exists m :: m in Eligible(nodes, forced, timeout, now) && m.region == hint) ==>
                  n.region == hint)
            && ((exists m :: m in regional && m.role.Edge?) ==> n.role.Edge?)
            && (AnySized(Edges(regional)) ==> n.capacity != 0)
            && (forall m | m in Sized(Edges(regional)) ::
                  if n.capacity != 0 then n.active * m.capacity <= m.active * n.capacity else n.active <= m.active)
  {
    hide StatusOf;
  }
}
