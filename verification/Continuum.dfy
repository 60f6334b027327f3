/**
 The consistent-hash ring (internal/upstream/chash.go).

 The point hash is a parameter `h`; nothing is assumed about it, not even that
 points do not collide.
 */
module Continuum {
  import opened Wrappers
  import opened Ordering
  import opened Apportion
  import opened Wrr

  const POINTS_PER_WEIGHT: nat := 64
  const MAX_POINTS: nat := 65536

  datatype Point = Point(hash: nat, identity: string, virtualIndex: nat, endpointIndex: nat)

  datatype Ring = DirectRing(ordinal: nat) | Points(hashes: seq<nat>, indexes: seq<nat>)

  // ----- how many points an endpoint gets

  ghost function PointCount(e: Entry, es: seq<Entry>): nat
    requires Capped(es, MAX_POINTS)
  {
    LeftoverInRange(es, MAX_POINTS);
    if Total(es) * POINTS_PER_WEIGHT <= MAX_POINTS then e.weight * POINTS_PER_WEIGHT else Share(e, es, MAX_POINTS)
  }

  lemma PointCountPositive(e: Entry, es: seq<Entry>)
    requires Capped(es, MAX_POINTS) && e in es
    ensures PointCount(e, es) >= 1
  {
  }

  /** The size of the ring: 64 points per unit of weight, or the cap. */
  ghost function RingSize(es: seq<Entry>): nat
    requires Capped(es, MAX_POINTS)
  {
    if Total(es) * POINTS_PER_WEIGHT <= MAX_POINTS then Total(es) * POINTS_PER_WEIGHT else MAX_POINTS
  }

  /** The points fill the ring exactly and leave nobody out. */
  lemma {:induction false} PointsFill(es: seq<Entry>, count: Entry -> int)
    requires Capped(es, MAX_POINTS) && forall e | e in es :: count(e) == PointCount(e, es)
    ensures SumBy(es, count) == RingSize(es)
    ensures forall e | e in es :: count(e) >= 1
  {
    LeftoverInRange(es, MAX_POINTS);
    if Total(es) * POINTS_PER_WEIGHT <= MAX_POINTS {
      var weight, scaled := (e: Entry) => e.weight, (e: Entry) => e.weight * POINTS_PER_WEIGHT;
      SumScaled(es, weight, POINTS_PER_WEIGHT, scaled);
      SumEqual(es, count, scaled);
    } else {
      SharesSumToCap(es, MAX_POINTS, count);
    }
  }

  method AssignPoints(es: seq<Entry>) returns (slots: seq<Slot>)
    requires Capped(es, MAX_POINTS)
    ensures |slots| == |es|
    ensures forall i | 0 <= i < |es| :: slots[i].entry == es[i] && slots[i].quota == PointCount(es[i], es) >= 1
  {
    var total := 0;
    for i := 0 to |es|
      invariant total == Total(es[..i])
    {
      total := total + es[i].weight;
      assert es[..i + 1][..i] == es[..i];
    }
    assert es[..|es|] == es;
    if total * POINTS_PER_WEIGHT <= MAX_POINTS {
      return seq(|es|, i requires 0 <= i < |es| => Slot(es[i], es[i].weight * POINTS_PER_WEIGHT, 0, 0));
    }
    var active := new Slot[|es|](i requires 0 <= i < |es| => Slot(es[i], 0, 0, 0));
    assert EntriesOf(active[..]) == es;
    AssignCapped(active, total, MAX_POINTS);
    slots := active[..];
    forall i | 0 <= i < |es| ensures slots[i].entry == es[i] { assert EntriesOf(slots)[i] == es[i]; }
  }

  // ----- the points of a ring

  predicate PointLess(p: Point, q: Point) {
    if p.hash != q.hash then p.hash < q.hash
    else if p.identity != q.identity then LexLess(p.identity, q.identity)
    else p.virtualIndex < q.virtualIndex
  }

  /** The points of one endpoint. */
  function PointsOf(e: Entry, n: nat, h: (string, nat) -> nat): (ps: seq<Point>)
    ensures |ps| == n
    ensures forall v | 0 <= v < n :: ps[v] == Point(h(e.identity, v), e.identity, v, e.index)
  {
    seq(n, v requires 0 <= v < n => Point(h(e.identity, v), e.identity, v, e.index))
  }

  /** The points of the first `k` endpoints, in declaration order. */
  ghost function AllPoints(es: seq<Entry>, k: nat, h: (string, nat) -> nat): seq<Point>
    requires Capped(es, MAX_POINTS) && k <= |es|
  {
    if k == 0 then [] else AllPoints(es, k - 1, h) + PointsOf(es[k - 1], PointCount(es[k - 1], es), h)
  }

  /** The ring: all points, sorted. */
  ghost function RingOf(es: seq<Entry>, h: (string, nat) -> nat): seq<Point>
    requires Capped(es, MAX_POINTS)
  {
    Sort(AllPoints(es, |es|, h), PointLess)
  }

  ghost predicate Built(r: Ring, ps: seq<Point>) {
    && r.Points? && |r.hashes| == |r.indexes| == |ps|
    && forall i | 0 <= i < |ps| :: r.hashes[i] == ps[i].hash && r.indexes[i] == ps[i].endpointIndex
  }

  /** What compiling `endpoints` yields: the one active endpoint, or the ring of all of them. */
  ghost predicate IsRingFor(r: Ring, endpoints: seq<WeightedEndpoint>, h: (string, nat) -> nat) {
    var es := Active(endpoints, |endpoints|);
    && 1 <= |es| <= MAX_POINTS
    && if |es| == 1 then r == DirectRing(es[0].index)
       else GcdOf(Weights(es)) > 0 && Capped(Normalized(es), MAX_POINTS) && Built(r, RingOf(Normalized(es), h))
  }

  method CompileContinuum(endpoints: seq<WeightedEndpoint>, h: (string, nat) -> nat)
    returns (r: Result<Ring, CompileError>)
    ensures r == Err(NoActiveEndpoint) <==> Positive(endpoints) == {}
    ensures r == Err(TooManyEndpoints) <==> |Active(endpoints, |endpoints|)| > MAX_POINTS
    ensures r.Ok? ==> IsRingFor(r.value, endpoints, h)
  {
    var active := CollectActive(endpoints);
    NoneActive(endpoints);
    hide Active;
    if active == [] { return Err(NoActiveEndpoint); }
    if |active| == 1 { return Ok(DirectRing(active[0].index)); }
    if |active| > MAX_POINTS { return Err(TooManyEndpoints); }
    NormalizedFacts(active, MAX_POINTS);
    var es := NormalizeWeights(active);
    hide Capped, Normalized, GcdOf, RingOf, Built;
    var ring := BuildRing(es, h);
    r := Ok(ring);
  }

  method BuildRing(es: seq<Entry>, h: (string, nat) -> nat) returns (r: Ring)
    requires Capped(es, MAX_POINTS)
    ensures Built(r, RingOf(es, h))
  {
    hide RingOf;
    var points := PlacePoints(es, h);
    var hashes := seq(|points|, i requires 0 <= i < |points| => points[i].hash);
    var indexes := seq(|points|, i requires 0 <= i < |points| => points[i].endpointIndex);
    r := Points(hashes, indexes);
  }

  /** All points of all endpoints, sorted. */
  method PlacePoints(es: seq<Entry>, h: (string, nat) -> nat) returns (points: seq<Point>)
    requires Capped(es, MAX_POINTS)
    ensures points == RingOf(es, h)
  {
    hide PointCount;
    var slots := AssignPoints(es);
    points := [];
    for k := 0 to |slots|
      invariant points == AllPoints(es, k, h)
    {
      points := points + PointsOf(slots[k].entry, slots[k].quota, h);
    }
    points := Sort(points, PointLess);
  }

  // ----- the plain clockwise scan

  /** The first ring position whose hash is at least `sum`, or the ring's length. */
  ghost predicate IsSearch(hashes: seq<nat>, sum: nat, i: nat) {
    && i <= |hashes|
    && (forall j | 0 <= j < i :: hashes[j] < sum)
    && (forall j | i <= j < |hashes| :: hashes[j] >= sum)
  }

  ghost predicate Rising(hashes: seq<nat>) {
    forall i, j | 0 <= i < j < |hashes| :: hashes[i] <= hashes[j]
  }

  /** `sort.Search`. */
  method Search(hashes: seq<nat>, sum: nat) returns (i: nat)
    requires Rising(hashes)
    ensures IsSearch(hashes, sum, i)
  {
    i := 0;
    var j := |hashes|;
    while i < j
      invariant 0 <= i <= j <= |hashes|
      invariant forall k | 0 <= k < i :: hashes[k] < sum
      invariant forall k | j <= k < |hashes| :: hashes[k] >= sum
    {
      var m := i + (j - i) / 2;
      if hashes[m] >= sum { j := m; } else { i := m + 1; }
    }
  }

  function Clockwise(indexes: seq<nat>, start: nat, k: nat): nat
    requires indexes != []
  {
    indexes[(start + k) % |indexes|]
  }

  /** Walking clockwise from `start`, the first selectable ordinal. */
  ghost predicate IsClockwiseFirst(indexes: seq<nat>, start: nat, selectable: nat -> bool, ordinal: nat, ok: bool)
    requires indexes != []
  {
    if ok then
      exists k | 0 <= k < |indexes| ::
        && ordinal == Clockwise(indexes, start, k) && selectable(ordinal)
        && forall j | 0 <= j < k :: !selectable(Clockwise(indexes, start, j))
    else forall k | 0 <= k < |indexes| :: !selectable(Clockwise(indexes, start, k))
  }

  ghost predicate ValidRing(r: Ring, endpointCount: nat) {
    match r
    case DirectRing(_) => true
    case Points(hashes, indexes) =>
      |hashes| == |indexes| > 0 && Rising(hashes) && forall x | x in indexes :: x < endpointCount
  }

  /** The ring's answer for the key hash `sum`. */
  ghost predicate IsChoice(r: Ring, sum: nat, selectable: nat -> bool, ordinal: nat, ok: bool)
    requires r.Points? ==> |r.hashes| == |r.indexes| > 0
  {
    match r
    case DirectRing(x) => ordinal == x && ok == selectable(x)
    case Points(hashes, indexes) =>
      exists i: nat :: IsSearch(hashes, sum, i) &&
                  IsClockwiseFirst(indexes, if i == |hashes| then 0 else i, selectable, ordinal, ok)
  }

  function SeenSet(seen: seq<bool>): set<nat> {
    set x: nat | x < |seen| && seen[x]
  }

  function Range(n: nat): set<nat> {
    if n == 0 then {} else Range(n - 1) + {n - 1}
  }

  lemma {:induction false} RangeFacts(n: nat)
    ensures |Range(n)| == n && forall x: nat :: x in Range(n) <==> x < n
  {
    if n > 0 { RangeFacts(n - 1); }
  }

  lemma FullSet(n: nat, s: set<nat>)
    requires (forall x | x in s :: x < n) && |s| >= n
    ensures forall x: nat | x < n :: x in s
  {
    RangeFacts(n);
    SubsetSize(s, Range(n));
  }

  lemma {:induction false} SubsetSize(a: set<nat>, b: set<nat>)
    requires a <= b && |a| >= |b|
    ensures a == b
    decreases |a|
  {
    if a != {} {
      var x :| x in a;
      SubsetSize(a - {x}, b - {x});
      assert a == (a - {x}) + {x} && b == (b - {x}) + {x};
    }
  }

  /** `selectNext`: marks every ordinal it has refused and stops when all are marked. */
  method SelectNext(r: Ring, sum: nat, endpointCount: nat, selectable: nat -> bool) returns (ordinal: nat, ok: bool)
    requires ValidRing(r, endpointCount)
    ensures IsChoice(r, sum, selectable, ordinal, ok)
  {
    if r.DirectRing? { return r.ordinal, selectable(r.ordinal); }
    var n := |r.hashes|;
    var start := Search(r.hashes, sum);
    assert IsSearch(r.hashes, sum, start);
    if start == n { start := 0; }
    ordinal, ok := Walk(r.indexes, start, endpointCount, selectable);
  }

  method Walk(indexes: seq<nat>, start: nat, endpointCount: nat, selectable: nat -> bool)
    returns (ordinal: nat, ok: bool)
    requires start < |indexes| && forall x | x in indexes :: x < endpointCount
    ensures IsClockwiseFirst(indexes, start, selectable, ordinal, ok)
  {
    var n := |indexes|;
    var first := indexes[start];
    assert first in indexes;
    StartOfWalk(indexes, start);
    if selectable(first) { return first, true; }
    var seen := new bool[endpointCount](_ => false);
    seen[first] := true;
    var distinct := 1;
    assert SeenSet(seen[..]) == {first};
    hide SeenSet, Clockwise;
    var offset := 1;
    while offset < n && distinct < endpointCount
      invariant 1 <= offset <= n
      invariant forall k | 0 <= k < offset :: !selectable(Clockwise(indexes, start, k))
      invariant forall x: nat | x < endpointCount && seen[x] :: !selectable(x)
      invariant distinct == |SeenSet(seen[..])|
    {
      ordinal := Clockwise(indexes, start, offset);
      assert ordinal in indexes;
      offset := offset + 1;
      if seen[ordinal] { continue; }
      SeenMore(seen[..], ordinal);
      ghost var after := seen[..][ordinal := true];
      seen[ordinal] := true;
      assert seen[..] == after;
      distinct := distinct + 1;
      if selectable(ordinal) { return ordinal, true; }
    }
    if distinct >= endpointCount {
      FullSet(endpointCount, SeenSet(seen[..]));
      NothingLeft(indexes, start, endpointCount, seen[..], selectable);
    }
    return 0, false;
  }

  lemma SeenMore(seen: seq<bool>, x: nat)
    requires x < |seen| && !seen[x]
    ensures |SeenSet(seen[x := true])| == |SeenSet(seen)| + 1
  {
    assert SeenSet(seen[x := true]) == SeenSet(seen) + {x};
  }

  lemma StartOfWalk(indexes: seq<nat>, start: nat)
    requires start < |indexes|
    ensures Clockwise(indexes, start, 0) == indexes[start]
  {
    assert start % |indexes| == start;
  }

  lemma NothingLeft(indexes: seq<nat>, start: nat, endpointCount: nat, seen: seq<bool>, selectable: nat -> bool)
    requires start < |indexes| && |seen| == endpointCount && forall x | x in indexes :: x < endpointCount
    requires forall x: nat | x < endpointCount :: x in SeenSet(seen)
    requires forall x: nat | x < endpointCount && seen[x] :: !selectable(x)
    ensures forall k | 0 <= k < |indexes| :: !selectable(Clockwise(indexes, start, k))
  {
    forall k | 0 <= k < |indexes| ensures !selectable(Clockwise(indexes, start, k)) {
      var x := Clockwise(indexes, start, k);
      assert x in indexes;
      assert x in SeenSet(seen);
    }
  }

  // ----- completeness and consistency

  /** The ring fails only if none of the endpoints on it is selectable. */
  lemma ChoiceFromRing(r: Ring, sum: nat, selectable: nat -> bool, ordinal: nat, ok: bool)
    requires r.Points? && |r.hashes| == |r.indexes| > 0 && IsChoice(r, sum, selectable, ordinal, ok)
    ensures ok <==> exists x :: x in r.indexes && selectable(x)
    ensures ok ==> ordinal in r.indexes && selectable(ordinal)
  {
    var i: nat :| IsSearch(r.hashes, sum, i) &&
             IsClockwiseFirst(r.indexes, if i == |r.hashes| then 0 else i, selectable, ordinal, ok);
    var start, n := if i == |r.hashes| then 0 else i, |r.indexes|;
    forall x | x in r.indexes && selectable(x) ensures ok {
      var j :| 0 <= j < n && r.indexes[j] == x;
      var k := if start <= j then j - start else j + n - start;
      ModUnique(start + k, n, if start <= j then 0 else 1, j);
      assert Clockwise(r.indexes, start, k) == x;
    }
  }

  /** The choice is determined by the ring, the key and the selectable ordinals. */
  lemma ChoiceUnique(r: Ring, sum: nat, selectable: nat -> bool, a: nat, okA: bool, b: nat, okB: bool)
    requires r.Points? && |r.hashes| == |r.indexes| > 0
    requires IsChoice(r, sum, selectable, a, okA) && IsChoice(r, sum, selectable, b, okB)
    ensures okA == okB && (okA ==> a == b)
  {
    var i: nat :| IsSearch(r.hashes, sum, i) &&
             IsClockwiseFirst(r.indexes, if i == |r.hashes| then 0 else i, selectable, a, okA);
    var j: nat :| IsSearch(r.hashes, sum, j) &&
             IsClockwiseFirst(r.indexes, if j == |r.hashes| then 0 else j, selectable, b, okB);
    SearchUnique(r.hashes, sum, i, j);
    var start := if i == |r.hashes| then 0 else i;
    FirstAlike(r.indexes, selectable, a, okA, r.indexes, selectable, b, okB, start);
  }

  lemma SearchUnique(hashes: seq<nat>, sum: nat, i: nat, j: nat)
    requires IsSearch(hashes, sum, i) && IsSearch(hashes, sum, j)
    ensures i == j
  {
    var atI := if i < |hashes| then hashes[i] else sum;
    var atJ := if j < |hashes| then hashes[j] else sum;
  }

  /** Two walks over sequences that are selectable at the same places stop at the same place. */
  lemma FirstAlike(r: seq<nat>, f: nat -> bool, x: nat, okX: bool, q: seq<nat>, g: nat -> bool, y: nat, okY: bool,
                   start: nat)
    requires |r| == |q| > 0 && forall i | 0 <= i < |r| :: f(r[i]) == g(q[i])
    requires IsClockwiseFirst(r, start, f, x, okX) && IsClockwiseFirst(q, start, g, y, okY)
    ensures okX == okY && (okX ==> exists i | 0 <= i < |r| :: r[i] == x && q[i] == y)
  {
    assert forall k: nat | k < |r| :: f(Clockwise(r, start, k)) == g(Clockwise(q, start, k));
    if okX && okY {
      var k :| 0 <= k < |r| && x == Clockwise(r, start, k) && f(x)
        && forall j | 0 <= j < k :: !f(Clockwise(r, start, j));
      var l :| 0 <= l < |q| && y == Clockwise(q, start, l) && g(y)
        && forall j | 0 <= j < l :: !g(Clockwise(q, start, j));
      assert k == l;
      assert r[(start + k) % |r|] == x && q[(start + k) % |r|] == y;
    }
  }

  /** When endpoints drop out, a key whose endpoint stays selectable does not move. */
  lemma ShrinkKeepsChoice(r: Ring, sum: nat, selectable: nat -> bool, fewer: nat -> bool, ordinal: nat)
    requires r.Points? ==> |r.hashes| == |r.indexes| > 0
    requires forall x | fewer(x) :: selectable(x)
    requires IsChoice(r, sum, selectable, ordinal, true) && fewer(ordinal)
    ensures IsChoice(r, sum, fewer, ordinal, true)
  {
    if r.Points? {
      var i: nat :| IsSearch(r.hashes, sum, i) &&
               IsClockwiseFirst(r.indexes, if i == |r.hashes| then 0 else i, selectable, ordinal, true);
      var start := if i == |r.hashes| then 0 else i;
      var k :| 0 <= k < |r.indexes| && ordinal == Clockwise(r.indexes, start, k) && selectable(ordinal)
        && forall j | 0 <= j < k :: !selectable(Clockwise(r.indexes, start, j));
      forall j | 0 <= j < k ensures !fewer(Clockwise(r.indexes, start, j)) {
        assert !selectable(Clockwise(r.indexes, start, j));
      }
      assert IsClockwiseFirst(r.indexes, start, fewer, ordinal, true);
    }
  }
}
