/**
 Weight normalization and capped apportionment
 (internal/upstream/wrr.go and internal/upstream/chash.go, which carry the same algorithm).

 Weights are divided by their greatest common divisor.  When the wanted total exceeds
 a cap, every endpoint gets one unit and the rest is apportioned by largest remainder.
 */
module Apportion {
  import opened Ordering
  import opened Counting

  // ----- sums over sequences

  function SumBy<T>(s: seq<T>, f: T -> int): int {
    if s == [] then 0 else SumBy(s[..|s| - 1], f) + f(s[|s| - 1])
  }

  lemma {:induction false} SumConcat<T>(a: seq<T>, b: seq<T>, f: T -> int)
    ensures SumBy(a + b, f) == SumBy(a, f) + SumBy(b, f)
  {
    if b == [] {
      assert a + b == a;
    } else {
      SumConcat(a, b[..|b| - 1], f);
      assert (a + b)[..|a + b| - 1] == a + b[..|b| - 1];
    }
  }

  lemma SumOne<T>(x: T, f: T -> int)
    ensures SumBy([x], f) == f(x)
  {
    assert [x][..0] == [];
  }

  lemma DropMultiset<T>(s: seq<T>, i: nat)
    requires i < |s|
    ensures multiset(s) == multiset(Drop(s, i)) + multiset{s[i]}
  {
    assert s == s[..i] + ([s[i]] + s[i + 1..]);
    assert multiset(s) == multiset(s[..i]) + (multiset{s[i]} + multiset(s[i + 1..]));
  }

  lemma {:induction false} DropSum<T>(s: seq<T>, i: nat, f: T -> int)
    requires i < |s|
    ensures SumBy(s, f) == SumBy(Drop(s, i), f) + f(s[i])
  {
    hide SumBy;
    var before, x, after := s[..i], s[i], s[i + 1..];
    SumConcat(before, after, f);
    SumConcat(before, [x] + after, f);
    SumConcat([x], after, f);
    SumOne(x, f);
    assert s == before + ([x] + after);
  }

  /** Where `b` holds the first element of its permutation `a`; removing both leaves permutations. */
  lemma MatchFirst<T>(a: seq<T>, b: seq<T>) returns (i: nat)
    requires multiset(a) == multiset(b) && a != []
    ensures i < |b| && b[i] == a[0]
    ensures multiset(Drop(a, 0)) == multiset(Drop(b, i))
  {
    SameElements(a, b, a[0]);
    i :| 0 <= i < |b| && b[i] == a[0];
    DropMultiset(a, 0);
    DropMultiset(b, i);
    assert multiset(Drop(a, 0)) == multiset(a) - multiset{a[0]};
    assert multiset(Drop(b, i)) == multiset(b) - multiset{a[0]};
  }

  lemma PermutedEmpty<T>(b: seq<T>)
    requires multiset(b) == multiset([])
    ensures b == []
  {
    assert |multiset(b)| == 0;
  }

  /** A sum does not depend on the order of its terms. */
  lemma {:induction false} SumPermuted<T>(a: seq<T>, b: seq<T>, f: T -> int)
    requires multiset(a) == multiset(b)
    ensures SumBy(a, f) == SumBy(b, f)
    decreases |a|
  {
    if a == [] {
      PermutedEmpty(b);
    } else {
      hide SumBy;
      var i := MatchFirst(a, b);
      SumPermuted(Drop(a, 0), Drop(b, i), f);
      DropSum(a, 0, f);
      DropSum(b, i, f);
    }
  }

  lemma {:induction false} SumEqual<T>(s: seq<T>, f: T -> int, g: T -> int)
    requires forall x | x in s :: f(x) == g(x)
    ensures SumBy(s, f) == SumBy(s, g)
  {
    if s != [] { SumEqual(s[..|s| - 1], f, g); }
  }

  lemma {:induction false} SumPlus<T>(s: seq<T>, f: T -> int, g: T -> int, h: T -> int)
    requires forall x | x in s :: h(x) == f(x) + g(x)
    ensures SumBy(s, h) == SumBy(s, f) + SumBy(s, g)
  {
    if s != [] { SumPlus(s[..|s| - 1], f, g, h); }
  }

  lemma {:induction false} SumScaled<T>(s: seq<T>, f: T -> int, k: int, h: T -> int)
    requires forall x | x in s :: h(x) == f(x) * k
    ensures SumBy(s, h) == SumBy(s, f) * k
  {
    if s != [] {
      SumScaled(s[..|s| - 1], f, k, h);
      var rest, last := SumBy(s[..|s| - 1], f), f(s[|s| - 1]);
      assert (rest + last) * k == rest * k + last * k;
    }
  }

  lemma {:induction false} SumBounds<T>(s: seq<T>, f: T -> int, low: int, high: int)
    requires forall x | x in s :: low <= f(x) <= high
    ensures |s| * low <= SumBy(s, f) <= |s| * high
  {
    if s != [] {
      SumBounds(s[..|s| - 1], f, low, high);
      assert |s| * low == (|s| - 1) * low + low;
      assert |s| * high == (|s| - 1) * high + high;
    }
  }

  // ----- greatest common divisor

  ghost predicate Divides(d: nat, a: nat) {
    exists k: nat :: a == Product(d, k)
  }

  function Product(d: int, k: int): int { d * k }

  lemma DividesCombination(d: nat, x: nat, q: nat, r: nat)
    requires Divides(d, x) && Divides(d, r)
    ensures Divides(d, q * x + r)
  {
    var i: nat :| x == Product(d, i);
    var j: nat :| r == Product(d, j);
    assert q * x + r == Product(d, q * i + j) by {
      assert q * (d * i) == d * (q * i);
      assert d * (q * i + j) == d * (q * i) + d * j;
    }
  }

  lemma DividesRest(d: nat, x: nat, q: nat, r: nat)
    requires d > 0 && Divides(d, x) && Divides(d, q * x + r)
    ensures Divides(d, r)
  {
    var i: nat :| x == Product(d, i);
    var j: nat :| q * x + r == Product(d, j);
    assert q * (d * i) == d * (q * i);
    assert r == d * j - d * (q * i) == d * (j - q * i);
    assert j - q * i >= 0 by {
      if j - q * i < 0 { NegativeProduct(d, j - q * i); }
    }
    assert r == Product(d, j - q * i);
  }

  lemma NegativeProduct(d: nat, k: int)
    requires d > 0 && k < 0
    ensures d * k < 0
  {
  }

  ghost predicate IsGcd(g: nat, a: nat, b: nat) {
    && g > 0 && Divides(g, a) && Divides(g, b)
    && forall d: nat :: d > 0 && Divides(d, a) && Divides(d, b) ==> Divides(d, g)
  }

  lemma GcdStep(g: nat, a: nat, b: nat)
    requires b > 0 && IsGcd(g, b, a % b)
    ensures IsGcd(g, a, b)
  {
    var q, r := a / b, a % b;
    assert a == q * b + r;
    DividesCombination(g, b, q, r);
    forall d: nat | d > 0 && Divides(d, a) && Divides(d, b) ensures Divides(d, g) {
      DividesRest(d, b, q, r);
    }
  }

  lemma GcdWithZero(a: nat)
    requires a > 0
    ensures IsGcd(a, a, 0)
  {
    assert a == Product(a, 1) && 0 == Product(a, 0);
  }

  function Gcd(a: nat, b: nat): nat
    decreases b
  {
    if b == 0 then a else Gcd(b, a % b)
  }

  lemma {:induction false} GcdIsGcd(a: nat, b: nat)
    requires a > 0 || b > 0
    ensures IsGcd(Gcd(a, b), a, b)
    decreases b
  {
    if b == 0 {
      GcdWithZero(a);
    } else {
      GcdIsGcd(b, a % b);
      GcdStep(Gcd(b, a % b), a, b);
    }
  }

  method GreatestCommonDivisor(left: nat, right: nat) returns (g: nat)
    ensures g == Gcd(left, right)
  {
    g := left;
    var r: nat := right;
    while r != 0
      invariant Gcd(g, r) == Gcd(left, right)
      decreases r
    {
      g, r := r, g % r;
    }
  }

  function GcdOf(ws: seq<nat>): nat
    requires ws != []
  {
    if |ws| == 1 then ws[0] else Gcd(GcdOf(ws[..|ws| - 1]), ws[|ws| - 1])
  }

  ghost predicate IsGcdOf(g: nat, ws: seq<nat>) {
    && g > 0 && (forall w | w in ws :: Divides(g, w))
    && forall d: nat :: d > 0 && (forall w | w in ws :: Divides(d, w)) ==> Divides(d, g)
  }

  lemma {:induction false} GcdOfIsGcd(ws: seq<nat>)
    requires ws != [] && forall w | w in ws :: w > 0
    ensures IsGcdOf(GcdOf(ws), ws)
  {
    if |ws| == 1 {
      assert ws[0] in ws;
      GcdWithZero(ws[0]);
    } else {
      var before, w := ws[..|ws| - 1], ws[|ws| - 1];
      assert forall x | x in before :: x in ws;
      GcdOfIsGcd(before);
      GcdIsGcd(GcdOf(before), w);
      assert ws == before + [w];
      var g := GcdOf(ws);
      forall x | x in ws ensures Divides(g, x) {
        if x in before { DividesTrans(g, GcdOf(before), x); }
      }
      forall d: nat | d > 0 && (forall x | x in ws :: Divides(d, x)) ensures Divides(d, g) {
        assert forall x | x in before :: x in ws;
        assert w in ws;
      }
    }
  }

  lemma DividesTrans(a: nat, b: nat, c: nat)
    requires Divides(a, b) && Divides(b, c)
    ensures Divides(a, c)
  {
    var i: nat :| b == Product(a, i);
    var j: nat :| c == Product(b, j);
    assert c == Product(a, i * j);
  }

  /** The greatest common divisor is determined by the set of weights. */
  lemma GcdOfUnique(g: nat, h: nat, ws: seq<nat>, vs: seq<nat>)
    requires IsGcdOf(g, ws) && IsGcdOf(h, vs) && forall w :: w in ws <==> w in vs
    ensures g == h
  {
    assert Divides(g, h) && Divides(h, g);
    var i: nat :| h == Product(g, i);
    var j: nat :| g == Product(h, j);
    assert i > 0 && j > 0 by { assert g * 0 == 0 && h * 0 == 0; }
    Grows(g, i);
    Grows(h, j);
  }

  lemma Grows(g: nat, i: nat)
    requires i > 0
    ensures g <= g * i
  {
    assert g * i == g + g * (i - 1);
    NonNegative(g, i - 1);
  }

  lemma NonNegative(a: nat, b: nat)
    ensures a * b >= 0
  {
  }

  lemma ExactDivision(g: nat, w: nat)
    requires g > 0 && Divides(g, w)
    ensures w == g * (w / g)
  {
    var k: nat :| w == Product(g, k);
    assert w / g == k by {
      assert w == g * k + 0;
      QuotientUnique(w, g, k);
    }
  }

  lemma QuotientUnique(w: nat, g: nat, k: nat)
    requires g > 0 && w == g * k
    ensures w / g == k
  {
    var q, r := w / g, w % g;
    assert g * q + r == g * k;
    assert g * (k - q) == r;
    if k > q { Grows(g, k - q); }
    if k < q { NegativeProduct(g, k - q); }
  }

  /** Dividing by the common divisor keeps every ratio of weights exactly, and every weight positive. */
  lemma {:induction false} RatiosKept(ws: seq<nat>, i: nat, j: nat)
    requires ws != [] && (forall w | w in ws :: w > 0) && i < |ws| && j < |ws|
    ensures var g := GcdOf(ws);
            && g > 0
            && (ws[i] / g) * ws[j] == (ws[j] / g) * ws[i]
            && ws[i] == g * (ws[i] / g)
            && ws[i] / g > 0
  {
    GcdOfIsGcd(ws);
    var g := GcdOf(ws);
    ExactDivision(g, ws[i]);
    ExactDivision(g, ws[j]);
    var a, b := ws[i] / g, ws[j] / g;
    CrossProducts(a, b, g);
    ZeroProduct(g, a);
    assert ws[i] in ws;
  }

  lemma ZeroProduct(g: nat, a: nat)
    ensures a == 0 ==> g * a == 0
  {
  }

  lemma CrossProducts(a: nat, b: nat, g: nat)
    ensures a * (g * b) == b * (g * a)
  {
  }

  // ----- capped apportionment

  datatype Entry = Entry(index: nat, identity: string, weight: nat)

  /** The whole units beyond the first that `e` gets of `remaining`, for the weight total `total`. */
  function Extra(e: Entry, remaining: nat, total: nat): nat
    requires total > 0
  {
    NonNegative(e.weight, remaining);
    e.weight * remaining / total
  }

  function Remainder(e: Entry, remaining: nat, total: nat): nat
    requires total > 0
  {
    e.weight * remaining % total
  }

  /** Larger remainder first, then smaller identity, then smaller index. */
  predicate Ahead(a: Entry, b: Entry, remaining: nat, total: nat)
    requires total > 0
  {
    var p, q := Remainder(a, remaining, total), Remainder(b, remaining, total);
    p > q || (p == q && (LexLess(a.identity, b.identity) || (a.identity == b.identity && a.index < b.index)))
  }

  function AheadBy(remaining: nat, total: nat): (Entry, Entry) -> bool
    requires total > 0
  {
    (a, b) => Ahead(a, b, remaining, total)
  }

  function Total(es: seq<Entry>): int {
    SumBy(es, (e: Entry) => e.weight)
  }

  predicate Distinct(es: seq<Entry>) {
    forall i, j | 0 <= i < j < |es| :: es[i].index != es[j].index
  }

  /** What both callers hand over: distinct entries of positive weight, and room for one unit each. */
  ghost predicate Capped(es: seq<Entry>, cap: nat) {
    && 0 < |es| <= cap && Distinct(es) && (forall e | e in es :: e.weight > 0) && Total(es) > 0
  }

  function Leftover(es: seq<Entry>, cap: nat): int
    requires |es| <= cap && Total(es) > 0
  {
    var remaining, total := cap - |es|, Total(es);
    remaining - SumBy(es, (e: Entry) => Extra(e, remaining, total))
  }

  lemma {:induction false} RemainderSum(es: seq<Entry>, remaining: nat, total: nat, extra: Entry -> int,
                                        rem: Entry -> int)
    requires total == Total(es) > 0
    requires forall e: Entry :: extra(e) == Extra(e, remaining, total) && rem(e) == Remainder(e, remaining, total)
    ensures SumBy(es, rem) == (remaining - SumBy(es, extra)) * total
    ensures 0 <= SumBy(es, rem) <= |es| * (total - 1)
  {
    var weight := (e: Entry) => e.weight;
    var scaled := (e: Entry) => Extra(e, remaining, total) * total;
    var product := (e: Entry) => e.weight * remaining;
    SumScaled(es, weight, remaining, product);
    SumScaled(es, extra, total, scaled);
    forall e | e in es ensures product(e) == scaled(e) + rem(e) {
      DivisionIdentity(e.weight * remaining, total);
    }
    SumPlus(es, scaled, rem, product);
    SumBounds(es, rem, 0, total - 1);
    assert (remaining - SumBy(es, extra)) * total == total * remaining - SumBy(es, extra) * total;
  }

  lemma DivisionIdentity(a: int, b: nat)
    requires b > 0
    ensures a == (a / b) * b + a % b
  {
  }

  /** The leftover units are fewer than the endpoints, so slicing the order by it is in range. */
  lemma LeftoverInRange(es: seq<Entry>, cap: nat)
    requires Capped(es, cap)
    ensures 0 <= Leftover(es, cap) < |es|
  {
    var remaining, total, left := cap - |es|, Total(es), Leftover(es, cap);
    var extra := (e: Entry) => Extra(e, remaining, total);
    var rem := (e: Entry) => Remainder(e, remaining, total);
    RemainderSum(es, remaining, total, extra, rem);
    assert left == remaining - SumBy(es, extra);
    assert 0 <= left * total <= |es| * (total - 1);
    QuotientBounds(left, |es|, total);
  }

  lemma QuotientBounds(left: int, n: nat, total: nat)
    requires 0 <= left * total <= n * (total - 1) && total > 0 && n > 0
    ensures 0 <= left < n
  {
    if left < 0 { NegativeProduct(total, left); }
    assert n * (total - 1) == n * total - n;
    if left >= n { ProductMonotone(n, left, total); }
  }

  lemma ProductMonotone(a: int, b: int, k: nat)
    requires a <= b
    ensures a * k <= b * k
  {
    assert b * k - a * k == (b - a) * k;
    NonNegative(b - a, k);
  }

  /** The endpoints that get one leftover unit. */
  function Favoured(es: seq<Entry>, cap: nat): seq<Entry>
    requires |es| <= cap && Total(es) > 0 && 0 <= Leftover(es, cap) <= |es|
  {
    Sort(es, AheadBy(cap - |es|, Total(es)))[..Leftover(es, cap)]
  }

  /** The units `e` is assigned. */
  function Share(e: Entry, es: seq<Entry>, cap: nat): nat
    requires |es| <= cap && Total(es) > 0 && 0 <= Leftover(es, cap) <= |es|
  {
    1 + Extra(e, cap - |es|, Total(es)) + if e in Favoured(es, cap) then 1 else 0
  }

  lemma AheadIsTotal(remaining: nat, total: nat)
    requires total > 0
    ensures StrictWeak(AheadBy(remaining, total))
  {
    var less := AheadBy(remaining, total);
    forall x, y | less(x, y) ensures !less(y, x) { LexTrichotomy(x.identity, y.identity); }
    forall x, y, z | !less(y, x) && !less(z, y) ensures !less(z, x) {
      LexTrichotomy(x.identity, y.identity);
      LexTrichotomy(y.identity, z.identity);
      LexTrichotomy(x.identity, z.identity);
      if LexLess(x.identity, y.identity) && LexLess(y.identity, z.identity) {
        LexTransitive(x.identity, y.identity, z.identity);
      }
    }
  }

  lemma {:induction false} SumPrefixIndicator<T>(s: seq<T>, m: nat, f: T -> int)
    requires m <= |s|
    requires forall i | 0 <= i < |s| :: f(s[i]) == if i < m then 1 else 0
    ensures SumBy(s, f) == m
  {
    if s != [] {
      SumPrefixIndicator(s[..|s| - 1], if m < |s| then m else m - 1, f);
    }
  }

  lemma DistinctPermuted(es: seq<Entry>, sorted: seq<Entry>)
    requires Distinct(es) && multiset(sorted) == multiset(es)
    ensures forall i, j | 0 <= i < j < |sorted| :: sorted[i] != sorted[j]
  {
    forall i, j | 0 <= i < j < |sorted| ensures sorted[i] != sorted[j] {
      if sorted[i] == sorted[j] {
        CountTwice(sorted, i, j);
        DistinctCountsOnce(es, sorted[i]);
      }
    }
  }

  lemma {:induction false} DistinctCountsOnce(es: seq<Entry>, e: Entry)
    requires Distinct(es)
    ensures multiset(es)[e] <= 1
  {
    if es != [] {
      assert es == [es[0]] + es[1..];
      DistinctCountsOnce(es[1..], e);
      if e == es[0] { assert e !in es[1..]; assert multiset(es[1..])[e] == 0; }
    }
  }

  lemma {:induction false} FavouredCount(es: seq<Entry>, cap: nat, f: Entry -> int)
    requires Capped(es, cap) && 0 <= Leftover(es, cap) <= |es|
    requires forall e | e in es :: f(e) == if e in Favoured(es, cap) then 1 else 0
    ensures SumBy(es, f) == Leftover(es, cap)
  {
    var m := Leftover(es, cap);
    var sorted := Sort(es, AheadBy(cap - |es|, Total(es)));
    DistinctPermuted(es, sorted);
    forall i | 0 <= i < |sorted| ensures f(sorted[i]) == if i < m then 1 else 0 {
      SameElements(sorted, es, sorted[i]);
      if i < m { assert sorted[..m][i] == sorted[i]; }
    }
    SumPrefixIndicator(sorted, m, f);
    SumPermuted(sorted, es, f);
  }

  /** The shares add up to the cap exactly. */
  lemma {:induction false} SharesSumToCap(es: seq<Entry>, cap: nat, share: Entry -> int)
    requires Capped(es, cap) && 0 <= Leftover(es, cap) <= |es|
    requires forall e | e in es :: share(e) == Share(e, es, cap)
    ensures SumBy(es, share) == cap
  {
    var remaining, total := cap - |es|, Total(es);
    var one, extra := (e: Entry) => 1, (e: Entry) => Extra(e, remaining, total);
    var favoured := Favoured(es, cap);
    var bonus := (e: Entry) => if e in favoured then 1 else 0;
    var base := (e: Entry) => 1 + Extra(e, remaining, total);
    FavouredCount(es, cap, bonus);
    SumBounds(es, one, 1, 1);
    SumPlus(es, one, extra, base);
    SumPlus(es, base, bonus, share);
  }

  /** Nobody with a smaller remainder is favoured over somebody with a larger one. */
  lemma LargestRemainder(es: seq<Entry>, cap: nat, a: Entry, b: Entry)
    requires Capped(es, cap) && 0 <= Leftover(es, cap) <= |es|
    requires a in es && b in es && a in Favoured(es, cap) && b !in Favoured(es, cap)
    ensures Remainder(a, cap - |es|, Total(es)) >= Remainder(b, cap - |es|, Total(es))
  {
    var less := AheadBy(cap - |es|, Total(es));
    var m, sorted := Leftover(es, cap), Sort(es, less);
    AheadIsTotal(cap - |es|, Total(es));
    SortIsSorted(es, less);
    SameElements(sorted, es, b);
    var i :| 0 <= i < m && sorted[..m][i] == a;
    var j :| 0 <= j < |sorted| && sorted[j] == b;
    assert i < j && !less(sorted[j], sorted[i]);
  }

  // ----- the in-place algorithm

  datatype Slot = Slot(entry: Entry, quota: nat, emitted: nat, remainder: nat)

  ghost function EntriesOf(slots: seq<Slot>): seq<Entry> {
    seq(|slots|, i requires 0 <= i < |slots| => slots[i].entry)
  }

  /** `assignCappedWRRSlots` and `assignCappedContinuumPoints`. */
  method AssignCapped(slots: array<Slot>, total: nat, cap: nat)
    requires Capped(EntriesOf(slots[..]), cap) && total == Total(EntriesOf(slots[..]))
    modifies slots
    ensures EntriesOf(slots[..]) == old(EntriesOf(slots[..]))
    ensures 0 <= Leftover(EntriesOf(slots[..]), cap) < slots.Length
    ensures forall i | 0 <= i < slots.Length ::
              && slots[i].quota == Share(slots[i].entry, EntriesOf(slots[..]), cap)
              && slots[i].emitted == old(slots[i].emitted)
  {
    ghost var es := EntriesOf(slots[..]);
    var remaining, given := cap - slots.Length, slots.Length;
    var extra := (e: Entry) => Extra(e, remaining, total);
    for index := 0 to slots.Length
      invariant given == slots.Length + SumBy(es[..index], extra)
      invariant forall i | 0 <= i < slots.Length :: slots[i].entry == es[i] && slots[i].emitted == old(slots[i].emitted)
      invariant forall i | 0 <= i < index :: slots[i].quota == 1 + extra(es[i])
    {
      var e := slots[index].entry;
      slots[index] := slots[index].(quota := 1 + Extra(e, remaining, total),
          remainder := Remainder(e, remaining, total));
      given := given + Extra(e, remaining, total);
      assert es[..index + 1][..index] == es[..index];
    }
    assert es[..slots.Length] == es;
    LeftoverInRange(es, cap);
    assert cap - given == Leftover(es, cap);
    AwardLeftover(slots, remaining, total, cap - given, es, cap);
  }

  /** Sorts the slot indexes and gives one more unit to the first `left` of them. */
  method AwardLeftover(slots: array<Slot>, remaining: nat, total: nat, left: nat, ghost es: seq<Entry>, ghost cap: nat)
    requires Capped(es, cap) && |es| == slots.Length && remaining == cap - |es| && total == Total(es)
    requires left == Leftover(es, cap) && left <= |es|
    requires forall i | 0 <= i < |es| :: slots[i].entry == es[i] && slots[i].quota == 1 + Extra(es[i], remaining, total)
    modifies slots
    ensures EntriesOf(slots[..]) == es
    ensures forall i | 0 <= i < |es| ::
              slots[i].quota == Share(es[i], es, cap) && slots[i].emitted == old(slots[i].emitted)
  {
    hide Sort, Favoured, Leftover, AheadBy, Extra, Share, IsOrder;
    var order := OrderedIndexes(slots[..], remaining, total, es);
    SharesByIndex(es, order, left, cap);
    AddOneEach(slots, order[..left]);
    assert EntriesOf(slots[..]) == es;
  }

  lemma {:induction false} SharesByIndex(es: seq<Entry>, order: seq<nat>, left: nat, cap: nat)
    requires Capped(es, cap) && left == Leftover(es, cap) && left <= |es|
    requires IsOrder(order, es, Sort(es, AheadBy(cap - |es|, Total(es))))
    ensures |order| == |es| && (forall k | 0 <= k < left :: order[..left][k] < |es|)
    ensures forall i, j | 0 <= i < j < left :: order[..left][i] != order[..left][j]
    ensures forall i | 0 <= i < |es| ::
              Share(es[i], es, cap) == 1 + Extra(es[i], cap - |es|, Total(es)) + if i in order[..left] then 1 else 0
  {
    FavouredIndexes(es, order, left, Sort(es, AheadBy(cap - |es|, Total(es))));
  }

  method AddOneEach(slots: array<Slot>, indexes: seq<nat>)
    requires forall k | 0 <= k < |indexes| :: indexes[k] < slots.Length
    requires forall i, j | 0 <= i < j < |indexes| :: indexes[i] != indexes[j]
    modifies slots
    ensures forall i | 0 <= i < slots.Length ::
              slots[i] == old(slots[i]).(quota := old(slots[i]).quota + if i in indexes then 1 else 0)
  {
    for k := 0 to |indexes|
      invariant forall i | 0 <= i < slots.Length ::
                  slots[i] == old(slots[i]).(quota := old(slots[i]).quota + if i in indexes[..k] then 1 else 0)
    {
      var index := indexes[k];
      assert indexes[..k + 1] == indexes[..k] + [index];
      assert index !in indexes[..k];
      slots[index] := slots[index].(quota := slots[index].quota + 1);
    }
    assert indexes[..|indexes|] == indexes;
  }

  ghost predicate IsOrder(order: seq<nat>, es: seq<Entry>, sorted: seq<Entry>) {
    && |order| == |es| == |sorted|
    && (forall k | 0 <= k < |order| :: order[k] < |es| && es[order[k]] == sorted[k])
    && (forall i, j | 0 <= i < j < |order| :: order[i] != order[j])
  }

  lemma FavouredIndexes(es: seq<Entry>, order: seq<nat>, m: nat, sorted: seq<Entry>)
    requires Distinct(es) && IsOrder(order, es, sorted) && m <= |es|
    ensures forall i | 0 <= i < |es| :: i in order[..m] <==> es[i] in sorted[..m]
  {
    forall i | 0 <= i < |es| ensures i in order[..m] <==> es[i] in sorted[..m] {
      if i in order[..m] {
        var k :| 0 <= k < m && order[..m][k] == i;
        assert sorted[..m][k] == es[i];
      }
      if es[i] in sorted[..m] {
        var k :| 0 <= k < m && sorted[..m][k] == es[i];
        assert es[order[k]] == es[i];
        assert order[..m][k] == i;
      }
    }
  }

  function Indexes(n: nat): (r: seq<nat>)
    ensures |r| == n && forall i | 0 <= i < n :: r[i] == i
  {
    seq(n, i => i)
  }

  lemma {:induction false} MapMultiset<A, B>(a: seq<A>, b: seq<A>, f: A -> B, fa: seq<B>, fb: seq<B>)
    requires multiset(a) == multiset(b) && |fa| == |a| && |fb| == |b|
    requires (forall i | 0 <= i < |a| :: fa[i] == f(a[i])) && (forall i | 0 <= i < |b| :: fb[i] == f(b[i]))
    ensures multiset(fa) == multiset(fb)
    decreases |a|
  {
    if a == [] {
      PermutedEmpty(b);
    } else {
      var i := MatchFirst(a, b);
      hide Drop;
      MapMultiset(Drop(a, 0), Drop(b, i), f, Drop(fa, 0), Drop(fb, i));
      DropMultiset(fa, 0);
      DropMultiset(fb, i);
    }
  }

  /** Sorting indexes by their entries yields the sorted entries. */
  method OrderedIndexes(slots: seq<Slot>, remaining: nat, total: nat, ghost es: seq<Entry>) returns (order: seq<nat>)
    requires total > 0 && |slots| == |es| && Distinct(es) && forall i | 0 <= i < |es| :: slots[i].entry == es[i]
    ensures IsOrder(order, es, Sort(es, AheadBy(remaining, total)))
  {
    var n := |slots|;
    var at := (i: nat) => if i < n then slots[i].entry else Entry(i, "", 0);
    var less := (i: nat, j: nat) => Ahead(at(i), at(j), remaining, total);
    order := Sort(Indexes(n), less);
    ghost var sorted := seq(n, k requires 0 <= k < n => at(order[k]));
    IndexOrderFacts(n, at, less, order, remaining, total);
    assert forall k | 0 <= k < n :: at(Indexes(n)[k]) == es[k];
    MapMultiset(order, Indexes(n), at, sorted, es);
    EntriesSortedUnique(es, sorted, remaining, total);
  }

  lemma IndexOrderFacts(n: nat, at: nat -> Entry, less: (nat, nat) -> bool, order: seq<nat>, remaining: nat, total: nat)
    requires total > 0 && order == Sort(Indexes(n), less)
    requires forall i, j :: less(i, j) == Ahead(at(i), at(j), remaining, total)
    ensures |order| == n && (forall k | 0 <= k < n :: order[k] < n)
    ensures forall i, j | 0 <= i < j < n :: order[i] != order[j]
    ensures forall i, j | 0 <= i < j < n :: !Ahead(at(order[j]), at(order[i]), remaining, total)
  {
    hide Ahead, Sort;
    IndexOrderWeak(at, less, remaining, total);
    SortIsSorted(Indexes(n), less);
    forall k | 0 <= k < n ensures order[k] < n { SameElements(order, Indexes(n), order[k]); }
    forall i, j | 0 <= i < j < n ensures order[i] != order[j] {
      if order[i] == order[j] {
        CountTwice(order, i, j);
        IndexCountsOnce(n, order[i]);
      }
    }
  }

  lemma CountTwice<T>(s: seq<T>, i: nat, j: nat)
    requires i < j < |s| && s[i] == s[j]
    ensures multiset(s)[s[i]] >= 2
  {
    assert s == s[..i] + [s[i]] + s[i + 1..j] + [s[j]] + s[j + 1..];
  }

  lemma IndexOrderWeak(at: nat -> Entry, less: (nat, nat) -> bool, remaining: nat, total: nat)
    requires total > 0 && forall i, j :: less(i, j) == Ahead(at(i), at(j), remaining, total)
    ensures StrictWeak(less)
  {
    hide Ahead;
    AheadIsTotal(remaining, total);
    var ahead := AheadBy(remaining, total);
    forall x, y | less(x, y) ensures !less(y, x) { assert ahead(at(x), at(y)) && !ahead(at(y), at(x)); }
    forall x, y, z | !less(y, x) && !less(z, y) ensures !less(z, x) {
      assert !ahead(at(y), at(x)) && !ahead(at(z), at(y)) && !ahead(at(z), at(x));
    }
  }

  lemma {:induction false} IndexCountsOnce(n: nat, i: nat)
    ensures multiset(Indexes(n))[i] <= 1
    ensures i >= n ==> multiset(Indexes(n))[i] == 0
  {
    if n > 0 {
      IndexCountsOnce(n - 1, i);
      assert Indexes(n) == Indexes(n - 1) + [n - 1];
    }
  }

  lemma {:induction false} EntriesSortedUnique(es: seq<Entry>, sorted: seq<Entry>, remaining: nat, total: nat)
    requires total > 0 && Distinct(es) && multiset(sorted) == multiset(es)
    requires forall i, j | 0 <= i < j < |sorted| :: !Ahead(sorted[j], sorted[i], remaining, total)
    ensures sorted == Sort(es, AheadBy(remaining, total))
  {
    var less := AheadBy(remaining, total);
    AheadIsTotal(remaining, total);
    SortIsSorted(es, less);
    var dom := (e: Entry) => e in es;
    forall x, y | dom(x) && dom(y) ensures x == y || less(x, y) || less(y, x) {
      LexTrichotomy(x.identity, y.identity);
      var i :| 0 <= i < |es| && es[i] == x;
      var j :| 0 <= j < |es| && es[j] == y;
    }
    forall x, y, z | dom(x) && dom(y) && dom(z) && less(x, y) && less(y, z) ensures less(x, z) {
      assert !less(y, x) && !less(z, y);
      assert x == z || less(x, z) || less(z, x);
    }
    forall x | x in sorted ensures dom(x) { SameElements(sorted, es, x); }
    SortedUnique(sorted, Sort(es, less), less, dom);
  }
}
