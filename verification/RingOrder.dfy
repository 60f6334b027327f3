/**
 The ring does not depend on the order in which endpoints are declared
 (internal/upstream/chash.go).

 Forgetting ordinals turns an entry back into a `WeightedEndpoint`.  Every step of
 the compilation commutes with forgetting, and what is left depends only on the
 multiset of endpoints.
 */
module RingOrder {
  import opened Ordering
  import opened Apportion
  import opened Wrr
  import opened Continuum

  function Plain(e: Entry): WeightedEndpoint {
    WeightedEndpoint(e.identity, e.weight)
  }

  function PlainAll(es: seq<Entry>): (r: seq<WeightedEndpoint>)
    ensures |r| == |es| && forall i | 0 <= i < |es| :: r[i] == Plain(es[i])
  {
    seq(|es|, i requires 0 <= i < |es| => Plain(es[i]))
  }

  predicate DistinctIdentities(xs: seq<WeightedEndpoint>) {
    forall i, j | 0 <= i < j < |xs| :: xs[i].identity != xs[j].identity
  }

  // ----- active endpoints

  lemma {:induction false} ActiveCounts(endpoints: seq<WeightedEndpoint>, n: nat, x: WeightedEndpoint)
    requires n <= |endpoints|
    ensures multiset(PlainAll(Active(endpoints, n)))[x] == if x.weight > 0 then multiset(endpoints[..n])[x] else 0
  {
    if n > 0 {
      hide Active, PlainAll;
      var last := endpoints[n - 1];
      ActiveCounts(endpoints, n - 1, x);
      SnocCounts(endpoints[..n - 1], last, endpoints[..n], x);
      ActiveSnoc(endpoints, n);
      if last.weight > 0 { SnocCounts(PlainAll(Active(endpoints, n - 1)), last, PlainAll(Active(endpoints, n)), x); }
    } else {
      assert Active(endpoints, 0) == [] && endpoints[..0] == [];
    }
  }

  lemma {:induction false} ActiveSnoc(endpoints: seq<WeightedEndpoint>, n: nat)
    requires 0 < n <= |endpoints|
    ensures PlainAll(Active(endpoints, n)) ==
            PlainAll(Active(endpoints, n - 1)) + if endpoints[n - 1].weight > 0 then [endpoints[n - 1]] else []
  {
  }

  lemma SnocCounts(s: seq<WeightedEndpoint>, e: WeightedEndpoint, t: seq<WeightedEndpoint>, x: WeightedEndpoint)
    requires t == s + [e]
    ensures multiset(t)[x] == multiset(s)[x] + if x == e then 1 else 0
  {
  }

  lemma {:induction false} ActivePermuted(a: seq<WeightedEndpoint>, b: seq<WeightedEndpoint>)
    requires multiset(a) == multiset(b)
    ensures multiset(PlainAll(Active(a, |a|))) == multiset(PlainAll(Active(b, |b|)))
  {
    assert a[..|a|] == a && b[..|b|] == b;
    forall x ensures multiset(PlainAll(Active(a, |a|)))[x] == multiset(PlainAll(Active(b, |b|)))[x] {
      ActiveCounts(a, |a|, x);
      ActiveCounts(b, |b|, x);
    }
  }

  lemma {:induction false} ActiveDistinct(endpoints: seq<WeightedEndpoint>, n: nat)
    requires n <= |endpoints| && DistinctIdentities(endpoints)
    ensures DistinctIdentities(PlainAll(Active(endpoints, n)))
    ensures forall e | e in Active(endpoints, n) :: e.identity == endpoints[e.index].identity
  {
    if n > 0 { ActiveDistinct(endpoints, n - 1); }
  }

  // ----- normalization

  function WeightOf(x: WeightedEndpoint): int { x.weight }

  lemma PlainTotal(es: seq<Entry>)
    ensures Total(es) == SumBy(PlainAll(es), WeightOf)
  {
    SumThrough(es, PlainAll(es), (e: Entry) => e.weight, WeightOf);
  }

  function Scale(x: WeightedEndpoint, g: nat): WeightedEndpoint
    requires g > 0
  {
    x.(weight := x.weight / g)
  }

  /** Permuted endpoints have the same divisor, so they are normalized alike. */
  lemma NormalizedPermuted(a: seq<Entry>, b: seq<Entry>)
    requires a != [] && b != [] && multiset(PlainAll(a)) == multiset(PlainAll(b))
    requires (forall e | e in a :: e.weight > 0) && (forall e | e in b :: e.weight > 0)
    ensures GcdOf(Weights(a)) == GcdOf(Weights(b)) > 0
    ensures multiset(PlainAll(Normalized(a))) == multiset(PlainAll(Normalized(b)))
  {
    WeightsMembers(a, b);
    WeightsMembers(b, a);
    WeightsPositive(a);
    WeightsPositive(b);
    GcdOfIsGcd(Weights(a));
    GcdOfIsGcd(Weights(b));
    GcdOfUnique(GcdOf(Weights(a)), GcdOf(Weights(b)), Weights(a), Weights(b));
    var g := GcdOf(Weights(a));
    hide GcdOf;
    MapMultiset(PlainAll(a), PlainAll(b), (x: WeightedEndpoint) => Scale(x, g), PlainAll(Normalized(a)),
        PlainAll(Normalized(b)));
  }

  lemma WeightsPositive(es: seq<Entry>)
    requires forall e | e in es :: e.weight > 0
    ensures forall w | w in Weights(es) :: w > 0
  {
    forall w | w in Weights(es) ensures w > 0 {
      var i :| 0 <= i < |es| && Weights(es)[i] == w;
      assert es[i] in es;
    }
  }

  lemma WeightsMembers(a: seq<Entry>, b: seq<Entry>)
    requires multiset(PlainAll(a)) == multiset(PlainAll(b))
    ensures forall w | w in Weights(a) :: w in Weights(b)
  {
    forall w | w in Weights(a) ensures w in Weights(b) {
      var i :| 0 <= i < |a| && Weights(a)[i] == w;
      SameElements(PlainAll(a), PlainAll(b), PlainAll(a)[i]);
      var j :| 0 <= j < |b| && PlainAll(b)[j] == PlainAll(a)[i];
      assert Weights(b)[j] == w;
    }
  }

  lemma NormalizedDistinct(es: seq<Entry>)
    requires es != [] && GcdOf(Weights(es)) > 0 && DistinctIdentities(PlainAll(es))
    ensures DistinctIdentities(PlainAll(Normalized(es)))
  {
    forall i, j | 0 <= i < j < |es| ensures Normalized(es)[i].identity != Normalized(es)[j].identity {
      assert PlainAll(es)[i].identity != PlainAll(es)[j].identity;
    }
  }

  // ----- apportionment without ordinals

  predicate PlainAhead(x: WeightedEndpoint, y: WeightedEndpoint, remaining: nat, total: nat)
    requires total > 0
  {
    var p, q := x.weight * remaining % total, y.weight * remaining % total;
    p > q || (p == q && LexLess(x.identity, y.identity))
  }

  function PlainAheadBy(remaining: nat, total: nat): (WeightedEndpoint, WeightedEndpoint) -> bool
    requires total > 0
  {
    (x, y) => PlainAhead(x, y, remaining, total)
  }

  function MemberOf(xs: seq<WeightedEndpoint>): WeightedEndpoint -> bool {
    x => x in xs
  }

  lemma PlainAheadTotal(xs: seq<WeightedEndpoint>, remaining: nat, total: nat)
    requires total > 0 && DistinctIdentities(xs)
    ensures StrictTotal(PlainAheadBy(remaining, total), MemberOf(xs))
  {
    var less, dom := PlainAheadBy(remaining, total), MemberOf(xs);
    forall x, y | dom(x) && dom(y) ensures (less(x, y) ==> !less(y, x)) && (x == y || less(x, y) || less(y, x)) {
      LexTrichotomy(x.identity, y.identity);
      var i :| 0 <= i < |xs| && xs[i] == x;
      var j :| 0 <= j < |xs| && xs[j] == y;
      assert i < j ==> xs[i].identity != xs[j].identity;
      assert j < i ==> xs[j].identity != xs[i].identity;
    }
    forall x, y, z | dom(x) && dom(y) && dom(z) && less(x, y) && less(y, z) ensures less(x, z) {
      if LexLess(x.identity, y.identity) && LexLess(y.identity, z.identity) {
        LexTransitive(x.identity, y.identity, z.identity);
      }
    }
  }

  /** Forgetting ordinals in the sorted entries gives a sorted list of plain endpoints. */
  lemma {:induction false} PlainSorted(es: seq<Entry>, remaining: nat, total: nat)
    requires total > 0 && DistinctIdentities(PlainAll(es))
    ensures var s := Sort(es, AheadBy(remaining, total));
            && multiset(PlainAll(s)) == multiset(PlainAll(es))
            && Sorted(PlainAll(s), PlainAheadBy(remaining, total))
  {
    var less := AheadBy(remaining, total);
    var s := Sort(es, less);
    AheadIsTotal(remaining, total);
    SortIsSorted(es, less);
    MapMultiset(s, es, Plain, PlainAll(s), PlainAll(es));
    forall i, j | 0 <= i < j < |s| ensures !PlainAhead(Plain(s[j]), Plain(s[i]), remaining, total) {
      assert !less(s[j], s[i]);
    }
  }

  /** Who is favoured depends only on the multiset of plain endpoints. */
  lemma FavouredPermuted(a: seq<Entry>, b: seq<Entry>, cap: nat)
    requires Capped(a, cap) && Capped(b, cap)
    requires multiset(PlainAll(a)) == multiset(PlainAll(b)) && DistinctIdentities(PlainAll(a))
             && DistinctIdentities(PlainAll(b))
    requires |a| == |b| && Total(a) == Total(b) && Leftover(a, cap) == Leftover(b, cap)
    requires 0 <= Leftover(a, cap) <= |a|
    ensures PlainAll(Favoured(a, cap)) == PlainAll(Favoured(b, cap))
  {
    hide SumBy, Extra, Ahead, Sort, Leftover, Distinct, DistinctIdentities, Total;
    var remaining, total, m := cap - |a|, Total(a), Leftover(a, cap);
    var s, t := Sort(a, AheadBy(remaining, total)), Sort(b, AheadBy(remaining, total));
    SortedPlainAlike(a, b, remaining, total);
    assert PlainAll(s[..m]) == PlainAll(s)[..m] && PlainAll(t[..m]) == PlainAll(t)[..m];
  }

  lemma {:induction false} SortedPlainAlike(a: seq<Entry>, b: seq<Entry>, remaining: nat, total: nat)
    requires total > 0 && multiset(PlainAll(a)) == multiset(PlainAll(b))
    requires DistinctIdentities(PlainAll(a)) && DistinctIdentities(PlainAll(b))
    ensures PlainAll(Sort(a, AheadBy(remaining, total))) == PlainAll(Sort(b, AheadBy(remaining, total)))
  {
    var s, t := Sort(a, AheadBy(remaining, total)), Sort(b, AheadBy(remaining, total));
    PlainSorted(a, remaining, total);
    PlainSorted(b, remaining, total);
    PlainAheadTotal(PlainAll(a), remaining, total);
    hide Sort, AheadBy, PlainAheadBy, DistinctIdentities, Sorted, StrictTotal;
    forall x | x in PlainAll(s) ensures MemberOf(PlainAll(a))(x) { SameElements(PlainAll(s), PlainAll(a), x); }
    SortedUnique(PlainAll(s), PlainAll(t), PlainAheadBy(remaining, total), MemberOf(PlainAll(a)));
  }

  lemma FavouredPlain(es: seq<Entry>, cap: nat, e: Entry)
    requires Capped(es, cap) && DistinctIdentities(PlainAll(es)) && 0 <= Leftover(es, cap) <= |es| && e in es
    ensures e in Favoured(es, cap) <==> Plain(e) in PlainAll(Favoured(es, cap))
  {
    var f := Favoured(es, cap);
    var s := Sort(es, AheadBy(cap - |es|, Total(es)));
    if e in f {
      var i :| 0 <= i < |f| && f[i] == e;
      assert PlainAll(f)[i] == Plain(e);
    }
    if Plain(e) in PlainAll(f) {
      var i :| 0 <= i < |f| && PlainAll(f)[i] == Plain(e);
      assert f[i] == s[i];
      SameElements(s, es, s[i]);
      var j :| 0 <= j < |es| && es[j] == s[i];
      var k :| 0 <= k < |es| && es[k] == e;
      assert PlainAll(es)[j].identity == PlainAll(es)[k].identity;
      assert j == k;
    }
  }

  lemma SumsPermuted(a: seq<Entry>, b: seq<Entry>, cap: nat)
    requires multiset(PlainAll(a)) == multiset(PlainAll(b)) && Capped(a, cap)
    ensures |a| == |b| && Total(a) == Total(b)
    ensures Leftover(a, cap) == Leftover(b, cap)
  {
    assert |multiset(PlainAll(a))| == |a| && |multiset(PlainAll(b))| == |b|;
    PlainTotal(a);
    PlainTotal(b);
    SumPermuted(PlainAll(a), PlainAll(b), WeightOf);
    var remaining, total := cap - |a|, Total(a);
    var extra := (e: Entry) => Extra(e, remaining, total);
    var plain := (x: WeightedEndpoint) => x.weight * remaining / total;
    SumThrough(a, PlainAll(a), extra, plain);
    SumThrough(b, PlainAll(b), extra, plain);
    SumPermuted(PlainAll(a), PlainAll(b), plain);
  }

  /** Endpoints alike in identity and weight get equally many points, whatever the declaration order. */
  lemma PointCountPermuted(a: seq<Entry>, b: seq<Entry>, e: Entry, f: Entry)
    requires Capped(a, MAX_POINTS) && Capped(b, MAX_POINTS) && multiset(PlainAll(a)) == multiset(PlainAll(b))
    requires DistinctIdentities(PlainAll(a)) && DistinctIdentities(PlainAll(b))
    requires e in a && f in b && Plain(e) == Plain(f)
    ensures PointCount(e, a) == PointCount(f, b)
  {
    hide SumBy, Ahead, Sort, Leftover, Favoured, DistinctIdentities, Total;
    SumsPermuted(a, b, MAX_POINTS);
    LeftoverInRange(a, MAX_POINTS);
    FavouredPermuted(a, b, MAX_POINTS);
    FavouredPlain(a, MAX_POINTS, e);
    FavouredPlain(b, MAX_POINTS, f);
  }

  // ----- the ring without ordinals

  function Bare(p: Point): Point { p.(endpointIndex := 0) }

  function BareAll(ps: seq<Point>): (r: seq<Point>)
    ensures |r| == |ps| && forall i | 0 <= i < |ps| :: r[i] == Bare(ps[i])
  {
    seq(|ps|, i requires 0 <= i < |ps| => Bare(ps[i]))
  }

  /** How often the bare point `p` occurs among the points of one endpoint. */
  function Occurs(e: Entry, n: nat, h: (string, nat) -> nat, p: Point): int {
    multiset(BareAll(PointsOf(e, n, h)))[p]
  }

  lemma {:induction false} OccursSum(es: seq<Entry>, k: nat, h: (string, nat) -> nat, p: Point, f: Entry -> int)
    requires Capped(es, MAX_POINTS) && k <= |es|
    requires forall e | e in es :: f(e) == Occurs(e, PointCount(e, es), h, p)
    ensures multiset(BareAll(AllPoints(es, k, h)))[p] == SumBy(es[..k], f)
  {
    hide PointCount, Capped, SumBy, PointsOf, BareAll, AllPoints;
    PointsStep(es, k, h);
    if k > 0 {
      OccursSum(es, k - 1, h, p, f);
      var e := es[k - 1];
      BareConcat(AllPoints(es, k - 1, h), PointsOf(e, PointCount(e, es), h), p);
      SumSnoc(es, k - 1, f);
    } else {
      assert BareAll([]) == [];
      SumNone(f);
      assert es[..0] == [];
    }
  }

  lemma {:induction false} PointsStep(es: seq<Entry>, k: nat, h: (string, nat) -> nat)
    requires Capped(es, MAX_POINTS) && k <= |es|
    ensures AllPoints(es, k, h) ==
            if k == 0 then []
            else AllPoints(es, k - 1, h) + PointsOf(es[k - 1], PointCount(es[k - 1], es), h)
  {
    hide PointCount, Capped, PointsOf;
  }

  lemma BareConcat(a: seq<Point>, b: seq<Point>, p: Point)
    ensures multiset(BareAll(a + b))[p] == multiset(BareAll(a))[p] + multiset(BareAll(b))[p]
  {
    assert BareAll(a + b) == BareAll(a) + BareAll(b);
  }

  lemma SumSnoc(es: seq<Entry>, k: nat, f: Entry -> int)
    requires k < |es|
    ensures SumBy(es[..k + 1], f) == SumBy(es[..k], f) + f(es[k])
  {
    assert es[..k + 1][..k] == es[..k];
  }

  lemma SumNone(f: Entry -> int)
    ensures SumBy([], f) == 0
  {
  }

  lemma OccursPlain(e: Entry, f: Entry, n: nat, h: (string, nat) -> nat, p: Point)
    requires e.identity == f.identity
    ensures Occurs(e, n, h, p) == Occurs(f, n, h, p)
  {
    assert BareAll(PointsOf(e, n, h)) == BareAll(PointsOf(f, n, h));
  }

  ghost function EntryOf(x: WeightedEndpoint, es: seq<Entry>): Entry
    requires x in PlainAll(es)
    ensures EntryOf(x, es) in es && Plain(EntryOf(x, es)) == x
  {
    var i :| 0 <= i < |es| && PlainAll(es)[i] == x;
    es[i]
  }

  /** The unsorted points agree as multisets once ordinals are forgotten. */
  lemma {:induction false} PointsPermuted(a: seq<Entry>, b: seq<Entry>, h: (string, nat) -> nat)
    requires Capped(a, MAX_POINTS) && Capped(b, MAX_POINTS) && multiset(PlainAll(a)) == multiset(PlainAll(b))
    requires DistinctIdentities(PlainAll(a)) && DistinctIdentities(PlainAll(b))
    ensures multiset(BareAll(AllPoints(a, |a|, h))) == multiset(BareAll(AllPoints(b, |b|, h)))
  {
    forall p ensures multiset(BareAll(AllPoints(a, |a|, h)))[p] == multiset(BareAll(AllPoints(b, |b|, h)))[p] {
      PointOccursAlike(a, b, h, p);
    }
  }

  lemma {:induction false} PointOccursAlike(a: seq<Entry>, b: seq<Entry>, h: (string, nat) -> nat, p: Point)
    requires Capped(a, MAX_POINTS) && Capped(b, MAX_POINTS) && multiset(PlainAll(a)) == multiset(PlainAll(b))
    requires DistinctIdentities(PlainAll(a)) && DistinctIdentities(PlainAll(b))
    ensures multiset(BareAll(AllPoints(a, |a|, h)))[p] == multiset(BareAll(AllPoints(b, |b|, h)))[p]
  {
    var fa := (e: Entry) => Occurs(e, PointCount(e, a), h, p);
    var fb := (e: Entry) => Occurs(e, PointCount(e, b), h, p);
    var plain := (x: WeightedEndpoint) => if x in PlainAll(a) then fa(EntryOf(x, a)) else 0;
    OccursSum(a, |a|, h, p, fa);
    OccursSum(b, |b|, h, p, fb);
    assert a[..|a|] == a && b[..|b|] == b;
    hide PointCount, Capped, Occurs;
    forall i | 0 <= i < |a| ensures fa(a[i]) == plain(PlainAll(a)[i]) {
      var e := EntryOf(PlainAll(a)[i], a);
      PointCountPermuted(a, a, a[i], e);
      OccursPlain(a[i], e, PointCount(e, a), h, p);
    }
    forall i | 0 <= i < |b| ensures fb(b[i]) == plain(PlainAll(b)[i]) {
      SameElements(PlainAll(a), PlainAll(b), PlainAll(b)[i]);
      var e := EntryOf(PlainAll(b)[i], a);
      PointCountPermuted(a, b, e, b[i]);
      OccursPlain(b[i], e, PointCount(e, a), h, p);
    }
    SumThrough(a, PlainAll(a), fa, plain);
    SumThrough(b, PlainAll(b), fb, plain);
    SumPermuted(PlainAll(a), PlainAll(b), plain);
  }

  lemma PointLessFacts()
    ensures StrictWeak(PointLess)
    ensures StrictTotal(PointLess, (p: Point) => p.endpointIndex == 0)
  {
    forall x: Point, y: Point ensures PointLess(x, y) ==> !PointLess(y, x) { LexTrichotomy(x.identity, y.identity); }
    forall x: Point, y: Point | x.endpointIndex == 0 && y.endpointIndex == 0
      ensures x == y || PointLess(x, y) || PointLess(y, x)
    {
      LexTrichotomy(x.identity, y.identity);
    }
    forall x, y, z | !PointLess(y, x) && !PointLess(z, y) ensures !PointLess(z, x) {
      LexTrichotomy(x.identity, y.identity);
      LexTrichotomy(y.identity, z.identity);
      LexTrichotomy(x.identity, z.identity);
      if LexLess(x.identity, y.identity) && LexLess(y.identity, z.identity) {
        LexTransitive(x.identity, y.identity, z.identity);
      }
    }
    forall x, y, z | PointLess(x, y) && PointLess(y, z) ensures PointLess(x, z) {
      if LexLess(x.identity, y.identity) && LexLess(y.identity, z.identity) {
        LexTransitive(x.identity, y.identity, z.identity);
      }
      LexTrichotomy(x.identity, y.identity);
      LexTrichotomy(y.identity, z.identity);
    }
  }

  lemma {:induction false} RingSorted(es: seq<Entry>, h: (string, nat) -> nat)
    requires Capped(es, MAX_POINTS)
    ensures Sorted(RingOf(es, h), PointLess) && Sorted(BareAll(RingOf(es, h)), PointLess)
    ensures multiset(BareAll(RingOf(es, h))) == multiset(BareAll(AllPoints(es, |es|, h)))
  {
    hide Capped, PointCount;
    PointLessFacts();
    var all := AllPoints(es, |es|, h);
    SortIsSorted(all, PointLess);
    MapMultiset(RingOf(es, h), all, Bare, BareAll(RingOf(es, h)), BareAll(all));
    forall i, j | 0 <= i < j < |RingOf(es, h)| ensures !PointLess(Bare(RingOf(es, h)[j]), Bare(RingOf(es, h)[i])) {
      assert !PointLess(RingOf(es, h)[j], RingOf(es, h)[i]);
    }
  }

  /** Permuted endpoints give the same ring: the same hashes, owned by the same identities. */
  lemma RingPermuted(a: seq<Entry>, b: seq<Entry>, h: (string, nat) -> nat)
    requires Capped(a, MAX_POINTS) && Capped(b, MAX_POINTS) && multiset(PlainAll(a)) == multiset(PlainAll(b))
    requires DistinctIdentities(PlainAll(a)) && DistinctIdentities(PlainAll(b))
    ensures BareAll(RingOf(a, h)) == BareAll(RingOf(b, h))
  {
    PointsPermuted(a, b, h);
    RingSorted(a, h);
    RingSorted(b, h);
    PointLessFacts();
    hide RingOf, AllPoints, Capped, PointLess, DistinctIdentities;
    SortedUnique(BareAll(RingOf(a, h)), BareAll(RingOf(b, h)), PointLess, (p: Point) => p.endpointIndex == 0);
  }

  /** Declaration order does not matter: the rings compiled from permuted endpoint lists agree but for ordinals. */
  lemma {:induction false} RingOrderIrrelevant(a: seq<WeightedEndpoint>, b: seq<WeightedEndpoint>,
                                               h: (string, nat) -> nat)
    requires multiset(a) == multiset(b) && DistinctIdentities(a) && DistinctIdentities(b)
    requires 2 <= |Active(a, |a|)| <= MAX_POINTS
    ensures var x, y := Active(a, |a|), Active(b, |b|);
            && |y| == |x|
            && GcdOf(Weights(x)) > 0 && GcdOf(Weights(y)) > 0
            && Capped(Normalized(x), MAX_POINTS) && Capped(Normalized(y), MAX_POINTS)
            && BareAll(RingOf(Normalized(x), h)) == BareAll(RingOf(Normalized(y), h))
  {
    var x, y := Active(a, |a|), Active(b, |b|);
    ActivePermuted(a, b);
    assert |multiset(PlainAll(x))| == |x| && |multiset(PlainAll(y))| == |y|;
    ActiveDistinct(a, |a|);
    ActiveDistinct(b, |b|);
    NormalizedFacts(x, MAX_POINTS);
    NormalizedFacts(y, MAX_POINTS);
    NormalizedPermuted(x, y);
    NormalizedDistinct(x);
    NormalizedDistinct(y);
    hide Active, Normalized, RingOf, Capped;
    RingPermuted(Normalized(x), Normalized(y), h);
  }

  // ----- a compiled ring is fit for selection

  lemma {:induction false} PointOwner(es: seq<Entry>, k: nat, h: (string, nat) -> nat, p: Point)
    requires Capped(es, MAX_POINTS) && k <= |es| && p in AllPoints(es, k, h)
    ensures exists i | 0 <= i < k :: p.endpointIndex == es[i].index && p.identity == es[i].identity
  {
    hide PointCount, Capped;
    if p in AllPoints(es, k - 1, h) {
      PointOwner(es, k - 1, h, p);
    } else {
      var own := PointsOf(es[k - 1], PointCount(es[k - 1], es), h);
      assert p in own;
      var v :| 0 <= v < |own| && own[v] == p;
      assert p.endpointIndex == es[k - 1].index;
    }
  }

  /** The ring `r` of `endpoints` has the given points, with the identity of the endpoint each names. */
  ghost predicate Owned(r: Ring, endpoints: seq<WeightedEndpoint>, ring: seq<Point>) {
    && r.Points? && |r.hashes| == |r.indexes| == |ring|
    && forall i | 0 <= i < |ring| ::
         && r.hashes[i] == ring[i].hash && r.indexes[i] < |endpoints|
         && endpoints[r.indexes[i]].identity == ring[i].identity
  }

  /** Every ring point belongs to the endpoint its ordinal names, and the hashes rise. */
  lemma RingIsValid(endpoints: seq<WeightedEndpoint>, es: seq<Entry>, h: (string, nat) -> nat, r: Ring)
    requires Capped(es, MAX_POINTS) && Built(r, RingOf(es, h))
    requires forall e | e in es :: e.index < |endpoints| && e.identity == endpoints[e.index].identity
    ensures ValidRing(r, |endpoints|)
    ensures Owned(r, endpoints, RingOf(es, h))
  {
    var ring, all := RingOf(es, h), AllPoints(es, |es|, h);
    RingSorted(es, h);
    RingNonEmpty(es, h);
    hide Capped, PointCount, RingOf, AllPoints;
    forall i | 0 <= i < |ring|
      ensures r.indexes[i] < |endpoints| && endpoints[r.indexes[i]].identity == ring[i].identity
    {
      RingMember(es, h, ring[i]);
      PointOwner(es, |es|, h, ring[i]);
    }
    forall i, j | 0 <= i < j < |ring| ensures r.hashes[i] <= r.hashes[j] {
      assert !PointLess(ring[j], ring[i]);
    }
  }

  lemma {:induction false} AllPointsHas(es: seq<Entry>, k: nat, h: (string, nat) -> nat, i: nat)
    requires Capped(es, MAX_POINTS) && i < k <= |es|
    ensures Point(h(es[i].identity, 0), es[i].identity, 0, es[i].index) in AllPoints(es, k, h)
    decreases k
  {
    PointsStep(es, k, h);
    if i == k - 1 {
      PointCountPositive(es[i], es);
      var own := PointsOf(es[i], PointCount(es[i], es), h);
      hide AllPoints, PointCount, Capped;
      assert own[0] in own;
    } else {
      hide *;
      AllPointsHas(es, k - 1, h, i);
    }
  }

  /** The endpoints a ring can name. */
  function Named(r: Ring): set<nat> {
    match r
    case DirectRing(ordinal) => {ordinal}
    case Points(_, indexes) => set x | x in indexes
  }

  /** A ring of `es` has a point of every entry, and of no other. */
  lemma RingNames(r: Ring, es: seq<Entry>, h: (string, nat) -> nat, x: nat)
    requires Capped(es, MAX_POINTS) && Built(r, RingOf(es, h))
    ensures x in r.indexes <==> exists i | 0 <= i < |es| :: es[i].index == x
  {
    var ring, all := RingOf(es, h), AllPoints(es, |es|, h);
    if i: nat :| i < |es| && es[i].index == x {
      AllPointsHas(es, |es|, h, i);
      var p := Point(h(es[i].identity, 0), es[i].identity, 0, es[i].index);
      SameElements(ring, all, p);
      hide RingOf, AllPoints, Capped;
      var j :| 0 <= j < |ring| && ring[j] == p;
      assert r.indexes[j] == x;
    }
    if x in r.indexes {
      hide RingOf, Capped;
      var j :| 0 <= j < |r.indexes| && r.indexes[j] == x;
      assert ring[j] in ring;
      RingMember(es, h, ring[j]);
      PointOwner(es, |es|, h, ring[j]);
    }
  }

  /** No endpoint of positive weight is left off the compiled ring, and no other gets on it. */
  lemma RingNamesActive(r: Ring, endpoints: seq<WeightedEndpoint>, h: (string, nat) -> nat)
    requires IsRingFor(r, endpoints, h)
    ensures Named(r) == Positive(endpoints)
  {
    hide Active, RingOf, GcdOf, Positive, Capped;
    var es := Active(endpoints, |endpoints|);
    forall x: nat ensures x in Named(r) <==> x in Positive(endpoints) {
      ActiveIsPositive(endpoints, x);
      if r.Points? { RingNames(r, Normalized(es), h, x); }
    }
  }

  /** On a compiled ring, selection succeeds exactly when some endpoint of positive weight is selectable. */
  lemma ChoiceComplete(endpoints: seq<WeightedEndpoint>, h: (string, nat) -> nat, r: Ring, sum: nat,
                       selectable: nat -> bool, ordinal: nat, ok: bool)
    requires IsRingFor(r, endpoints, h) && ValidRing(r, |endpoints|) && IsChoice(r, sum, selectable, ordinal, ok)
    ensures ok <==> exists x | x in Positive(endpoints) :: selectable(x)
    ensures ok ==> ordinal in Positive(endpoints) && selectable(ordinal)
  {
    RingNamesActive(r, endpoints, h);
    hide IsRingFor, Positive;
    assert forall x :: x in Named(r) <==> x in Positive(endpoints);
    if r.Points? {
      ChoiceFromRing(r, sum, selectable, ordinal, ok);
      assert forall x :: x in r.indexes <==> x in Named(r);
    } else {
      assert r.ordinal in Named(r);
    }
  }

  /** A compiled ring meets what selection requires. */
  lemma {:induction false} CompiledRingIsValid(r: Ring, endpoints: seq<WeightedEndpoint>, h: (string, nat) -> nat)
    requires IsRingFor(r, endpoints, h)
    ensures ValidRing(r, |endpoints|)
    ensures |Active(endpoints, |endpoints|)| > 1 ==>
              Owned(r, endpoints, RingOf(Normalized(Active(endpoints, |endpoints|)), h))
  {
    hide RingOf, Capped, Owned;
    var es := Active(endpoints, |endpoints|);
    if |es| > 1 {
      var ns := Normalized(es);
      forall e | e in ns ensures e.index < |endpoints| && e.identity == endpoints[e.index].identity {
        var i: nat :| i < |ns| && ns[i] == e;
        ActiveIdentity(endpoints, |endpoints|, i);
      }
      RingIsValid(endpoints, ns, h, r);
    }
  }

  lemma {:induction false} ActiveIdentity(endpoints: seq<WeightedEndpoint>, n: nat, i: nat)
    requires n <= |endpoints| && i < |Active(endpoints, n)|
    ensures var e := Active(endpoints, n)[i]; e.index < n && e.identity == endpoints[e.index].identity
    decreases n
  {
    if i < |Active(endpoints, n - 1)| { ActiveIdentity(endpoints, n - 1, i); }
  }

  lemma {:induction false} RingMember(es: seq<Entry>, h: (string, nat) -> nat, p: Point)
    requires Capped(es, MAX_POINTS) && p in RingOf(es, h)
    ensures p in AllPoints(es, |es|, h)
  {
    SameElements(RingOf(es, h), AllPoints(es, |es|, h), p);
  }

  lemma RingNonEmpty(es: seq<Entry>, h: (string, nat) -> nat)
    requires Capped(es, MAX_POINTS)
    ensures |RingOf(es, h)| > 0
  {
    var e := es[|es| - 1];
    PointCountPositive(e, es);
  }

  // ----- the choice does not depend on declaration order

  /** The two selectable sets hold the same identities. */
  ghost predicate SameIdentities(a: seq<WeightedEndpoint>, f: nat -> bool, b: seq<WeightedEndpoint>, g: nat -> bool) {
    forall i: nat, j: nat | i < |a| && j < |b| && a[i].identity == b[j].identity :: f(i) == g(j)
  }

  /** Both rings have the same hashes, and at every place the same identity. */
  ghost predicate SameRing(r: Ring, a: seq<WeightedEndpoint>, q: Ring, b: seq<WeightedEndpoint>) {
    && r.Points? && q.Points? && r.hashes == q.hashes && |r.indexes| == |q.indexes| == |r.hashes|
    && forall i | 0 <= i < |r.indexes| ::
         r.indexes[i] < |a| && q.indexes[i] < |b| && a[r.indexes[i]].identity == b[q.indexes[i]].identity
  }

  lemma OwnersAgree(r: Ring, a: seq<WeightedEndpoint>, x: seq<Point>, q: Ring, b: seq<WeightedEndpoint>, y: seq<Point>)
    requires Owned(r, a, x) && Owned(q, b, y) && BareAll(x) == BareAll(y)
    ensures SameRing(r, a, q, b)
  {
    forall i | 0 <= i < |x| ensures x[i].hash == y[i].hash && x[i].identity == y[i].identity {
      assert BareAll(x)[i] == BareAll(y)[i];
    }
  }

  lemma {:induction false} CompiledRingsAgree(r: Ring, a: seq<WeightedEndpoint>, q: Ring, b: seq<WeightedEndpoint>,
                                              h: (string, nat) -> nat)
    requires multiset(a) == multiset(b) && DistinctIdentities(a) && DistinctIdentities(b)
    requires IsRingFor(r, a, h) && IsRingFor(q, b, h) && |Active(a, |a|)| > 1
    ensures SameRing(r, a, q, b)
  {
    hide SameRing, Owned, RingOf, Normalized, Active, Capped, DistinctIdentities, Built, BareAll, GcdOf;
    RingOrderIrrelevant(a, b, h);
    CompiledRingIsValid(r, a, h);
    CompiledRingIsValid(q, b, h);
    OwnersAgree(r, a, RingOf(Normalized(Active(a, |a|)), h), q, b, RingOf(Normalized(Active(b, |b|)), h));
  }

  lemma SameRingChoice(a: seq<WeightedEndpoint>, r: Ring, f: nat -> bool, x: nat, okX: bool,
                       b: seq<WeightedEndpoint>, q: Ring, g: nat -> bool, y: nat, okY: bool, sum: nat)
    requires SameRing(r, a, q, b) && ValidRing(r, |a|) && ValidRing(q, |b|) && SameIdentities(a, f, b, g)
    requires IsChoice(r, sum, f, x, okX) && IsChoice(q, sum, g, y, okY)
    ensures okX == okY
    ensures okX ==> x < |a| && y < |b| && a[x].identity == b[y].identity
  {
    hide IsClockwiseFirst;
    var i: nat :| IsSearch(r.hashes, sum, i) &&
             IsClockwiseFirst(r.indexes, if i == |r.hashes| then 0 else i, f, x, okX);
    var j: nat :| IsSearch(q.hashes, sum, j) &&
             IsClockwiseFirst(q.indexes, if j == |q.hashes| then 0 else j, g, y, okY);
    SearchUnique(r.hashes, sum, i, j);
    FirstAlike(r.indexes, f, x, okX, q.indexes, g, y, okY, if i == |r.hashes| then 0 else i);
  }

  /**
   Declaration order does not matter to a request: rings compiled from permuted endpoint lists choose the same
   identity for the same key, as long as the same identities are selectable.
   */
  lemma ChoiceOrderIrrelevant(a: seq<WeightedEndpoint>, r: Ring, f: nat -> bool, x: nat, okX: bool,
                              b: seq<WeightedEndpoint>, q: Ring, g: nat -> bool, y: nat, okY: bool,
                              h: (string, nat) -> nat, sum: nat)
    requires multiset(a) == multiset(b) && DistinctIdentities(a) && DistinctIdentities(b)
    requires IsRingFor(r, a, h) && ValidRing(r, |a|) && IsRingFor(q, b, h) && ValidRing(q, |b|)
    requires SameIdentities(a, f, b, g)
    requires IsChoice(r, sum, f, x, okX) && IsChoice(q, sum, g, y, okY)
    ensures okX == okY
    ensures okX ==> x < |a| && y < |b| && a[x].identity == b[y].identity
  {
    hide Active, Normalized, RingOf, Capped, DistinctIdentities, Built, GcdOf, PlainAll, SameRing;
    ActivePermuted(a, b);
    ActiveSizes(a, b);
    if |Active(a, |a|)| == 1 {
      SinglesAlike(a, b);
    } else {
      CompiledRingsAgree(r, a, q, b, h);
      hide IsRingFor, IsChoice, SameIdentities;
      assert SameRing(r, a, q, b);
      SameRingChoice(a, r, f, x, okX, b, q, g, y, okY, sum);
    }
  }

  lemma {:induction false} ActiveSizes(a: seq<WeightedEndpoint>, b: seq<WeightedEndpoint>)
    requires multiset(PlainAll(Active(a, |a|))) == multiset(PlainAll(Active(b, |b|)))
    ensures |Active(a, |a|)| == |Active(b, |b|)|
  {
    var x, y := PlainAll(Active(a, |a|)), PlainAll(Active(b, |b|));
    assert |multiset(x)| == |x| && |multiset(y)| == |y|;
  }

  lemma {:induction false} SinglesAlike(a: seq<WeightedEndpoint>, b: seq<WeightedEndpoint>)
    requires |Active(a, |a|)| == |Active(b, |b|)| == 1
    requires multiset(PlainAll(Active(a, |a|))) == multiset(PlainAll(Active(b, |b|)))
    ensures var x, y := Active(a, |a|)[0].index, Active(b, |b|)[0].index;
            x < |a| && y < |b| && a[x].identity == b[y].identity
  {
    var xs, ys := PlainAll(Active(a, |a|)), PlainAll(Active(b, |b|));
    SameElements(xs, ys, xs[0]);
    ActiveIdentity(a, |a|, 0);
    ActiveIdentity(b, |b|, 0);
  }
}
