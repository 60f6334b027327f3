/**
 What the compiled balancers give to the endpoints as they are configured
 (internal/upstream/wrr.go and chash.go).

 The statements are about configured weights and identities and about what a schedule
 or a ring visibly holds; quotas, remainders and slots of the compilation do not appear.
 */
module BalancerMeaning {
  import opened Ordering
  import opened Counting
  import opened Apportion
  import opened Wrr
  import opened Continuum
  import opened RingOrder

  // ----- weights

  /** Every weight is a multiple of `d`. */
  ghost predicate Common(d: nat, endpoints: seq<WeightedEndpoint>) {
    d > 0 && forall i | 0 <= i < |endpoints| :: endpoints[i].weight % d == 0
  }

  /** The greatest number all weights are multiples of. */
  ghost predicate Greatest(g: nat, endpoints: seq<WeightedEndpoint>) {
    Common(g, endpoints) && forall d: nat :: Common(d, endpoints) ==> d <= g
  }

  /** A weight divided by the divisor. */
  function Over(w: nat, g: nat): nat
    requires g > 0
  {
    w / g
  }

  /** The weights of the first `n` endpoints, divided by `g`, added up. */
  function WeightSum(endpoints: seq<WeightedEndpoint>, n: nat, g: nat): nat
    requires n <= |endpoints| && g > 0
  {
    if n == 0 then 0 else WeightSum(endpoints, n - 1, g) + Over(endpoints[n - 1].weight, g)
  }

  /** How many of the first `n` endpoints have a weight. */
  function Weighted(endpoints: seq<WeightedEndpoint>, n: nat): nat
    requires n <= |endpoints|
  {
    if n == 0 then 0 else Weighted(endpoints, n - 1) + if endpoints[n - 1].weight > 0 then 1 else 0
  }

  lemma ModIsDivides(d: nat, w: nat)
    requires d > 0
    ensures w % d == 0 <==> Divides(d, w)
  {
    if w % d == 0 { assert w == Product(d, w / d); }
    if Divides(d, w) {
      var k: nat :| w == Product(d, k);
      QuotientUnique(w, d, k);
    }
  }

  lemma DividesAtMost(d: nat, g: nat)
    requires Divides(d, g) && g > 0
    ensures d <= g
  {
    var k: nat :| g == Product(d, k);
    ZeroProduct(d, k);
    Grows(d, k);
  }

  lemma {:induction false} WeightsDivide(endpoints: seq<WeightedEndpoint>, d: nat)
    requires d > 0
    ensures var ws := Weights(Active(endpoints, |endpoints|));
            (forall w | w in ws :: Divides(d, w)) <==> Common(d, endpoints)
  {
    var es := Active(endpoints, |endpoints|);
    var ws := Weights(es);
    hide Active, Divides;
    if forall w | w in ws :: Divides(d, w) {
      forall i: nat | i < |endpoints| ensures endpoints[i].weight % d == 0 {
        if endpoints[i].weight > 0 {
          ActiveHas(endpoints, |endpoints|, i);
          var k :| 0 <= k < |es| && es[k].index == i;
          assert es[k] in es && ws[k] in ws;
          ModIsDivides(d, ws[k]);
        }
      }
    }
    if Common(d, endpoints) {
      forall w | w in ws ensures Divides(d, w) {
        var k :| 0 <= k < |ws| && ws[k] == w;
        assert es[k] in es;
        ModIsDivides(d, w);
      }
    }
  }

  /** The divisor the compilers compute is the greatest common divisor of the configured weights. */
  lemma {:induction false} DivisorMeaning(endpoints: seq<WeightedEndpoint>, g: nat)
    requires Active(endpoints, |endpoints|) != []
    ensures Greatest(g, endpoints) <==> g == GcdOf(Weights(Active(endpoints, |endpoints|)))
  {
    var es := Active(endpoints, |endpoints|);
    var ws := Weights(es);
    forall w | w in ws ensures w > 0 {
      var k :| 0 <= k < |ws| && ws[k] == w;
      assert es[k] in es;
    }
    GcdOfIsGcd(ws);
    hide Active, Divides, GcdOf, Common;
    var m := GcdOf(ws);
    WeightsDivide(endpoints, m);
    forall d: nat | Common(d, endpoints) ensures d <= m {
      assert d > 0 by { CommonPositive(d, endpoints); }
      WeightsDivide(endpoints, d);
      DividesAtMost(d, m);
    }
  }

  lemma CommonPositive(d: nat, endpoints: seq<WeightedEndpoint>)
    requires Common(d, endpoints)
    ensures d > 0
  {
  }

  lemma {:induction false} ActiveSums(endpoints: seq<WeightedEndpoint>, n: nat, g: nat, f: Entry -> int)
    requires n <= |endpoints| && g > 0 && forall e: Entry :: f(e) == Over(e.weight, g)
    ensures SumBy(Active(endpoints, n), f) == WeightSum(endpoints, n, g)
  {
    hide Over, Active, SumBy, Distinct;
    ActiveStep(endpoints, n);
    if n == 0 {
      NoEntries(f);
    } else {
      ActiveSums(endpoints, n - 1, g, f);
      var last := Entry(n - 1, endpoints[n - 1].identity, endpoints[n - 1].weight);
      SumConcat(Active(endpoints, n - 1), [last], f);
      SumOne(last, f);
      ZeroQuotient(g);
    }
  }

  lemma {:induction false} ActiveNumber(endpoints: seq<WeightedEndpoint>, n: nat)
    requires n <= |endpoints|
    ensures |Active(endpoints, n)| == Weighted(endpoints, n)
  {
    hide Active, Distinct;
    ActiveStep(endpoints, n);
    if n > 0 { ActiveNumber(endpoints, n - 1); }
  }

  lemma NoEntries(f: Entry -> int)
    ensures SumBy([], f) == 0
  {
  }

  lemma {:induction false} ActiveStep(endpoints: seq<WeightedEndpoint>, n: nat)
    requires n <= |endpoints|
    ensures Active(endpoints, n) ==
            if n == 0 then []
            else if endpoints[n - 1].weight == 0 then Active(endpoints, n - 1)
            else Active(endpoints, n - 1) + [Entry(n - 1, endpoints[n - 1].identity, endpoints[n - 1].weight)]
  {
  }

  lemma ZeroQuotient(g: nat)
    requires g > 0
    ensures Over(0, g) == 0
  {
    QuotientUnique(0, g, 0);
  }

  /** What the apportionment works on: the weighted endpoints with their weights divided by the divisor. */
  ghost function EntriesFor(endpoints: seq<WeightedEndpoint>): seq<Entry> {
    var es := Active(endpoints, |endpoints|);
    if es == [] || GcdOf(Weights(es)) == 0 then [] else Normalized(es)
  }

  lemma {:induction false} EntriesMeaning(endpoints: seq<WeightedEndpoint>, g: nat)
    requires EntriesFor(endpoints) != [] && Greatest(g, endpoints)
    ensures |EntriesFor(endpoints)| == Weighted(endpoints, |endpoints|)
    ensures Total(EntriesFor(endpoints)) == WeightSum(endpoints, |endpoints|, g)
    ensures forall k | 0 <= k < |EntriesFor(endpoints)| ::
              var e := EntriesFor(endpoints)[k];
              e.index < |endpoints| && e.weight == Over(endpoints[e.index].weight, g)
              && e.identity == endpoints[e.index].identity
  {
    var es := Active(endpoints, |endpoints|);
    DivisorMeaning(endpoints, g);
    var f, weight := (e: Entry) => Over(e.weight, g), (e: Entry) => e.weight;
    ActiveSums(endpoints, |endpoints|, g, f);
    ActiveNumber(endpoints, |endpoints|);
    hide Active, GcdOf, SumBy;
    var ns := Normalized(es);
    SumThrough(ns, es, weight, f);
    TotalIsSum(ns, weight);
    forall k | 0 <= k < |es|
      ensures var e := ns[k];
              e.index < |endpoints| && e.weight == Over(endpoints[e.index].weight, g)
              && e.identity == endpoints[e.index].identity
    {
      assert es[k] in es;
      ActiveIdentity(endpoints, |endpoints|, k);
    }
  }

  /** An endpoint has an entry exactly when it has a weight. */
  lemma {:induction false} EntryIffWeighted(endpoints: seq<WeightedEndpoint>, i: nat)
    requires i < |endpoints| && EntriesFor(endpoints) != []
    ensures endpoints[i].weight > 0 <==>
            exists k | 0 <= k < |EntriesFor(endpoints)| :: EntriesFor(endpoints)[k].index == i
  {
    var es := Active(endpoints, |endpoints|);
    if endpoints[i].weight > 0 {
      ActiveHas(endpoints, |endpoints|, i);
      hide Active, GcdOf;
      var k :| 0 <= k < |es| && es[k].index == i;
      assert EntriesFor(endpoints)[k].index == i;
    }
    if k :| 0 <= k < |EntriesFor(endpoints)| && EntriesFor(endpoints)[k].index == i {
      hide Active, GcdOf;
      assert es[k] in es;
    }
  }

  lemma EntryIdentity(endpoints: seq<WeightedEndpoint>, k: nat)
    requires k < |EntriesFor(endpoints)|
    ensures var e := EntriesFor(endpoints)[k]; e.index < |endpoints| && e.identity == endpoints[e.index].identity
  {
    ActiveIdentity(endpoints, |endpoints|, k);
  }

  lemma {:induction false} TotalIsSum(es: seq<Entry>, weight: Entry -> int)
    requires forall e: Entry :: weight(e) == e.weight
    ensures Total(es) == SumBy(es, weight)
  {
    SumEqual(es, (e: Entry) => e.weight, weight);
  }

  // ----- apportionment in configured terms

  /**
   The units of `cap` for an endpoint with normalized weight `w`, out of `n` weighted endpoints whose normalized
   weights add up to `total`: `unit` per weight if that fits, and otherwise one and its rounded-down part of
   the rest, perhaps with one more.
   */
  ghost predicate Apportioned(w: nat, n: nat, total: nat, unit: nat, cap: nat, units: nat) {
    if w == 0 then units == 0
    else if total * unit <= cap then units == w * unit
    else total > 0 && n <= cap && (units == 1 + w * (cap - n) / total || units == 2 + w * (cap - n) / total)
  }

  /** Who gets the one more: a larger remainder, then a smaller identity, then an earlier endpoint. */
  predicate FirstServed(endpoints: seq<WeightedEndpoint>, i: nat, j: nat, g: nat, rest: nat, total: nat)
    requires i < |endpoints| && j < |endpoints| && g > 0 && total > 0
  {
    var p, q := Over(endpoints[i].weight, g) * rest % total, Over(endpoints[j].weight, g) * rest % total;
    p > q || (p == q && (|| LexLess(endpoints[i].identity, endpoints[j].identity)
                         || (endpoints[i].identity == endpoints[j].identity && i < j)))
  }

  lemma ShareMeaning(e: Entry, es: seq<Entry>, cap: nat)
    requires Capped(es, cap) && e in es && 0 <= Leftover(es, cap) <= |es|
    ensures var base := 1 + e.weight * (cap - |es|) / Total(es);
            Share(e, es, cap) == if e in Favoured(es, cap) then base + 1 else base
  {
    hide Favoured, Leftover;
  }

  /** Whoever is favoured comes before whoever is not. */
  lemma FavouredAhead(es: seq<Entry>, cap: nat, a: Entry, b: Entry)
    requires Capped(es, cap) && 0 <= Leftover(es, cap) <= |es|
    requires a in es && b in es && a in Favoured(es, cap) && b !in Favoured(es, cap)
    ensures Ahead(a, b, cap - |es|, Total(es))
  {
    var less := AheadBy(cap - |es|, Total(es));
    var m, sorted := Leftover(es, cap), Sort(es, less);
    AheadIsTotal(cap - |es|, Total(es));
    SortIsSorted(es, less);
    SameElements(sorted, es, b);
    hide Sort, Leftover, Total, Capped;
    var i :| 0 <= i < m && sorted[..m][i] == a;
    var j :| 0 <= j < |sorted| && sorted[j] == b;
    assert i < j && !less(sorted[j], sorted[i]);
    LexTrichotomy(a.identity, b.identity);
    DistinctIndexes(es, a, b);
  }

  lemma DistinctIndexes(es: seq<Entry>, a: Entry, b: Entry)
    requires Distinct(es) && a in es && b in es && a != b
    ensures a.index != b.index
  {
    var i :| 0 <= i < |es| && es[i] == a;
    var j :| 0 <= j < |es| && es[j] == b;
  }

  // ----- weighted round robin

  /** What compiling has laid out, with the slots it was emitted from. */
  ghost predicate Laid(schedule: seq<nat>, es: seq<Entry>, slots: seq<Slot>) {
    && Capped(es, 8192) && es != [] && SlotsFor(slots, es, 8192) && |schedule| == ScheduleLength(es, 8192)
    && EarliestFirst(schedule, slots) && FairPrefixes(schedule, slots) && OnlyIndexes(schedule, slots)
    && forall k | 0 <= k < |es| :: Count(schedule, es[k].index) == slots[k].quota
  }

  lemma {:induction false} LaidOut(s: Selector, endpoints: seq<WeightedEndpoint>) returns (slots: seq<Slot>)
    requires IsSelectorFor(s, endpoints) && s.Scheduled?
    ensures Laid(s.schedule, EntriesFor(endpoints), slots)
  {
    hide Active, GcdOf, Count, Capped, Quota, EarliestFirst, FairPrefixes, Normalized, OnlyIndexes, ScheduleLength;
    var es := Normalized(Active(endpoints, |endpoints|));
    slots :| SlotsFor(slots, es, MAX_SCHEDULE) && EarliestFirst(s.schedule, slots) && FairPrefixes(s.schedule, slots)
             && OnlyIndexes(s.schedule, slots)
             && forall i | 0 <= i < |es| :: Count(s.schedule, es[i].index) == Quota(es[i], es, MAX_SCHEDULE);
  }

  lemma SlotOf(schedule: seq<nat>, endpoints: seq<WeightedEndpoint>, slots: seq<Slot>, i: nat) returns (k: nat)
    requires Laid(schedule, EntriesFor(endpoints), slots) && i < |endpoints| && endpoints[i].weight > 0
    ensures k < |slots| == |EntriesFor(endpoints)| && slots[k].entry == EntriesFor(endpoints)[k]
    ensures slots[k].entry.index == i && slots[k].entry.identity == endpoints[i].identity
    ensures slots[k].quota == Count(schedule, i) == Quota(slots[k].entry, EntriesFor(endpoints), 8192)
  {
    hide EntriesFor, Count, Capped, Quota, EarliestFirst, FairPrefixes, OnlyIndexes, ScheduleLength;
    EntryIffWeighted(endpoints, i);
    k :| 0 <= k < |EntriesFor(endpoints)| && EntriesFor(endpoints)[k].index == i;
    EntryIdentity(endpoints, k);
  }

  lemma LaidOnlyWeighted(schedule: seq<nat>, endpoints: seq<WeightedEndpoint>, slots: seq<Slot>, x: nat)
    requires Laid(schedule, EntriesFor(endpoints), slots) && x in schedule
    ensures x < |endpoints| && endpoints[x].weight > 0
  {
    hide EntriesFor, Count, Capped, Quota, EarliestFirst, FairPrefixes, ScheduleLength;
    var i :| 0 <= i < |slots| && slots[i].entry.index == x;
    assert EntriesFor(endpoints)[i].index == x;
    EntryIdentity(endpoints, i);
    EntryIffWeighted(endpoints, x);
  }

  lemma {:induction false} NotScheduled(schedule: seq<nat>, i: nat)
    requires i !in schedule
    ensures Count(schedule, i) == 0
  {
    hide Tally;
    forall y | y in schedule ensures !Is(i)(y) {}
    TallyNone(schedule, Is(i));
  }

  lemma ZeroWeight(endpoints: seq<WeightedEndpoint>, g: nat, i: nat)
    requires Common(g, endpoints) && i < |endpoints|
    ensures Over(endpoints[i].weight, g) == 0 <==> endpoints[i].weight == 0
    ensures Over(endpoints[i].weight, g) * g == endpoints[i].weight
  {
    var w := endpoints[i].weight;
    DivisionIdentity(w, g);
    ZeroQuotient(g);
    assert 0 * g == 0;
  }

  lemma QuotaMeaning(e: Entry, es: seq<Entry>, cap: nat)
    requires Capped(es, cap) && e in es
    ensures e.weight > 0 && Total(es) > 0 && 0 <= Leftover(es, cap) <= |es|
    ensures Apportioned(e.weight, |es|, Total(es), 1, cap, Quota(e, es, cap))
    ensures Total(es) > cap ==>
              Quota(e, es, cap) ==
              1 + e.weight * (cap - |es|) / Total(es) + if e in Favoured(es, cap) then 1 else 0
  {
    LeftoverInRange(es, cap);
    ShareMeaning(e, es, cap);
    hide Share, Favoured, Leftover, Total;
  }

  /**
   How often each configured endpoint stands in the schedule: exactly by its weight, over their greatest common
   divisor, when these add up to at most 8192; otherwise its largest-remainder part of 8192 slots.
   */
  lemma {:induction false} ScheduleMeaning(s: Selector, endpoints: seq<WeightedEndpoint>, g: nat, i: nat)
    requires IsSelectorFor(s, endpoints) && s.Scheduled? && Greatest(g, endpoints) && i < |endpoints|
    ensures var total, n := WeightSum(endpoints, |endpoints|, g), Weighted(endpoints, |endpoints|);
            && Apportioned(Over(endpoints[i].weight, g), n, total, 1, 8192, Count(s.schedule, i))
            && |s.schedule| == (if total <= 8192 then total else 8192)
            && (total <= 8192 ==> Count(s.schedule, i) * g == endpoints[i].weight)
  {
    hide Over, EntriesFor, Laid, Apportioned, IsSelectorFor, Count, Common, WeightSum, Weighted, Quota, Total;
    var slots := LaidOut(s, endpoints);
    LaidLength(s.schedule, EntriesFor(endpoints), slots);
    CommonPositive(g, endpoints);
    EntriesMeaning(endpoints, g);
    var total, n := WeightSum(endpoints, |endpoints|, g), Weighted(endpoints, |endpoints|);
    SlotsApportioned(s.schedule, endpoints, slots, g, i);
    ZeroWeight(endpoints, g, i);
    ExactUnits(endpoints[i].weight, g, n, total, 1, 8192, Count(s.schedule, i));
  }

  lemma {:induction false} SlotsApportioned(schedule: seq<nat>, endpoints: seq<WeightedEndpoint>, slots: seq<Slot>,
                                            g: nat, i: nat)
    requires Laid(schedule, EntriesFor(endpoints), slots) && EntriesFor(endpoints) != [] && Greatest(g, endpoints)
    requires Capped(EntriesFor(endpoints), 8192) && i < |endpoints|
    ensures var total, n := WeightSum(endpoints, |endpoints|, g), Weighted(endpoints, |endpoints|);
            Apportioned(Over(endpoints[i].weight, g), n, total, 1, 8192, Count(schedule, i))
  {
    hide Over, Over, EntriesFor, Laid, Apportioned, Count, Common, WeightSum, Weighted, Quota, Total, Capped;
    CommonPositive(g, endpoints);
    EntriesMeaning(endpoints, g);
    if endpoints[i].weight == 0 {
      ZeroQuotient(g);
      if i in schedule { LaidOnlyWeighted(schedule, endpoints, slots, i); }
      NotScheduled(schedule, i);
      NothingApportioned(Weighted(endpoints, |endpoints|), WeightSum(endpoints, |endpoints|, g), 1, 8192);
    } else {
      var k := SlotOf(schedule, endpoints, slots, i);
      QuotaMeaning(slots[k].entry, EntriesFor(endpoints), 8192);
    }
  }

  lemma LaidLength(schedule: seq<nat>, es: seq<Entry>, slots: seq<Slot>)
    requires Laid(schedule, es, slots)
    ensures Capped(es, 8192) && es != [] && |schedule| == if Total(es) <= 8192 then Total(es) else 8192
  {
    hide SlotsFor, EarliestFirst, FairPrefixes, OnlyIndexes, Capped;
    LengthMeaning(es, 8192);
  }

  lemma NothingApportioned(n: nat, total: nat, unit: nat, cap: nat)
    ensures Apportioned(0, n, total, unit, cap, 0)
  {
  }

  /** When everything fits, the units are exactly proportional to the weight. */
  lemma ExactUnits(weight: nat, g: nat, n: nat, total: nat, unit: nat, cap: nat, units: nat)
    requires g > 0 && Over(weight, g) * g == weight && Apportioned(Over(weight, g), n, total, unit, cap, units)
    ensures total * unit <= cap ==> units * g == unit * weight
  {
    var w := Over(weight, g);
    assert 0 * g == 0 && unit * 0 == 0;
    Reordered(w, unit, g);
  }

  lemma Reordered(w: nat, unit: nat, g: nat)
    ensures (w * unit) * g == unit * (w * g)
  {
  }

  lemma LengthMeaning(es: seq<Entry>, cap: nat)
    requires Capped(es, cap)
    ensures ScheduleLength(es, cap) == if Total(es) <= cap then Total(es) else cap
  {
    hide Total;
  }

  /** In a capped schedule the slots left over by rounding go to the largest remainders. */
  lemma {:induction false} ScheduleBonus(s: Selector, endpoints: seq<WeightedEndpoint>, g: nat, i: nat, j: nat)
    requires IsSelectorFor(s, endpoints) && s.Scheduled? && Greatest(g, endpoints)
    requires i < |endpoints| && j < |endpoints| && endpoints[i].weight > 0 && endpoints[j].weight > 0
    requires Weighted(endpoints, |endpoints|) <= 8192 < WeightSum(endpoints, |endpoints|, g)
    requires var total, rest := WeightSum(endpoints, |endpoints|, g), 8192 - Weighted(endpoints, |endpoints|);
             && Count(s.schedule, i) > 1 + Over(endpoints[i].weight, g) * rest / total
             && Count(s.schedule, j) == 1 + Over(endpoints[j].weight, g) * rest / total
    ensures FirstServed(endpoints, i, j, g, 8192 - Weighted(endpoints, |endpoints|),
                        WeightSum(endpoints, |endpoints|, g))
  {
    hide Over, EntriesFor, Laid, IsSelectorFor, Count, Common, WeightSum, Weighted, Quota, Total, Favoured, Leftover,
        Apportioned;
    var slots := LaidOut(s, endpoints);
    LaidLength(s.schedule, EntriesFor(endpoints), slots);
    EntriesMeaning(endpoints, g);
    var k := SlotOf(s.schedule, endpoints, slots, i);
    var l := SlotOf(s.schedule, endpoints, slots, j);
    var a, b := slots[k].entry, slots[l].entry;
    QuotaMeaning(a, EntriesFor(endpoints), 8192);
    QuotaMeaning(b, EntriesFor(endpoints), 8192);
    FavouredAhead(EntriesFor(endpoints), 8192, a, b);
  }

  /** The count of endpoint `i` after `k` slots of the schedule. */
  function After(schedule: seq<nat>, k: nat, i: nat): nat
    requires k <= |schedule|
  {
    Count(schedule[..k], i)
  }

  /**
   The order of the schedule: at every place stands the endpoint whose next share falls due first, with ties to
   the smaller identity and then the earlier endpoint.
   */
  lemma {:induction false} ScheduleOrder(s: Selector, endpoints: seq<WeightedEndpoint>, k: nat, y: nat)
    requires IsSelectorFor(s, endpoints) && s.Scheduled? && k < |s.schedule|
    requires y < |endpoints| && y != s.schedule[k] && After(s.schedule, k, y) < Count(s.schedule, y)
    ensures s.schedule[k] < |endpoints|
    ensures var x := s.schedule[k];
            var left := (After(s.schedule, k, x) + 1) * Count(s.schedule, y);
            var right := (After(s.schedule, k, y) + 1) * Count(s.schedule, x);
            left < right
            || (left == right && (|| LexLess(endpoints[x].identity, endpoints[y].identity)
                                  || (endpoints[x].identity == endpoints[y].identity && x < y)))
  {
    hide EntriesFor, Laid, IsSelectorFor, Count, Less;
    var slots := LaidOut(s, endpoints);
    var x := s.schedule[k];
    LaidOnlyWeighted(s.schedule, endpoints, slots, x);
    CountedIsIn(s.schedule, y);
    LaidOnlyWeighted(s.schedule, endpoints, slots, y);
    var a := SlotOf(s.schedule, endpoints, slots, x);
    var b := SlotOf(s.schedule, endpoints, slots, y);
    DueFirst(s.schedule, k, slots, a, b, EntriesFor(endpoints));
    LessMeaning(Current(slots[a], s.schedule[..k]), Current(slots[b], s.schedule[..k]));
  }

  lemma LessMeaning(a: Slot, b: Slot)
    requires Less(a, b)
    ensures var left, right := (a.emitted + 1) * b.quota, (b.emitted + 1) * a.quota;
            left < right || (left == right && (|| LexLess(a.entry.identity, b.entry.identity)
                                               || (a.entry.identity == b.entry.identity
                                                   && a.entry.index < b.entry.index)))
  {
  }

  lemma DueFirst(s: seq<nat>, k: nat, slots: seq<Slot>, a: nat, b: nat, es: seq<Entry>)
    requires Laid(s, es, slots) && k < |s|
    requires a < |slots| && b < |slots| && slots[a].entry.index == s[k] != slots[b].entry.index
    requires Open(s[..k], slots[b])
    ensures Less(Current(slots[a], s[..k]), Current(slots[b], s[..k]))
  {
    hide Count, Less, Quota, FairPrefixes, OnlyIndexes, ScheduleLength;
    var part := s[..k];
    assert EarliestAfter(part, s[k], slots);
    var i :| 0 <= i < |slots| && slots[i].entry.index == s[k] && Open(part, slots[i])
      && forall j | 0 <= j < |slots| && j != i && Open(part, slots[j]) ::
           Less(Current(slots[i], part), Current(slots[j], part));
    assert i == a;
  }

  /**
   The spread of the schedule: after `k` slots an endpoint has its part of them, short of one share or, with `n`
   weighted endpoints, beyond it by less than `n` slots' worth.
   */
  lemma {:induction false} ScheduleSpread(s: Selector, endpoints: seq<WeightedEndpoint>, k: nat, i: nat)
    requires IsSelectorFor(s, endpoints) && s.Scheduled? && k <= |s.schedule|
    requires i < |endpoints| && endpoints[i].weight > 0
    ensures var part, all, n := After(s.schedule, k, i), |s.schedule|, Weighted(endpoints, |endpoints|);
            && k * Count(s.schedule, i) <= (part + 1) * all
            && part * all <= (k + n - 1) * Count(s.schedule, i)
  {
    hide EntriesFor, Laid, IsSelectorFor, Count, Fair, QuotaSum;
    var slots := LaidOut(s, endpoints);
    var a := SlotOf(s.schedule, endpoints, slots, i);
    LaidFair(s.schedule, k, EntriesFor(endpoints), slots);
    EntryNumber(endpoints);
    FairLowerBound(s.schedule[..k], slots, a);
    FairUpperBound(s.schedule[..k], slots, a);
  }

  lemma LaidFair(s: seq<nat>, k: nat, es: seq<Entry>, slots: seq<Slot>)
    requires Laid(s, es, slots) && k <= |s|
    ensures DistinctSlots(slots) && OnlyIndexes(s[..k], slots) && Fair(s[..k], slots) && QuotaSum(slots) == |s|
    ensures |slots| == |es|
  {
    hide Count, Quota, EarliestFirst, QuotaSum, Fair, Capped, ScheduleLength;
    SlotsFacts(slots, es, 8192);
    forall x | x in s[..k] ensures x in s {}
  }

  lemma {:induction false} EntryNumber(endpoints: seq<WeightedEndpoint>)
    requires EntriesFor(endpoints) != []
    ensures |EntriesFor(endpoints)| == Weighted(endpoints, |endpoints|)
  {
    ActiveNumber(endpoints, |endpoints|);
  }

  /** The slot at the counter value `n`. */
  function Turn(schedule: seq<nat>, n: nat): nat
    requires schedule != []
  {
    schedule[n % |schedule|]
  }

  /** Selections walk the schedule in order: the `k`-th slot from the counter, when the earlier ones are passed over. */
  lemma SelectMeaning(schedule: seq<nat>, start: nat, k: nat, selectable: nat -> bool, ordinal: nat, ok: bool)
    requires schedule != [] && k < |schedule| && start + k < 0x1_0000_0000_0000_0000
    requires IsFirstSelectable(schedule, start, selectable, ordinal, ok)
    requires selectable(Turn(schedule, start + k))
    requires forall j | start <= j < start + k :: !selectable(Turn(schedule, j))
    ensures ok && ordinal == Turn(schedule, start + k)
  {
    forall j: nat | j <= k ensures SlotAt(schedule, start, j) == Turn(schedule, start + j) {
      ModUnique(start + j, WORD, 0, start + j);
    }
    assert selectable(SlotAt(schedule, start, k));
    if ok {
      var m :| 0 <= m < |schedule| && ordinal == SlotAt(schedule, start, m) && selectable(ordinal)
        && forall j | 0 <= j < m :: !selectable(SlotAt(schedule, start, j));
      assert m <= k;
    }
  }

  // ----- the ring

  lemma {:induction false} CountIsSum(indexes: seq<nat>, ring: seq<Point>, i: nat, f: Point -> int)
    requires |indexes| == |ring| && forall j | 0 <= j < |ring| :: indexes[j] == ring[j].endpointIndex
    requires forall p: Point :: f(p) == if p.endpointIndex == i then 1 else 0
    ensures Count(indexes, i) == SumBy(ring, f)
  {
    if indexes != [] { CountIsSum(indexes[..|indexes| - 1], ring[..|ring| - 1], i, f); }
  }

  lemma {:induction false} OwnPoints(es: seq<Entry>, k: nat, h: (string, nat) -> nat, m: nat, f: Point -> int)
    requires Capped(es, MAX_POINTS) && k <= |es| && m < |es|
    requires forall p: Point :: f(p) == if p.endpointIndex == es[m].index then 1 else 0
    ensures SumBy(AllPoints(es, k, h), f) == if m < k then PointCount(es[m], es) else 0
  {
    hide PointCount, PointsOf, AllPoints, SumBy;
    PointsStep(es, k, h);
    if k == 0 {
      NoPoints(f);
    } else {
      OwnPoints(es, k - 1, h, m, f);
      var own := PointsOf(es[k - 1], PointCount(es[k - 1], es), h);
      SumConcat(AllPoints(es, k - 1, h), own, f);
      PointsSum(es[k - 1], PointCount(es[k - 1], es), h, es[m].index, f);
    }
  }

  lemma NoPoints(f: Point -> int)
    ensures SumBy([], f) == 0
  {
  }

  lemma {:induction false} PointsSum(e: Entry, n: nat, h: (string, nat) -> nat, i: nat, f: Point -> int)
    requires forall p: Point :: f(p) == if p.endpointIndex == i then 1 else 0
    ensures SumBy(PointsOf(e, n, h), f) == if e.index == i then n else 0
  {
    var ps, one := PointsOf(e, n, h), if e.index == i then 1 else 0;
    forall p | p in ps ensures one <= f(p) <= one {
      var v :| 0 <= v < |ps| && ps[v] == p;
    }
    SumBounds(ps, f, one, one);
    assert |ps| * one == if e.index == i then n else 0;
  }

  /** How many points of the ring an entry has. */
  lemma RingCount(r: Ring, es: seq<Entry>, h: (string, nat) -> nat, m: nat)
    requires Capped(es, MAX_POINTS) && Built(r, RingOf(es, h)) && m < |es|
    ensures Count(r.indexes, es[m].index) == PointCount(es[m], es)
  {
    var i := es[m].index;
    var f := (p: Point) => if p.endpointIndex == i then 1 else 0;
    var ring, all := RingOf(es, h), AllPoints(es, |es|, h);
    assert multiset(ring) == multiset(all);
    hide RingOf, AllPoints, Capped, PointCount, Count, SumBy;
    CountIsSum(r.indexes, ring, i, f);
    SumPermuted(ring, all, f);
    OwnPoints(es, |es|, h, m, f);
  }

  lemma PointCountMeaning(e: Entry, es: seq<Entry>)
    requires Capped(es, MAX_POINTS) && e in es
    ensures e.weight > 0 && Total(es) > 0 && 0 <= Leftover(es, 65536) <= |es|
    ensures Apportioned(e.weight, |es|, Total(es), 64, 65536, PointCount(e, es))
    ensures Total(es) * 64 > 65536 ==>
              PointCount(e, es) ==
              1 + e.weight * (65536 - |es|) / Total(es) + if e in Favoured(es, 65536) then 1 else 0
  {
    LeftoverInRange(es, MAX_POINTS);
    ShareMeaning(e, es, MAX_POINTS);
    hide Share, Favoured, Leftover, Total;
  }

  lemma RingLaidOut(r: Ring, endpoints: seq<WeightedEndpoint>, h: (string, nat) -> nat)
    requires IsRingFor(r, endpoints, h) && r.Points?
    ensures EntriesFor(endpoints) != [] && Capped(EntriesFor(endpoints), 65536)
    ensures Built(r, RingOf(EntriesFor(endpoints), h))
  {
    hide Active, GcdOf, RingOf, Capped;
  }

  /** How many points each configured endpoint has: 64 per normalized weight, or its part of 65536. */
  lemma {:induction false} RingMeaning(r: Ring, endpoints: seq<WeightedEndpoint>, h: (string, nat) -> nat, g: nat,
                                       i: nat)
    requires IsRingFor(r, endpoints, h) && r.Points? && Greatest(g, endpoints) && i < |endpoints|
    ensures var total, n := WeightSum(endpoints, |endpoints|, g), Weighted(endpoints, |endpoints|);
            && Apportioned(Over(endpoints[i].weight, g), n, total, 64, 65536, Count(r.indexes, i))
            && (total * 64 <= 65536 ==> Count(r.indexes, i) * g == 64 * endpoints[i].weight)
  {
    hide Over, EntriesFor, IsRingFor, Count, Common, Capped, WeightSum, Weighted, RingOf, Total, Apportioned, Built;
    RingLaidOut(r, endpoints, h);
    CommonPositive(g, endpoints);
    var total, n := WeightSum(endpoints, |endpoints|, g), Weighted(endpoints, |endpoints|);
    PointsApportioned(r, endpoints, h, g, i);
    ZeroWeight(endpoints, g, i);
    ExactUnits(endpoints[i].weight, g, n, total, 64, 65536, Count(r.indexes, i));
  }

  lemma {:induction false} PointsApportioned(r: Ring, endpoints: seq<WeightedEndpoint>, h: (string, nat) -> nat, g: nat,
                                             i: nat)
    requires EntriesFor(endpoints) != [] && Capped(EntriesFor(endpoints), 65536)
    requires Built(r, RingOf(EntriesFor(endpoints), h)) && Greatest(g, endpoints) && i < |endpoints|
    ensures var total, n := WeightSum(endpoints, |endpoints|, g), Weighted(endpoints, |endpoints|);
            Apportioned(Over(endpoints[i].weight, g), n, total, 64, 65536, Count(r.indexes, i))
  {
    hide Over, EntriesFor, Count, Common, Capped, PointCount, WeightSum, Weighted, RingOf, Total, Apportioned;
    CommonPositive(g, endpoints);
    EntriesMeaning(endpoints, g);
    EntryIffWeighted(endpoints, i);
    var es := EntriesFor(endpoints);
    if endpoints[i].weight == 0 {
      ZeroQuotient(g);
      RingNames(r, es, h, i);
      NotScheduled(r.indexes, i);
      NothingApportioned(Weighted(endpoints, |endpoints|), WeightSum(endpoints, |endpoints|, g), 64, 65536);
    } else {
      var k :| 0 <= k < |es| && es[k].index == i;
      assert es[k] in es;
      RingCount(r, es, h, k);
      PointCountMeaning(es[k], es);
    }
  }

  /** The points left over by rounding go to the largest remainders. */
  lemma {:induction false} RingBonus(r: Ring, endpoints: seq<WeightedEndpoint>, h: (string, nat) -> nat, g: nat, i: nat,
                                     j: nat)
    requires IsRingFor(r, endpoints, h) && r.Points? && Greatest(g, endpoints)
    requires i < |endpoints| && j < |endpoints| && endpoints[i].weight > 0 && endpoints[j].weight > 0
    requires Weighted(endpoints, |endpoints|) <= 65536 < WeightSum(endpoints, |endpoints|, g) * 64
    requires var total, rest := WeightSum(endpoints, |endpoints|, g), 65536 - Weighted(endpoints, |endpoints|);
             && Count(r.indexes, i) > 1 + Over(endpoints[i].weight, g) * rest / total
             && Count(r.indexes, j) == 1 + Over(endpoints[j].weight, g) * rest / total
    ensures FirstServed(endpoints, i, j, g, 65536 - Weighted(endpoints, |endpoints|),
                        WeightSum(endpoints, |endpoints|, g))
  {
    hide Over, EntriesFor, IsRingFor, Count, Common, Capped, PointCount, WeightSum, Weighted, RingOf, Total, Favoured,
        Leftover, Apportioned;
    RingLaidOut(r, endpoints, h);
    EntriesMeaning(endpoints, g);
    EntryIffWeighted(endpoints, i);
    EntryIffWeighted(endpoints, j);
    var es := EntriesFor(endpoints);
    var k :| 0 <= k < |es| && es[k].index == i;
    var l :| 0 <= l < |es| && es[l].index == j;
    assert es[k] in es && es[l] in es;
    RingCount(r, es, h, k);
    RingCount(r, es, h, l);
    PointCountMeaning(es[k], es);
    PointCountMeaning(es[l], es);
    FavouredAhead(es, 65536, es[k], es[l]);
  }

  /** The ring holds the hash of point `v` of the endpoint `i`. */
  ghost predicate HasPoint(r: Ring, hash: nat, i: nat)
    requires r.Points?
  {
    exists j :: 0 <= j < |r.hashes| && j < |r.indexes| && r.hashes[j] == hash && r.indexes[j] == i
  }

  lemma {:induction false} AllPointsAre(es: seq<Entry>, k: nat, h: (string, nat) -> nat, p: Point)
    requires Capped(es, MAX_POINTS) && k <= |es|
    ensures p in AllPoints(es, k, h) <==>
            exists m: nat, v: nat :: IsPointOf(es, h, p, m, v) && m < k
    decreases k
  {
    hide PointCount, AllPoints, Capped, PointsOf;
    PointsStep(es, k, h);
    if k > 0 {
      AllPointsAre(es, k - 1, h, p);
      PointsAre(es, k - 1, h, p);
      if p in PointsOf(es[k - 1], PointCount(es[k - 1], es), h) {
        var v: nat :| IsPointOf(es, h, p, k - 1, v);
      }
    }
  }

  ghost predicate IsPointOf(es: seq<Entry>, h: (string, nat) -> nat, p: Point, m: nat, v: nat)
    requires Capped(es, MAX_POINTS)
  {
    m < |es| && v < PointCount(es[m], es) && p == Point(h(es[m].identity, v), es[m].identity, v, es[m].index)
  }

  lemma PointsAre(es: seq<Entry>, m: nat, h: (string, nat) -> nat, p: Point)
    requires Capped(es, MAX_POINTS) && m < |es|
    ensures p in PointsOf(es[m], PointCount(es[m], es), h) <==> exists v: nat :: IsPointOf(es, h, p, m, v)
  {
    hide PointCount, Capped;
    var own := PointsOf(es[m], PointCount(es[m], es), h);
    if p in own {
      var v: nat :| v < |own| && own[v] == p;
      assert IsPointOf(es, h, p, m, v);
    }
    if v: nat :| IsPointOf(es, h, p, m, v) { assert own[v] == p; }
  }

  /** Which hashes stand on the ring: for each endpoint those of its identity with 0, 1, 2, ..., and no others. */
  lemma {:induction false} RingHashes(r: Ring, endpoints: seq<WeightedEndpoint>, h: (string, nat) -> nat, i: nat,
                                      hash: nat)
    requires IsRingFor(r, endpoints, h) && r.Points? && i < |endpoints|
    ensures HasPoint(r, hash, i) <==>
            exists v: nat :: v < Count(r.indexes, i) && h(endpoints[i].identity, v) == hash
  {
    hide EntriesFor, IsRingFor, Count, Capped, PointCount, RingOf, AllPoints;
    RingLaidOut(r, endpoints, h);
    var es := EntriesFor(endpoints);
    var ring, all := RingOf(es, h), AllPoints(es, |es|, h);
    EntryIffWeighted(endpoints, i);
    if HasPoint(r, hash, i) {
      var j :| 0 <= j < |r.hashes| && r.hashes[j] == hash && r.indexes[j] == i;
      assert ring[j] in ring;
      RingMember(es, h, ring[j]);
      AllPointsAre(es, |es|, h, ring[j]);
      var m: nat, v: nat :| IsPointOf(es, h, ring[j], m, v) && m < |es|;
      RingCount(r, es, h, m);
      EntryIdentity(endpoints, m);
    }
    if v: nat :| v < Count(r.indexes, i) && h(endpoints[i].identity, v) == hash {
      if endpoints[i].weight == 0 {
        RingNames(r, es, h, i);
        NotScheduled(r.indexes, i);
      }
      var m: nat :| m < |es| && es[m].index == i;
      RingCount(r, es, h, m);
      EntryIdentity(endpoints, m);
      RingHas(r, es, h, m, v);
    }
  }

  lemma RingHas(r: Ring, es: seq<Entry>, h: (string, nat) -> nat, m: nat, v: nat)
    requires Capped(es, MAX_POINTS) && Built(r, RingOf(es, h)) && m < |es| && v < PointCount(es[m], es)
    ensures HasPoint(r, h(es[m].identity, v), es[m].index)
  {
    var p := Point(h(es[m].identity, v), es[m].identity, v, es[m].index);
    var ring, all := RingOf(es, h), AllPoints(es, |es|, h);
    SameElements(ring, all, p);
    hide RingOf, AllPoints, Capped, PointCount;
    assert IsPointOf(es, h, p, m, v) && m < |es|;
    AllPointsAre(es, |es|, h, p);
    var j :| 0 <= j < |ring| && ring[j] == p;
    assert r.hashes[j] == p.hash && r.indexes[j] == p.endpointIndex;
  }

  /** Hashes rise around the ring; where they collide, the smaller identity comes first. */
  lemma {:induction false} RingOrdered(r: Ring, endpoints: seq<WeightedEndpoint>, h: (string, nat) -> nat, j: nat,
                                       k: nat)
    requires IsRingFor(r, endpoints, h) && r.Points? && j < k < |r.hashes| && |r.indexes| == |r.hashes|
    ensures r.indexes[j] < |endpoints| && r.indexes[k] < |endpoints| && r.hashes[j] <= r.hashes[k]
    ensures r.hashes[j] == r.hashes[k] ==>
              !LexLess(endpoints[r.indexes[k]].identity, endpoints[r.indexes[j]].identity)
  {
    CompiledRingIsValid(r, endpoints, h);
    hide Active, GcdOf, RingOf, Capped, Owned, LexLess;
    var es := Normalized(Active(endpoints, |endpoints|));
    RingSorted(es, h);
    OwnedAt(r, endpoints, RingOf(es, h), j);
    OwnedAt(r, endpoints, RingOf(es, h), k);
    var a, b := RingOf(es, h)[j], RingOf(es, h)[k];
    assert !PointLess(b, a);
    LexTrichotomy(a.identity, b.identity);
  }

  lemma OwnedAt(r: Ring, endpoints: seq<WeightedEndpoint>, ring: seq<Point>, j: nat)
    requires Owned(r, endpoints, ring) && j < |ring|
    ensures r.Points? && |r.hashes| == |r.indexes| == |ring| && r.hashes[j] == ring[j].hash
    ensures r.indexes[j] < |endpoints| && endpoints[r.indexes[j]].identity == ring[j].identity
  {
  }

  /** Going up from `sum` and around, `a` comes no later than `b`. */
  predicate NoFarther(sum: nat, a: nat, b: nat) {
    if a >= sum then b < sum || a <= b else b < sum && a <= b
  }

  /** The place `d` steps on. */
  function Around(start: nat, d: nat, size: nat): (r: nat)
    requires start < size && d < size
    ensures r < size
  {
    if start + d < size then start + d else start + d - size
  }

  lemma ClockwiseAround(indexes: seq<nat>, start: nat, d: nat)
    requires start < |indexes| && d < |indexes|
    ensures Clockwise(indexes, start, d) == indexes[Around(start, d, |indexes|)]
  {
    var size := |indexes|;
    ModUnique(start + d, size, if start + d < size then 0 else 1, Around(start, d, size));
  }

  /** Fewer steps from the first hash that is not below `sum` means no farther. */
  lemma FewerSteps(hashes: seq<nat>, sum: nat, i: nat, m: nat, d: nat)
    requires Rising(hashes) && IsSearch(hashes, sum, i) && m <= d < |hashes|
    ensures var start := if i == |hashes| then 0 else i;
            NoFarther(sum, hashes[Around(start, m, |hashes|)], hashes[Around(start, d, |hashes|)])
  {
    var start := if i == |hashes| then 0 else i;
    var a, b := Around(start, m, |hashes|), Around(start, d, |hashes|);
    if a != b && !(a >= start && b < start) { assert hashes[a] <= hashes[b]; }
  }

  /** The choice is a selectable endpoint with a point that no selectable endpoint's point precedes clockwise. */
  lemma ClockwiseMeaning(r: Ring, n: nat, sum: nat, selectable: nat -> bool, ordinal: nat)
    requires r.Points? && ValidRing(r, n) && IsChoice(r, sum, selectable, ordinal, true)
    ensures selectable(ordinal)
    ensures exists j :: && 0 <= j < |r.indexes| && r.indexes[j] == ordinal
                        && forall k | 0 <= k < |r.indexes| && selectable(r.indexes[k]) ::
                             NoFarther(sum, r.hashes[j], r.hashes[k])
  {
    hide Clockwise, NoFarther, Rising, IsSearch;
    var size := |r.indexes|;
    var i: nat :| IsSearch(r.hashes, sum, i) &&
             IsClockwiseFirst(r.indexes, if i == |r.hashes| then 0 else i, selectable, ordinal, true);
    SearchInRange(r.hashes, sum, i);
    var start := if i == |r.hashes| then 0 else i;
    var m: nat :| m < size && ordinal == Clockwise(r.indexes, start, m) && selectable(ordinal)
      && forall j | 0 <= j < m :: !selectable(Clockwise(r.indexes, start, j));
    ClockwiseAround(r.indexes, start, m);
    forall k: nat | k < size && selectable(r.indexes[k])
      ensures NoFarther(sum, r.hashes[Around(start, m, size)], r.hashes[k])
    {
      var d := if k >= start then k - start else k + size - start;
      ClockwiseAround(r.indexes, start, d);
      assert selectable(Clockwise(r.indexes, start, d));
      FewerSteps(r.hashes, sum, i, m, d);
    }
  }

  lemma SearchInRange(hashes: seq<nat>, sum: nat, i: nat)
    requires IsSearch(hashes, sum, i)
    ensures i <= |hashes|
  {
  }
}
