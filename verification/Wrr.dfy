/**
 Weighted round robin (internal/upstream/wrr.go).

 Each active endpoint gets a quota of the schedule.  The schedule is emitted by
 always taking the pending slot with the earliest next deadline, `(emitted + 1) / quota`.
 */
module Wrr {
  import opened Wrappers
  import opened Ordering
  import opened Apportion
  import opened Counting

  const MAX_SCHEDULE: nat := 8192
  const WORD: nat := 0x1_0000_0000_0000_0000

  datatype WeightedEndpoint = WeightedEndpoint(identity: string, weight: nat)

  datatype CompileError = NoActiveEndpoint | TooManyEndpoints

  datatype Selector = Direct(ordinal: nat) | Scheduled(schedule: seq<nat>)

  // ----- active endpoints and their quotas

  /** The endpoints of positive weight among the first `n`, with their ordinals. */
  function Active(endpoints: seq<WeightedEndpoint>, n: nat): (es: seq<Entry>)
    requires n <= |endpoints|
    ensures forall e | e in es :: e.index < n && e.weight == endpoints[e.index].weight > 0
    ensures Distinct(es)
  {
    if n == 0 then []
    else
      var before := Active(endpoints, n - 1);
      if endpoints[n - 1].weight == 0 then before
      else before + [Entry(n - 1, endpoints[n - 1].identity, endpoints[n - 1].weight)]
  }

  /** The endpoints that may serve traffic. */
  function Positive(endpoints: seq<WeightedEndpoint>): set<nat> {
    set i | 0 <= i < |endpoints| && endpoints[i].weight > 0
  }

  lemma {:induction false} ActiveHas(endpoints: seq<WeightedEndpoint>, n: nat, i: nat)
    requires i < n <= |endpoints| && endpoints[i].weight > 0
    ensures exists k | 0 <= k < |Active(endpoints, n)| :: Active(endpoints, n)[k].index == i
    decreases n
  {
    var es := Active(endpoints, n);
    if i == n - 1 {
      assert es[|es| - 1].index == i;
    } else {
      ActiveHas(endpoints, n - 1, i);
      var k :| 0 <= k < |Active(endpoints, n - 1)| && Active(endpoints, n - 1)[k].index == i;
      assert es[k].index == i;
    }
  }

  /** The active entries name exactly the endpoints of positive weight. */
  lemma {:induction false} ActiveIsPositive(endpoints: seq<WeightedEndpoint>, i: nat)
    ensures i in Positive(endpoints) <==>
            exists k | 0 <= k < |Active(endpoints, |endpoints|)| :: Active(endpoints, |endpoints|)[k].index == i
  {
    var es := Active(endpoints, |endpoints|);
    if i in Positive(endpoints) { ActiveHas(endpoints, |endpoints|, i); }
    if k :| 0 <= k < |es| && es[k].index == i { assert es[k] in es; }
  }

  method CollectActive(endpoints: seq<WeightedEndpoint>) returns (active: seq<Entry>)
    ensures active == Active(endpoints, |endpoints|)
  {
    active := [];
    for index := 0 to |endpoints|
      invariant active == Active(endpoints, index)
    {
      if endpoints[index].weight != 0 {
        active := active + [Entry(index, endpoints[index].identity, endpoints[index].weight)];
      }
    }
  }

  function Weights(es: seq<Entry>): seq<nat> {
    seq(|es|, i requires 0 <= i < |es| => es[i].weight)
  }

  function Normalized(es: seq<Entry>): (r: seq<Entry>)
    requires es != [] && GcdOf(Weights(es)) > 0
    ensures |r| == |es| && forall i | 0 <= i < |es| :: r[i].index == es[i].index && r[i].identity == es[i].identity
  {
    seq(|es|, i requires 0 <= i < |es| => es[i].(weight := es[i].weight / GcdOf(Weights(es))))
  }

  /** Slots of the schedule for the normalized entry `e`: its weight, or its capped share. */
  ghost function Quota(e: Entry, es: seq<Entry>, cap: nat): nat
    requires Capped(es, cap)
  {
    LeftoverInRange(es, cap);
    if Total(es) <= cap then e.weight else Share(e, es, cap)
  }

  ghost function ScheduleLength(es: seq<Entry>, cap: nat): nat
    requires Capped(es, cap)
  {
    if Total(es) <= cap then Total(es) else cap
  }

  lemma {:induction false} TotalPositive(es: seq<Entry>)
    requires es != [] && forall e | e in es :: e.weight > 0
    ensures Total(es) >= |es|
  {
    SumBounds2(es, (e: Entry) => e.weight);
  }

  lemma {:induction false} SumBounds2<T>(s: seq<T>, f: T -> int)
    requires forall x | x in s :: f(x) >= 1
    ensures SumBy(s, f) >= |s|
  {
    if s != [] { SumBounds2(s[..|s| - 1], f); }
  }

  lemma NormalizedFacts(es: seq<Entry>, cap: nat)
    requires 0 < |es| <= cap && Distinct(es) && forall e | e in es :: e.weight > 0
    ensures GcdOf(Weights(es)) > 0
    ensures Capped(Normalized(es), cap)
  {
    var ws := Weights(es);
    forall w | w in ws ensures w > 0 {
      var i :| 0 <= i < |ws| && ws[i] == w;
      assert es[i] in es;
    }
    RatiosKept(ws, 0, 0);
    var r := Normalized(es);
    forall e | e in r ensures e.weight > 0 {
      var i :| 0 <= i < |r| && r[i] == e;
      RatiosKept(ws, i, i);
    }
    TotalPositive(r);
  }

  /** The quotas fill the schedule exactly and leave nobody out. */
  lemma {:induction false} QuotasFill(es: seq<Entry>, cap: nat, quota: Entry -> int)
    requires Capped(es, cap) && forall e | e in es :: quota(e) == Quota(e, es, cap)
    ensures SumBy(es, quota) == ScheduleLength(es, cap)
    ensures forall e | e in es :: quota(e) >= 1
  {
    LeftoverInRange(es, cap);
    if Total(es) <= cap {
      SumEqual(es, quota, (e: Entry) => e.weight);
    } else {
      SharesSumToCap(es, cap, quota);
    }
  }

  // ----- the deadline order

  predicate Less(a: Slot, b: Slot) {
    var left, right := (a.emitted + 1) * b.quota, (b.emitted + 1) * a.quota;
    if left != right then left < right
    else if a.entry.identity != b.entry.identity then LexLess(a.entry.identity, b.entry.identity)
    else a.entry.index < b.entry.index
  }

  /** The deadline of `a` is not after the deadline of `b`. */
  predicate NotAfter(a: Slot, b: Slot) {
    (a.emitted + 1) * b.quota <= (b.emitted + 1) * a.quota
  }

  lemma MulShuffle(a: int, b: int, c: int)
    ensures (a * b) * c == (a * c) * b
  {
  }

  lemma CrossTransitive(x: nat, a: nat, y: nat, b: nat, z: nat, c: nat)
    requires x * b <= y * a && y * c <= z * b && b > 0
    ensures x * c <= z * a
  {
    ProductMonotone(x * b, y * a, c);
    ProductMonotone(y * c, z * b, a);
    MulShuffle(x, b, c);
    MulShuffle(y, a, c);
    MulShuffle(z, b, a);
    CancelFactor(b, x * c, z * a);
  }

  lemma CancelFactor(k: nat, p: int, q: int)
    requires k > 0 && p * k <= q * k
    ensures p <= q
  {
    if p > q {
      assert (p - q) * k == p * k - q * k;
      ProductMonotone(1, p - q, k);
    }
  }

  lemma NotAfterTransitive(a: Slot, b: Slot, c: Slot)
    requires NotAfter(a, b) && NotAfter(b, c) && b.quota > 0
    ensures NotAfter(a, c)
  {
    CrossTransitive(a.emitted + 1, a.quota, b.emitted + 1, b.quota, c.emitted + 1, c.quota);
  }

  /** On slots of different indexes the heap order is a strict total order. */
  lemma LessTotal(a: Slot, b: Slot)
    requires a.entry.index != b.entry.index
    ensures Less(a, b) <==> !Less(b, a)
    ensures Less(a, b) ==> NotAfter(a, b)
  {
    LexTrichotomy(a.entry.identity, b.entry.identity);
  }

  lemma LessTransitive(a: Slot, b: Slot, c: Slot)
    requires Less(a, b) && Less(b, c) && a.quota > 0 && b.quota > 0 && c.quota > 0
    ensures Less(a, c)
  {
    NotAfterTransitive(a, b, c);
    if NotAfter(c, a) {
      NotAfterTransitive(c, a, b);
      NotAfterTransitive(b, c, a);
      LexTrichotomy(a.entry.identity, b.entry.identity);
      LexTrichotomy(b.entry.identity, c.entry.identity);
      LexTrichotomy(a.entry.identity, c.entry.identity);
      if LexLess(a.entry.identity, b.entry.identity) && LexLess(b.entry.identity, c.entry.identity) {
        LexTransitive(a.entry.identity, b.entry.identity, c.entry.identity);
      }
    }
  }

  /** `heap.Pop`: removes the slot that precedes all others. */
  method PopLeast(heap: seq<Slot>) returns (slot: Slot, rest: seq<Slot>, ghost at: nat)
    requires heap != [] && (forall p | p in heap :: p.quota > 0) && DistinctSlots(heap)
    ensures slot in heap && multiset(heap) == multiset(rest) + multiset{slot}
    ensures forall p | p in rest :: Less(slot, p)
    ensures at < |heap| && slot == heap[at] && rest == Drop(heap, at)
    ensures forall j | 0 <= j < |heap| && j != at :: Less(slot, heap[j])
  {
    hide Less;
    var best := 0;
    for k := 1 to |heap|
      invariant best < k
      invariant forall j | 0 <= j < k && j != best :: Less(heap[best], heap[j])
    {
      LessTotal(heap[k], heap[best]);
      if Less(heap[k], heap[best]) {
        forall j | 0 <= j < k ensures Less(heap[k], heap[j]) {
          if j != best { LessTransitive(heap[k], heap[best], heap[j]); }
        }
        best := k;
      }
    }
    slot, rest, at := heap[best], Drop(heap, best), best;
    DropMultiset(heap, best);
  }

  // ----- counting occurrences

  function Is(x: nat): nat -> bool { (y: nat) => y == x }

  function Count(s: seq<nat>, x: nat): nat {
    Tally(s, Is(x))
  }

  ghost predicate OnlyIndexes(s: seq<nat>, slots: seq<Slot>) {
    forall x | x in s :: exists i | 0 <= i < |slots| :: slots[i].entry.index == x
  }

  ghost predicate DistinctSlots(slots: seq<Slot>) {
    forall i, j | 0 <= i < j < |slots| :: slots[i].entry.index != slots[j].entry.index
  }

  lemma {:induction false} OneIndicator(slots: seq<Slot>, x: nat, f: Slot -> int)
    requires DistinctSlots(slots) && forall p | p in slots :: f(p) == if p.entry.index == x then 1 else 0
    ensures SumBy(slots, f) == if exists i | 0 <= i < |slots| :: slots[i].entry.index == x then 1 else 0
  {
    if slots != [] {
      var before, last := slots[..|slots| - 1], slots[|slots| - 1];
      OneIndicator(before, x, f);
      if exists i | 0 <= i < |before| :: before[i].entry.index == x {
        var i :| 0 <= i < |before| && before[i].entry.index == x;
        assert slots[i].entry.index == x;
      }
      if last.entry.index == x { assert slots[|slots| - 1].entry.index == x; }
    }
  }

  /** Every schedule entry is counted for exactly one slot. */
  lemma {:induction false} CountsSum(s: seq<nat>, slots: seq<Slot>, f: Slot -> int)
    requires DistinctSlots(slots) && OnlyIndexes(s, slots)
    requires forall p: Slot :: f(p) == Count(s, p.entry.index)
    ensures SumBy(slots, f) == |s|
  {
    if s == [] {
      SumBounds(slots, f, 0, 0);
      assert |slots| * 0 == 0;
    } else {
      var before, x := s[..|s| - 1], s[|s| - 1];
      var g, one := (p: Slot) => Count(before, p.entry.index), (p: Slot) => if p.entry.index == x then 1 else 0;
      assert x in s && forall y | y in before :: y in s;
      CountsSum(before, slots, g);
      OneIndicator(slots, x, one);
      SumPlus(slots, g, one, f);
    }
  }

  // ----- fairness

  /** No slot is more than one step ahead of its proportion to another. */
  ghost predicate Fair(s: seq<nat>, slots: seq<Slot>) {
    forall i, j | 0 <= i < |slots| && 0 <= j < |slots| :: FairPair(s, slots[i], slots[j])
  }

  predicate FairPair(s: seq<nat>, a: Slot, b: Slot) {
    Count(s, a.entry.index) * b.quota <= (Count(s, b.entry.index) + 1) * a.quota
  }

  ghost predicate FairPrefixes(s: seq<nat>, slots: seq<Slot>) {
    forall k | 0 <= k <= |s| :: Fair(s[..k], slots)
  }

  /** `x` is the slot with the earliest next deadline among those whose quota is not used up by `s`. */
  ghost predicate EarliestAfter(s: seq<nat>, x: nat, slots: seq<Slot>) {
    exists i | 0 <= i < |slots| ::
      && slots[i].entry.index == x && Open(s, slots[i])
      && forall j | 0 <= j < |slots| && j != i && Open(s, slots[j]) :: Less(Current(slots[i], s), Current(slots[j], s))
  }

  predicate Open(s: seq<nat>, slot: Slot) {
    Count(s, slot.entry.index) < slot.quota
  }

  /** The slot as it stands after the prefix `s`. */
  function Current(slot: Slot, s: seq<nat>): Slot {
    slot.(emitted := Count(s, slot.entry.index))
  }

  /** Every entry of the schedule is the earliest deadline at its turn. */
  ghost predicate EarliestFirst(s: seq<nat>, slots: seq<Slot>) {
    forall k | 0 <= k < |s| :: EarliestAfter(s[..k], s[k], slots)
  }

  lemma EarliestUnique(s: seq<nat>, x: nat, y: nat, slots: seq<Slot>)
    requires DistinctSlots(slots) && EarliestAfter(s, x, slots) && EarliestAfter(s, y, slots)
    ensures x == y
  {
    hide Tally, Less;
    var i :| 0 <= i < |slots| && slots[i].entry.index == x && Open(s, slots[i])
      && forall j | 0 <= j < |slots| && j != i && Open(s, slots[j]) :: Less(Current(slots[i], s), Current(slots[j], s));
    var m :| 0 <= m < |slots| && slots[m].entry.index == y && Open(s, slots[m])
      && forall j | 0 <= j < |slots| && j != m && Open(s, slots[j]) :: Less(Current(slots[m], s), Current(slots[j], s));
    if i != m { LessTotal(Current(slots[i], s), Current(slots[m], s)); }
  }

  /** The order leaves no choice: there is one schedule of each length, whatever the heap does inside. */
  lemma {:induction false} ScheduleUnique(s: seq<nat>, t: seq<nat>, slots: seq<Slot>)
    requires DistinctSlots(slots) && EarliestFirst(s, slots) && EarliestFirst(t, slots) && |s| == |t|
    ensures s == t
  {
    hide EarliestAfter;
    if s != [] {
      var n := |s| - 1;
      assert forall k | 0 <= k < n :: s[..n][..k] == s[..k] && t[..n][..k] == t[..k];
      ScheduleUnique(s[..n], t[..n], slots);
      EarliestUnique(s[..n], s[n], t[n], slots);
      assert s == s[..n] + [s[n]] && t == t[..n] + [t[n]];
    }
  }

  function QuotaSum(slots: seq<Slot>): int {
    SumBy(slots, (p: Slot) => p.quota)
  }

  /** After `k` slots, an endpoint has at least its proportional share less one: `k * a <= (e + 1) * L`. */
  lemma {:induction false} FairLowerBound(s: seq<nat>, slots: seq<Slot>, i: nat)
    requires DistinctSlots(slots) && OnlyIndexes(s, slots) && Fair(s, slots) && i < |slots|
    ensures |s| * slots[i].quota <= (Count(s, slots[i].entry.index) + 1) * QuotaSum(slots)
  {
    var a, e := slots[i].quota, Count(s, slots[i].entry.index);
    var count, quota := (p: Slot) => Count(s, p.entry.index), (p: Slot) => p.quota;
    hide Tally, SumBy, Fair;
    CountsSum(s, slots, count);
    forall p | p in slots ensures count(p) * a <= quota(p) * (e + 1) {
      var j :| 0 <= j < |slots| && slots[j] == p;
      FairTowards(s, slots, j, i);
    }
    WeightedSums(slots, count, a, quota, e + 1);
  }

  /** Terms compared one by one, each side with its own factor. */
  lemma {:induction false} WeightedSums<T>(s: seq<T>, f: T -> int, a: int, g: T -> int, b: int)
    requires forall x | x in s :: f(x) * a <= g(x) * b
    ensures SumBy(s, f) * a <= b * SumBy(s, g)
  {
    if s != [] {
      var init, x := s[..|s| - 1], s[|s| - 1];
      WeightedSums(init, f, a, g, b);
      assert (SumBy(init, f) + f(x)) * a == SumBy(init, f) * a + f(x) * a;
      assert b * (SumBy(init, g) + g(x)) == b * SumBy(init, g) + g(x) * b;
    }
  }

  lemma {:induction false} FairTowards(s: seq<nat>, slots: seq<Slot>, j: nat, i: nat)
    requires Fair(s, slots) && i < |slots| && j < |slots|
    ensures Count(s, slots[j].entry.index) * slots[i].quota <= slots[j].quota * (Count(s, slots[i].entry.index) + 1)
  {
    hide Tally;
    assert FairPair(s, slots[j], slots[i]);
    assert slots[j].quota * (Count(s, slots[i].entry.index) + 1) ==
        (Count(s, slots[i].entry.index) + 1) * slots[j].quota;
  }

  /** After `k` slots, `n` endpoints: `e * L <= (k + n - 1) * a`. */
  lemma {:induction false} FairUpperBound(s: seq<nat>, slots: seq<Slot>, i: nat)
    requires DistinctSlots(slots) && OnlyIndexes(s, slots) && Fair(s, slots) && i < |slots|
    ensures Count(s, slots[i].entry.index) * QuotaSum(slots) <= (|s| + |slots| - 1) * slots[i].quota
  {
    var me, a, e := slots[i].entry.index, slots[i].quota, Count(s, slots[i].entry.index);
    var quota := (p: Slot) => p.quota;
    var ahead := (p: Slot) => if p.entry.index == me then Count(s, p.entry.index) else Count(s, p.entry.index) + 1;
    AheadSum(s, slots, i, ahead);
    hide Tally, SumBy, OnlyIndexes, DistinctSlots, Fair;
    forall p | p in slots ensures quota(p) * e <= ahead(p) * a {
      var j :| 0 <= j < |slots| && slots[j] == p;
      FairAgainst(s, slots, i, j);
    }
    WeightedSums(slots, quota, e, ahead, a);
    Commuted(SumBy(slots, quota), e, a, |s| + |slots| - 1);
  }

  lemma Commuted(q: int, e: int, a: int, n: int)
    requires q * e <= a * n
    ensures e * q <= n * a
  {
  }

  lemma {:induction false} AheadSum(s: seq<nat>, slots: seq<Slot>, i: nat, ahead: Slot -> int)
    requires DistinctSlots(slots) && OnlyIndexes(s, slots) && i < |slots|
    requires forall p: Slot ::
                 ahead(p) == Count(s, p.entry.index) + if p.entry.index == slots[i].entry.index then 0 else 1
    ensures SumBy(slots, ahead) == |s| + |slots| - 1
  {
    hide Tally;
    var count := (p: Slot) => Count(s, p.entry.index);
    var slack := (p: Slot) => if p.entry.index == slots[i].entry.index then 0 else 1;
    CountsSum(s, slots, count);
    SlackSum(slots, i, slack);
    SumPlus(slots, count, slack, ahead);
  }

  lemma {:induction false} FairAgainst(s: seq<nat>, slots: seq<Slot>, i: nat, j: nat)
    requires DistinctSlots(slots) && Fair(s, slots) && i < |slots| && j < |slots|
    ensures var me, other := slots[i].entry.index, slots[j].entry.index;
            slots[j].quota * Count(s, me) <=
            (if other == me then Count(s, other) else Count(s, other) + 1) * slots[i].quota
  {
    hide Tally;
    assert FairPair(s, slots[i], slots[j]);
    assert slots[j].quota * Count(s, slots[i].entry.index) == Count(s, slots[i].entry.index) * slots[j].quota;
  }

  lemma {:induction false} SlackSum(slots: seq<Slot>, i: nat, slack: Slot -> int)
    requires DistinctSlots(slots) && i < |slots|
    requires forall p: Slot :: slack(p) == if p.entry.index == slots[i].entry.index then 0 else 1
    ensures SumBy(slots, slack) == |slots| - 1
  {
    var one, mine := (p: Slot) => 1, (p: Slot) => if p.entry.index == slots[i].entry.index then 1 else 0;
    OneIndicator(slots, slots[i].entry.index, mine);
    SumBounds(slots, one, 1, 1);
    SumPlus(slots, slack, mine, one);
  }

  // ----- emitting the schedule

  /** The heap holds, for the slot positions `at`, the slots whose quota is not used up. */
  ghost predicate Pending(heap: seq<Slot>, at: seq<nat>, s: seq<nat>, slots: seq<Slot>) {
    && |at| == |heap|
    && (forall k | 0 <= k < |at| ::
         at[k] < |slots| && heap[k] == Current(slots[at[k]], s) && heap[k].emitted < heap[k].quota)
    && (forall j, k | 0 <= j < k < |at| :: at[j] != at[k])
    && (forall i: nat | i < |slots| :: i in at || Count(s, slots[i].entry.index) == slots[i].quota)
  }

  function Remaining(heap: seq<Slot>): int {
    SumBy(heap, (p: Slot) => p.quota - p.emitted)
  }

  /** Emitting the earliest pending slot keeps the schedule fair. */
  lemma EmitKeepsFair(heap: seq<Slot>, at: seq<nat>, s: seq<nat>, slots: seq<Slot>, k: nat)
    requires DistinctSlots(slots) && Pending(heap, at, s, slots) && Fair(s, slots) && k < |heap|
    requires forall j | 0 <= j < |heap| :: NotAfter(heap[k], heap[j])
    ensures Fair(s + [heap[k].entry.index], slots)
  {
    hide Tally, NotAfter, FairPair, DistinctSlots;
    forall i, j | 0 <= i < |slots| && 0 <= j < |slots|
      ensures FairPair(s + [heap[k].entry.index], slots[i], slots[j])
    {
      EmitKeepsPair(heap, at, s, slots, k, i, j);
    }
  }

  lemma EmitKeepsPair(heap: seq<Slot>, at: seq<nat>, s: seq<nat>, slots: seq<Slot>, k: nat, i: nat, j: nat)
    requires DistinctSlots(slots) && Pending(heap, at, s, slots) && Fair(s, slots) && k < |heap|
    requires forall j | 0 <= j < |heap| :: NotAfter(heap[k], heap[j])
    requires i < |slots| && j < |slots|
    ensures FairPair(s + [heap[k].entry.index], slots[i], slots[j])
  {
    hide Tally;
    var x, a, b := heap[k].entry.index, slots[i], slots[j];
    TallySnoc(s, x, Is(a.entry.index));
    TallySnoc(s, x, Is(b.entry.index));
    assert FairPair(s, a, b);
    var ea, eb := Count(s, a.entry.index), Count(s, b.entry.index);
    if a.entry.index != x {
      ProductMonotone(eb + 1, Count(s + [x], b.entry.index) + 1, a.quota);
    } else if i == j {
      ProductMonotone(ea + 1, ea + 2, a.quota);
    } else {
      assert at[k] == i && b.entry.index != x;
      if j in at {
        var m :| 0 <= m < |at| && at[m] == j;
        assert NotAfter(heap[k], heap[m]);
      } else {
        AheadOfFinished(ea, a.quota, eb);
      }
    }
  }

  lemma AheadOfFinished(ea: nat, qa: nat, qb: nat)
    requires ea < qa
    ensures (ea + 1) * qb <= (qb + 1) * qa
  {
    ProductMonotone(ea + 1, qa, qb);
    assert qa * qb == qb * qa;
    ProductMonotone(qb, qb + 1, qa);
  }

  /** What stays in the heap when the slot at `k` is popped and emitted. */
  lemma PoppedRest(heap: seq<Slot>, at: seq<nat>, s: seq<nat>, slots: seq<Slot>, k: nat)
    requires DistinctSlots(slots) && Pending(heap, at, s, slots) && k < |heap|
    ensures var rest, where_, t := Drop(heap, k), Drop(at, k), s + [heap[k].entry.index];
            && (forall m | 0 <= m < |rest| ::
                  && where_[m] < |slots| && rest[m] == Current(slots[where_[m]], t) && rest[m].emitted < rest[m].quota
                  && where_[m] != at[k])
            && (forall j, m | 0 <= j < m < |rest| :: where_[j] != where_[m])
  {
    hide Tally;
    var rest, where_, x := Drop(heap, k), Drop(at, k), heap[k].entry.index;
    forall m | 0 <= m < |rest| ensures rest[m] == Current(slots[where_[m]], s + [x]) {
      TallySnoc(s, x, Is(slots[where_[m]].entry.index));
    }
  }

  lemma {:induction false} PoppedCoverage(heap: seq<Slot>, at: seq<nat>, s: seq<nat>, slots: seq<Slot>, k: nat)
    requires DistinctSlots(slots) && Pending(heap, at, s, slots) && k < |heap|
    ensures var where_, t := Drop(at, k), s + [heap[k].entry.index];
            forall i: nat | i < |slots| && i != at[k] :: i in where_ || Count(t, slots[i].entry.index) == slots[i].quota
    ensures Count(s + [heap[k].entry.index], heap[k].entry.index) == heap[k].emitted + 1
  {
    hide Tally;
    var where_, x := Drop(at, k), heap[k].entry.index;
    TallySnoc(s, x, Is(x));
    forall m | 0 <= m < |at| && m != k ensures at[m] in where_ {
      assert at[m] == where_[if m < k then m else m - 1];
    }
    forall i: nat | i < |slots| && i != at[k]
      ensures i in where_ || Count(s + [x], slots[i].entry.index) == slots[i].quota
    {
      TallySnoc(s, x, Is(slots[i].entry.index));
    }
  }

  lemma PendingAfter(heap: seq<Slot>, at: seq<nat>, s: seq<nat>, slots: seq<Slot>, k: nat, next: seq<Slot>,
                     then_: seq<nat>)
    requires DistinctSlots(slots) && Pending(heap, at, s, slots) && k < |heap|
    requires var slot := heap[k].(emitted := heap[k].emitted + 1);
             if slot.emitted < slot.quota
             then next == Drop(heap, k) + [slot] && then_ == Drop(at, k) + [at[k]]
             else next == Drop(heap, k) && then_ == Drop(at, k)
    ensures Pending(next, then_, s + [heap[k].entry.index], slots)
  {
    hide Tally;
    PoppedRest(heap, at, s, slots, k);
    PoppedCoverage(heap, at, s, slots, k);
    assert |then_| == |at| ==> then_[|then_| - 1] == at[k];
  }

  ghost predicate Fresh(slots: seq<Slot>) {
    DistinctSlots(slots) && forall p | p in slots :: p.emitted == 0 && p.quota >= 1
  }

  lemma PendingAtStart(slots: seq<Slot>)
    requires Fresh(slots)
    ensures Pending(slots, Indexes(|slots|), [], slots)
    ensures FairPrefixes([], slots) && EarliestFirst([], slots)
  {
    var at := Indexes(|slots|);
    forall i: nat | i < |slots| ensures i in at { assert at[i] == i; }
    forall i, j | 0 <= i < |slots| && 0 <= j < |slots| ensures FairPair([], slots[i], slots[j]) {
      NonNegative(1, slots[i].quota);
      assert 0 * slots[j].quota == 0;
    }
  }

  lemma RemainingAtStart(slots: seq<Slot>)
    requires Fresh(slots)
    ensures Remaining(slots) == QuotaSum(slots)
  {
    SumEqual(slots, (p: Slot) => p.quota - p.emitted, (p: Slot) => p.quota);
  }

  /** The heap loop of `compileWRR`. */
  method EmitSchedule(slots: seq<Slot>) returns (schedule: seq<nat>)
    requires Fresh(slots)
    ensures FairPrefixes(schedule, slots) && EarliestFirst(schedule, slots) && OnlyIndexes(schedule, slots)
    ensures forall i | 0 <= i < |slots| :: Count(schedule, slots[i].entry.index) == slots[i].quota
    ensures |schedule| == QuotaSum(slots)
  {
    hide Fair, SumBy, Tally, Less, Drop, FairPrefixes, EarliestFirst, EarliestAfter, Remaining, QuotaSum;
    var heap := slots;
    ghost var at := Indexes(|slots|);
    schedule := [];
    PendingAtStart(slots);
    RemainingAtStart(slots);
    while heap != []
      invariant Pending(heap, at, schedule, slots)
      invariant FairPrefixes(schedule, slots) && EarliestFirst(schedule, slots) && OnlyIndexes(schedule, slots)
      invariant |schedule| + Remaining(heap) == QuotaSum(slots)
      decreases QuotaSum(slots) - |schedule|
    {
      PendingDistinct(heap, at, schedule, slots);
      var slot, rest, k := PopLeast(heap);
      ghost var before, popped, were := schedule, heap, at;
      FairNow(schedule, slots);
      LeastIsEarliest(heap, at, schedule, slots, k);
      EmitKeepsFair(heap, at, schedule, slots, k);
      RemainingBounds(heap);
      schedule := schedule + [slot.entry.index];
      slot := slot.(emitted := slot.emitted + 1);
      if slot.emitted < slot.quota {
        heap, at := rest + [slot], Drop(at, k) + [at[k]];
      } else {
        heap, at := rest, Drop(at, k);
      }
      PendingAfter(popped, were, before, slots, k, heap, at);
      RemainingAfter(popped, k, heap);
      ExtendPrefixes(before, popped[k].entry.index, slots);
      ExtendEarliest(before, popped[k].entry.index, slots);
      assert slots[were[k]].entry.index == popped[k].entry.index;
    }
    NothingRemains();
  }

  lemma PendingDistinct(heap: seq<Slot>, at: seq<nat>, s: seq<nat>, slots: seq<Slot>)
    requires DistinctSlots(slots) && Pending(heap, at, s, slots)
    ensures DistinctSlots(heap)
  {
    hide Tally;
    forall i, j | 0 <= i < j < |heap| ensures heap[i].entry.index != heap[j].entry.index {
      assert at[i] != at[j];
      assert slots[at[i]].entry.index != slots[at[j]].entry.index;
    }
  }

  lemma LeastIsEarliest(heap: seq<Slot>, at: seq<nat>, s: seq<nat>, slots: seq<Slot>, k: nat)
    requires DistinctSlots(slots) && Pending(heap, at, s, slots) && DistinctSlots(heap) && k < |heap|
    requires forall j | 0 <= j < |heap| && j != k :: Less(heap[k], heap[j])
    ensures EarliestAfter(s, heap[k].entry.index, slots)
    ensures forall j | 0 <= j < |heap| :: NotAfter(heap[k], heap[j])
  {
    hide Tally, Less;
    var i := at[k];
    forall j | 0 <= j < |slots| && j != i && Open(s, slots[j])
      ensures Less(Current(slots[i], s), Current(slots[j], s))
    {
      assert j in at;
      var m :| 0 <= m < |at| && at[m] == j;
    }
    forall j | 0 <= j < |heap| ensures NotAfter(heap[k], heap[j]) {
      if j != k { LessTotal(heap[k], heap[j]); }
    }
  }

  lemma ExtendEarliest(s: seq<nat>, x: nat, slots: seq<Slot>)
    requires EarliestFirst(s, slots) && EarliestAfter(s, x, slots)
    ensures EarliestFirst(s + [x], slots)
  {
    hide EarliestAfter;
    var t := s + [x];
    forall k | 0 <= k < |t| ensures EarliestAfter(t[..k], t[k], slots) {
      assert t[..k] == s[..k];
      if k == |s| { assert s[..k] == s; }
    }
  }

  lemma NothingRemains()
    ensures Remaining([]) == 0
  {
  }

  lemma FairNow(s: seq<nat>, slots: seq<Slot>)
    requires FairPrefixes(s, slots)
    ensures Fair(s, slots)
  {
    assert s[..|s|] == s;
  }

  lemma ExtendPrefixes(s: seq<nat>, x: nat, slots: seq<Slot>)
    requires FairPrefixes(s, slots) && Fair(s + [x], slots)
    ensures FairPrefixes(s + [x], slots)
  {
    var t := s + [x];
    forall k | 0 <= k <= |t| ensures Fair(t[..k], slots) {
      if k <= |s| { assert t[..k] == s[..k]; } else { assert t[..k] == t; }
    }
  }

  lemma RemainingBounds(heap: seq<Slot>)
    requires forall p | p in heap :: p.emitted < p.quota
    ensures Remaining(heap) >= |heap|
  {
    SumBounds2(heap, (p: Slot) => p.quota - p.emitted);
  }

  lemma RemainingAfter(heap: seq<Slot>, at: nat, next: seq<Slot>)
    requires at < |heap| && heap[at].emitted < heap[at].quota
    requires var slot := heap[at].(emitted := heap[at].emitted + 1);
             next == if slot.emitted < slot.quota then Drop(heap, at) + [slot] else Drop(heap, at)
    ensures Remaining(next) == Remaining(heap) - 1
  {
    var f := (p: Slot) => p.quota - p.emitted;
    DropSum(heap, at, f);
    var slot := heap[at].(emitted := heap[at].emitted + 1);
    if slot.emitted < slot.quota { SumConcat(Drop(heap, at), [slot], f); SumOne(slot, f); }
  }

  // ----- compiling

  ghost predicate SlotsFor(slots: seq<Slot>, es: seq<Entry>, cap: nat)
    requires Capped(es, cap)
  {
    && |slots| == |es|
    && forall i | 0 <= i < |es| ::
       slots[i].entry == es[i] && slots[i].emitted == 0 && slots[i].quota == Quota(es[i], es, cap)
  }

  lemma SlotsFacts(slots: seq<Slot>, es: seq<Entry>, cap: nat)
    requires Capped(es, cap) && SlotsFor(slots, es, cap)
    ensures Fresh(slots) && QuotaSum(slots) == ScheduleLength(es, cap)
  {
    forall p | p in slots ensures p.emitted == 0 && p.quota >= 1 {
      var i :| 0 <= i < |slots| && slots[i] == p;
      assert es[i] in es;
    }
    var quota := (e: Entry) => Quota(e, es, cap);
    hide Quota;
    QuotasFill(es, cap, quota);
    SumThrough(slots, es, (p: Slot) => p.quota, quota);
  }

  lemma {:induction false} SumThrough<A, B>(a: seq<A>, b: seq<B>, f: A -> int, g: B -> int)
    requires |a| == |b| && forall i | 0 <= i < |a| :: f(a[i]) == g(b[i])
    ensures SumBy(a, f) == SumBy(b, g)
  {
    if a != [] { SumThrough(a[..|a| - 1], b[..|b| - 1], f, g); }
  }

  /** Gives every slot its quota: `compileWRR` up to the heap. */
  method AssignQuotas(es: seq<Entry>, cap: nat) returns (slots: seq<Slot>)
    requires Capped(es, cap)
    ensures SlotsFor(slots, es, cap)
  {
    var total := 0;
    for i := 0 to |es|
      invariant total == Total(es[..i])
    {
      total := total + es[i].weight;
      assert es[..i + 1][..i] == es[..i];
    }
    assert es[..|es|] == es;
    if total <= cap {
      return seq(|es|, i requires 0 <= i < |es| => Slot(es[i], es[i].weight, 0, 0));
    }
    var active := new Slot[|es|](i requires 0 <= i < |es| => Slot(es[i], 0, 0, 0));
    assert EntriesOf(active[..]) == es;
    AssignCapped(active, total, cap);
    slots := active[..];
    forall i | 0 <= i < |es| ensures slots[i].entry == es[i] { assert EntriesOf(slots)[i] == es[i]; }
  }

  /** Divides every weight by their greatest common divisor. */
  method NormalizeWeights(es: seq<Entry>) returns (r: seq<Entry>)
    requires es != [] && GcdOf(Weights(es)) > 0
    ensures r == Normalized(es)
  {
    ghost var ws := Weights(es);
    var divisor := es[0].weight;
    assert ws[..1] == [es[0].weight];
    for i := 1 to |es|
      invariant divisor == GcdOf(ws[..i])
    {
      divisor := GreatestCommonDivisor(divisor, es[i].weight);
      assert ws[..i + 1][..i] == ws[..i];
    }
    assert ws[..|es|] == ws;
    r := [];
    for i := 0 to |es|
      invariant r == Normalized(es)[..i]
    {
      r := r + [es[i].(weight := es[i].weight / divisor)];
    }
  }

  /** What a compiled schedule promises for the normalized active endpoints `es`. */
  ghost predicate IsSchedule(schedule: seq<nat>, es: seq<Entry>, cap: nat) {
    && Capped(es, cap)
    && |schedule| == ScheduleLength(es, cap)
    && exists slots :: SlotsFor(slots, es, cap) && EarliestFirst(schedule, slots) && FairPrefixes(schedule, slots)
                       && OnlyIndexes(schedule, slots)
                       && forall i | 0 <= i < |es| :: Count(schedule, es[i].index) == Quota(es[i], es, cap)
  }

  /** What compiling `endpoints` yields: the one active endpoint, or a schedule for all of them. */
  ghost predicate IsSelectorFor(s: Selector, endpoints: seq<WeightedEndpoint>) {
    var es := Active(endpoints, |endpoints|);
    && 1 <= |es| <= MAX_SCHEDULE
    && if |es| == 1 then s == Direct(es[0].index)
       else GcdOf(Weights(es)) > 0 && s.Scheduled? && IsSchedule(s.schedule, Normalized(es), MAX_SCHEDULE)
  }

  method CompileWrr(endpoints: seq<WeightedEndpoint>) returns (r: Result<Selector, CompileError>)
    ensures r == Err(NoActiveEndpoint) <==> Positive(endpoints) == {}
    ensures r == Err(TooManyEndpoints) <==> |Active(endpoints, |endpoints|)| > MAX_SCHEDULE
    ensures r.Ok? ==> IsSelectorFor(r.value, endpoints)
  {
    var active := CollectActive(endpoints);
    NoneActive(endpoints);
    hide Active;
    if active == [] { return Err(NoActiveEndpoint); }
    if |active| == 1 { return Ok(Direct(active[0].index)); }
    if |active| > MAX_SCHEDULE { return Err(TooManyEndpoints); }
    NormalizedFacts(active, MAX_SCHEDULE);
    var es := NormalizeWeights(active);
    hide IsSchedule, Capped;
    var schedule := BuildSchedule(es);
    r := Ok(Scheduled(schedule));
  }

  method BuildSchedule(es: seq<Entry>) returns (schedule: seq<nat>)
    requires Capped(es, MAX_SCHEDULE)
    ensures IsSchedule(schedule, es, MAX_SCHEDULE)
  {
    var slots := AssignQuotas(es, MAX_SCHEDULE);
    SlotsFacts(slots, es, MAX_SCHEDULE);
    schedule := EmitSchedule(slots);
    hide FairPrefixes, EarliestFirst, OnlyIndexes, Capped, Quota, QuotaSum;
  }

  lemma {:induction false} NoneActive(endpoints: seq<WeightedEndpoint>)
    ensures Positive(endpoints) == {} <==> Active(endpoints, |endpoints|) == []
  {
    var es := Active(endpoints, |endpoints|);
    if es != [] { ActiveIsPositive(endpoints, es[0].index); }
    if i :| i in Positive(endpoints) { ActiveIsPositive(endpoints, i); }
  }

  /** The endpoints a selector can name. */
  function Named(s: Selector): set<nat> {
    match s
    case Direct(ordinal) => {ordinal}
    case Scheduled(schedule) => set x | x in schedule
  }

  lemma {:induction false} CountedIsIn(s: seq<nat>, x: nat)
    requires Count(s, x) > 0
    ensures x in s
  {
    hide Tally;
    if x !in s {
      forall y | y in s ensures !Is(x)(y) {}
      TallyNone(s, Is(x));
    }
  }

  /** A schedule for `es` names exactly the indexes of `es`. */
  lemma ScheduleNames(schedule: seq<nat>, es: seq<Entry>, cap: nat, x: nat)
    requires IsSchedule(schedule, es, cap)
    ensures x in schedule <==> exists k | 0 <= k < |es| :: es[k].index == x
  {
    hide Quota, EarliestFirst, FairPrefixes, Count, Capped;
    if k :| 0 <= k < |es| && es[k].index == x {
      QuotaPositive(es[k], es, cap);
      CountedIsIn(schedule, x);
    }
    if x in schedule {
      var slots: seq<Slot> :| SlotsFor(slots, es, cap) && OnlyIndexes(schedule, slots);
      var i :| 0 <= i < |slots| && slots[i].entry.index == x;
      assert es[i].index == x;
    }
  }

  lemma QuotaPositive(e: Entry, es: seq<Entry>, cap: nat)
    requires Capped(es, cap) && e in es
    ensures Quota(e, es, cap) >= 1
  {
  }

  lemma NoEmptySchedule(s: Selector, endpoints: seq<WeightedEndpoint>)
    requires IsSelectorFor(s, endpoints)
    ensures s.Scheduled? ==> s.schedule != []
  {
    hide Active;
    var es := Active(endpoints, |endpoints|);
    if s.Scheduled? { ScheduleNames(s.schedule, Normalized(es), MAX_SCHEDULE, Normalized(es)[0].index); }
  }

  /** No endpoint of positive weight is left out of what compiling yields, and no other gets in. */
  lemma SelectorNamesActive(s: Selector, endpoints: seq<WeightedEndpoint>)
    requires IsSelectorFor(s, endpoints)
    ensures Named(s) == Positive(endpoints)
  {
    hide Active, IsSchedule, GcdOf, Positive;
    var es := Active(endpoints, |endpoints|);
    forall x: nat ensures x in Named(s) <==> x in Positive(endpoints) {
      ActiveIsPositive(endpoints, x);
      if s.Scheduled? { ScheduleNames(s.schedule, Normalized(es), MAX_SCHEDULE, x); }
    }
  }

  // ----- selecting

  /** The schedule slot at `offset` from sequence number `start`, in 64-bit arithmetic. */
  function SlotAt(schedule: seq<nat>, start: nat, offset: nat): nat
    requires schedule != []
  {
    schedule[SlotIndex(|schedule|, start, offset)]
  }

  function SlotIndex(length: nat, start: nat, offset: nat): (i: nat)
    requires length > 0
    ensures i < length
  {
    (start + offset) % WORD % length
  }

  /** The first selectable slot from `start` on, at most one round. */
  ghost predicate IsFirstSelectable(schedule: seq<nat>, start: nat, selectable: nat -> bool, ordinal: nat, ok: bool)
    requires schedule != []
  {
    if ok then
      exists k | 0 <= k < |schedule| ::
        && ordinal == SlotAt(schedule, start, k) && selectable(ordinal)
        && forall j | 0 <= j < k :: !selectable(SlotAt(schedule, start, j))
    else forall k | 0 <= k < |schedule| :: !selectable(SlotAt(schedule, start, k))
  }

  class SelectionState {
    var sequence: nat

    method SelectNext(s: Selector, selectable: nat -> bool) returns (ordinal: nat, ok: bool)
      requires sequence < WORD
      modifies this
      ensures s.Direct? || s.schedule == [] ==> sequence == old(sequence)
      ensures s.Direct? ==> ordinal == s.ordinal && ok == selectable(s.ordinal)
      ensures s.Scheduled? && s.schedule != [] ==>
                && sequence == (old(sequence) + 1) % WORD
                && IsFirstSelectable(s.schedule, old(sequence), selectable, ordinal, ok)
    {
      if s.Direct? { return s.ordinal, selectable(s.ordinal); }
      if s.schedule == [] { return 0, false; }
      var start := sequence;
      sequence := (sequence + 1) % WORD;
      for offset := 0 to |s.schedule|
        invariant forall k | 0 <= k < offset :: !selectable(SlotAt(s.schedule, start, k))
      {
        ordinal := SlotAt(s.schedule, start, offset);
        if selectable(ordinal) { return ordinal, true; }
      }
      return 0, false;
    }
  }

  ghost predicate Reaches(length: nat, start: nat, i: nat)
    requires length > 0
  {
    exists k | 0 <= k < length :: SlotIndex(length, start, k) == i
  }

  ghost predicate CoversAll(length: nat, start: nat)
    requires length > 0
  {
    forall i: nat | i < length :: Reaches(length, start, i)
  }

  /** The counter does not wrap around within one round, or the round length divides the word. */
  predicate SafeStart(length: nat, start: nat)
    requires length > 0
  {
    start + length <= WORD || WORD % length == 0
  }

  lemma ModShift(a: nat, k: nat, m: nat)
    requires m > 0 && k < m
    ensures (a + k) % m == if a % m + k < m then a % m + k else a % m + k - m
  {
    var q, r := a / m, a % m;
    assert a == q * m + r;
    if r + k < m {
      ModUnique(a + k, m, q, r + k);
    } else {
      assert (q + 1) * m == q * m + m;
      ModUnique(a + k, m, q + 1, r + k - m);
    }
  }

  lemma ModUnique(a: nat, m: nat, q: nat, r: nat)
    requires m > 0 && r < m && a == q * m + r
    ensures a % m == r
  {
    var p, t := a / m, a % m;
    assert a == p * m + t;
    assert (p - q) * m == r - t by { assert (p - q) * m == p * m - q * m; }
    if p > q { ProductMonotone(1, p - q, m); }
    if p < q { ProductMonotone(p - q, -1, m); }
  }

  /** Without wrap-around the walk is a plain rotation. */
  lemma PlainRotation(length: nat, start: nat, k: nat)
    requires 0 < length && k < length && start < WORD && SafeStart(length, start)
    ensures SlotIndex(length, start, k) ==
            if start % length + k < length then start % length + k else start % length + k - length
  {
    ModShift(start, k, length);
    if start + k < WORD {
      ModUnique(start + k, WORD, 0, start + k);
    } else {
      ModUnique(start + k, WORD, 1, start + k - WORD);
      var q := WORD / length;
      assert WORD == q * length;
      assert start + k == (start + k - WORD) + q * length;
      ModAddMultiple(start + k - WORD, q, length);
    }
  }

  lemma ModAddMultiple(a: nat, q: nat, m: nat)
    requires m > 0
    ensures (a + q * m) % m == a % m
  {
    var p, r := a / m, a % m;
    assert a == p * m + r;
    assert (p + q) * m == p * m + q * m;
    ModUnique(a + q * m, m, p + q, r);
  }

  lemma SafeCoversAll(length: nat, start: nat)
    requires length > 0 && start < WORD && SafeStart(length, start)
    ensures CoversAll(length, start)
  {
    forall i: nat | i < length ensures Reaches(length, start, i) {
      var r := start % length;
      var k := if r <= i then i - r else i + length - r;
      PlainRotation(length, start, k);
      assert SlotIndex(length, start, k) == i;
    }
  }

  /** Where the walk is when the counter is about to wrap, `c` steps after `start`. */
  lemma SeamPosition(length: nat, start: nat, c: nat)
    requires length > 0 && start + c == WORD && c < length
    ensures var t, r := start % length, WORD % length; t == if c <= r then r - c else r - c + length
  {
    ModShift(start, c, length);
  }

  /** If the counter wraps inside a round whose length does not divide the word, some slot is not visited. */
  lemma UnsafeMissesSlot(length: nat, start: nat)
    requires 0 < length <= WORD && start < WORD && !SafeStart(length, start)
    ensures !CoversAll(length, start)
  {
    var c, r := WORD - start, WORD % length;
    SeamPosition(length, start, c);
    var missed := if c <= r then length - 1 else length + r - c - 1;
    forall k | 0 <= k < length ensures SlotIndex(length, start, k) != missed {
      if k < c {
        ModUnique(start + k, WORD, 0, start + k);
        ModShift(start, k, length);
      } else {
        ModUnique(start + k, WORD, 1, k - c);
        ModUnique(k - c, length, 0, k - c);
      }
    }
    assert !Reaches(length, start, missed);
  }

  /** One round visits every slot exactly when the start is safe. */
  lemma RoundCoversIff(length: nat, start: nat)
    requires 0 < length <= WORD && start < WORD
    ensures CoversAll(length, start) <==> SafeStart(length, start)
  {
    if SafeStart(length, start) { SafeCoversAll(length, start); } else { UnsafeMissesSlot(length, start); }
  }

  /** Some step of the round from `start` looks at endpoint `x`. */
  ghost predicate Tried(schedule: seq<nat>, start: nat, x: nat)
    requires schedule != []
  {
    exists k | 0 <= k < |schedule| :: SlotAt(schedule, start, k) == x
  }

  ghost predicate AllTried(schedule: seq<nat>, start: nat)
    requires schedule != []
  {
    forall x | x in schedule :: Tried(schedule, start, x)
  }

  /** Whatever is selectable, the selection from `start` succeeds exactly when some scheduled endpoint is. */
  ghost predicate Complete(schedule: seq<nat>, start: nat)
    requires schedule != []
  {
    forall selectable: nat -> bool, ordinal: nat, ok: bool ::
      IsFirstSelectable(schedule, start, selectable, ordinal, ok) ==>
        (ok <==> exists x | x in schedule :: selectable(x))
  }

  /** The exact condition: completeness holds if and only if the round looks at every scheduled endpoint. */
  lemma CompleteIff(schedule: seq<nat>, start: nat)
    requires schedule != []
    ensures Complete(schedule, start) <==> AllTried(schedule, start)
  {
    if AllTried(schedule, start) {
      forall selectable: nat -> bool, ordinal: nat, ok: bool
          | IsFirstSelectable(schedule, start, selectable, ordinal, ok)
        ensures ok <==> exists x | x in schedule :: selectable(x)
      {
        TriedSelects(schedule, start, selectable, ordinal, ok);
      }
    }
    if Complete(schedule, start) {
      forall x | x in schedule ensures Tried(schedule, start, x) {
        if !Tried(schedule, start, x) {
          assert Is(x)(x);
          assert IsFirstSelectable(schedule, start, Is(x), 0, false);
        }
      }
    }
  }

  lemma TriedSelects(schedule: seq<nat>, start: nat, selectable: nat -> bool, ordinal: nat, ok: bool)
    requires schedule != [] && AllTried(schedule, start)
    requires IsFirstSelectable(schedule, start, selectable, ordinal, ok)
    ensures ok <==> exists x | x in schedule :: selectable(x)
    ensures ok ==> ordinal in schedule && selectable(ordinal)
  {
    forall x | x in schedule && selectable(x) ensures ok {
      assert Tried(schedule, start, x);
      var k :| 0 <= k < |schedule| && SlotAt(schedule, start, k) == x;
    }
  }

  /** A safe start is a sufficient guard. */
  lemma SafeTriesAll(schedule: seq<nat>, start: nat)
    requires schedule != [] && start < WORD && SafeStart(|schedule|, start)
    ensures AllTried(schedule, start)
  {
    SafeCoversAll(|schedule|, start);
    forall x | x in schedule ensures Tried(schedule, start, x) {
      var i: nat :| i < |schedule| && schedule[i] == x;
      assert Reaches(|schedule|, start, i);
      var k :| 0 <= k < |schedule| && SlotIndex(|schedule|, start, k) == i;
      assert SlotAt(schedule, start, k) == x;
    }
  }

  /** From such a start, selection succeeds exactly when some endpoint of positive weight is selectable. */
  lemma SelectComplete(endpoints: seq<WeightedEndpoint>, schedule: seq<nat>, start: nat, selectable: nat -> bool,
                       ordinal: nat, ok: bool)
    requires IsSelectorFor(Scheduled(schedule), endpoints) && schedule != [] && AllTried(schedule, start)
    requires IsFirstSelectable(schedule, start, selectable, ordinal, ok)
    ensures ok <==> exists x | x in Positive(endpoints) :: selectable(x)
    ensures ok ==> ordinal in Positive(endpoints) && selectable(ordinal)
  {
    hide IsSelectorFor, IsFirstSelectable, AllTried;
    SelectorNamesActive(Scheduled(schedule), endpoints);
    TriedSelects(schedule, start, selectable, ordinal, ok);
    assert forall x :: x in schedule <==> x in Named(Scheduled(schedule));
  }

  /**
   With the slots 0, 1, 2 and the counter at its last value, the round looks at 0, 0, 1: selection fails although
   endpoint 2 is selectable, and a whole cycle never picks it.
   */
  lemma WrapCounterexample()
    ensures var schedule: seq<nat>, start: nat := [0, 1, 2], WORD - 1;
            && IsFirstSelectable(schedule, start, Is(2), 0, false) && 2 in schedule && Is(2)(2)
            && !Complete(schedule, start)
            && Count(Cycle(schedule, start), 2) == 0 && Count(schedule, 2) == 1
  {
    var schedule: seq<nat>, start: nat := [0, 1, 2], WORD - 1;
    ModUnique(WORD - 1, WORD, 0, WORD - 1);
    ModUnique(WORD - 1 + 1, WORD, 1, 0);
    ModUnique(WORD - 1 + 2, WORD, 1, 1);
    assert SlotIndex(3, start, 0) == 0 && SlotIndex(3, start, 1) == 0 && SlotIndex(3, start, 2) == 1;
    assert forall k | 0 <= k < 3 :: SlotAt(schedule, start, k) != 2;
    assert IsFirstSelectable(schedule, start, Is(2), 0, false);
    assert schedule[2] == 2;
    TallyNone(Cycle(schedule, start), Is(2));
    assert schedule == schedule[..2] + [2];
    TallySnoc(schedule[..2], 2, Is(2));
    TallyNone(schedule[..2], Is(2));
  }

  // ----- whole cycles

  /** The ordinals that `|schedule|` consecutive sequence numbers pick when everything is selectable. */
  function Cycle(schedule: seq<nat>, start: nat): seq<nat>
    requires schedule != []
  {
    seq<nat>(|schedule|, k requires 0 <= k < |schedule| => SlotAt(schedule, start + k, 0))
  }

  /** The same without wrap-around. */
  function Rotation(schedule: seq<nat>, start: nat): seq<nat>
    requires schedule != []
  {
    seq<nat>(|schedule|, k requires 0 <= k < |schedule| => schedule[(start + k) % |schedule|])
  }

  lemma {:induction false} RotationShares(schedule: seq<nat>, start: nat, x: nat)
    requires schedule != []
    ensures Count(Rotation(schedule, start), x) == Count(schedule, x)
  {
    hide Tally;
    var r, n := start % |schedule|, |schedule|;
    forall k | 0 <= k < n ensures Rotation(schedule, start)[k] == (schedule[r..] + schedule[..r])[k] {
      ModShift(start, k, n);
    }
    assert Rotation(schedule, start) == schedule[r..] + schedule[..r];
    TallyConcat(schedule[r..], schedule[..r], Is(x));
    TallyConcat(schedule[..r], schedule[r..], Is(x));
    assert schedule == schedule[..r] + schedule[r..];
  }

  /** How many picks of a cycle come after the counter has wrapped. */
  function Wrapped(schedule: seq<nat>, start: nat): nat
    requires schedule != []
  {
    if start + |schedule| <= WORD then 0 else start + |schedule| - WORD
  }

  /** The picks that a plain rotation would make in their place: the `m` slots from position 2^64 on. */
  function Seam(schedule: seq<nat>, m: nat): seq<nat>
    requires schedule != []
  {
    seq<nat>(m, j requires 0 <= j < m => schedule[(WORD + j) % |schedule|])
  }

  lemma CycleAt(schedule: seq<nat>, start: nat, k: nat)
    requires k < |schedule| <= WORD && start < WORD
    ensures start + k < WORD ==> Cycle(schedule, start)[k] == Rotation(schedule, start)[k]
    ensures start + k >= WORD ==>
              start + k - WORD < |schedule| && Cycle(schedule, start)[k] == schedule[start + k - WORD]
  {
    var n := |schedule|;
    assert SlotIndex(n, start + k, 0) == SlotIndex(n, start, k);
    assert Cycle(schedule, start)[k] == SlotAt(schedule, start + k, 0);
    if start + k < WORD {
      ModUnique(start + k, WORD, 0, start + k);
      assert SlotIndex(n, start, k) == (start + k) % n;
    } else {
      ModUnique(start + k, WORD, 1, start + k - WORD);
      ModUnique(start + k - WORD, n, 0, start + k - WORD);
      assert SlotIndex(n, start, k) == start + k - WORD;
    }
  }

  /** A cycle is a rotation up to the wrap, and then the first slots instead of the next ones. */
  lemma CycleParts(schedule: seq<nat>, start: nat)
    requires schedule != [] && |schedule| <= WORD && start < WORD
    ensures var m := Wrapped(schedule, start);
            var c := |schedule| - m;
            && c >= 0
            && Cycle(schedule, start) == Rotation(schedule, start)[..c] + schedule[..m]
            && Rotation(schedule, start) == Rotation(schedule, start)[..c] + Seam(schedule, m)
  {
    hide SlotAt;
    var n, m := |schedule|, Wrapped(schedule, start);
    var c := n - m;
    forall k: nat | k < n ensures Cycle(schedule, start)[k] == (Rotation(schedule, start)[..c] + schedule[..m])[k] {
      CycleAt(schedule, start, k);
    }
    forall k: nat | c <= k < n ensures Rotation(schedule, start)[k] == Seam(schedule, m)[k - c] {
      assert start + k == WORD + (k - c);
    }
  }

  /** Every endpoint gets exactly its quota in the cycle from `start`. */
  ghost predicate ExactShares(schedule: seq<nat>, start: nat)
    requires schedule != []
  {
    forall x: nat :: Count(Cycle(schedule, start), x) == Count(schedule, x)
  }

  /** The exact condition: the slots a wrapped cycle repeats hold the same endpoints as those it skips. */
  ghost predicate SeamBalanced(schedule: seq<nat>, m: nat)
    requires m <= |schedule| && schedule != []
  {
    forall x: nat :: Count(schedule[..m], x) == Count(Seam(schedule, m), x)
  }

  lemma CycleSharesIff(schedule: seq<nat>, start: nat)
    requires schedule != [] && |schedule| <= WORD && start < WORD
    ensures Wrapped(schedule, start) <= |schedule|
    ensures ExactShares(schedule, start) <==> SeamBalanced(schedule, Wrapped(schedule, start))
  {
    hide Tally, Seam;
    var m := Wrapped(schedule, start);
    CycleParts(schedule, start);
    forall x: nat
      ensures Count(Cycle(schedule, start), x) == Count(schedule, x)
              <==> Count(schedule[..m], x) == Count(Seam(schedule, m), x)
    {
      var common := Rotation(schedule, start)[..|schedule| - m];
      TallyConcat(common, schedule[..m], Is(x));
      TallyConcat(common, Seam(schedule, m), Is(x));
      RotationShares(schedule, start, x);
    }
  }

  /** From a safe start any whole cycle gives every endpoint exactly its quota. */
  lemma CycleShares(schedule: seq<nat>, start: nat)
    requires schedule != [] && |schedule| <= WORD && start < WORD && SafeStart(|schedule|, start)
    ensures ExactShares(schedule, start)
  {
    var m := Wrapped(schedule, start);
    forall j | 0 <= j < m ensures schedule[..m][j] == Seam(schedule, m)[j] {
      var q := WORD / |schedule|;
      assert WORD == q * |schedule|;
      ModAddMultiple(j, q, |schedule|);
      ModUnique(j, |schedule|, 0, j);
    }
    assert schedule[..m] == Seam(schedule, m);
    CycleSharesIff(schedule, start);
  }
}
