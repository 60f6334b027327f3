/**
 The mutex sections of the resource registry, as the code runs them on its own state
 (internal/upstream/registry.go, reaper.go and plan.go).
 */
module Registry {
  import opened Wrappers
  import opened ResourceTable

  const MAX_SNAPSHOT_WRR_SLOTS := 8_000_000
  const MAX_SNAPSHOT_HASH_POINTS := 8_000_000

  /** The references of one owner, by kind. */
  datatype Owned = Owned(
    endpoints: seq<Ref>, transports: seq<Ref>, selections: seq<Ref>, health: seq<Ref>, budgets: seq<Ref>)

  const NOTHING := Owned([], [], [], [], [])

  /** In the order in which they are released. */
  function All(o: Owned): seq<Ref> {
    o.endpoints + o.transports + o.selections + o.health + o.budgets
  }

  function Added(o: Owned, r: Ref): Owned {
    match r.key
    case Endpoint(_) => o.(endpoints := o.endpoints + [r])
    case Transport(_) => o.(transports := o.transports + [r])
    case Selection(_, _) => o.(selections := o.selections + [r])
    case Health(_, _, _) => o.(health := o.health + [r])
    case Budget(_, _) => o.(budgets := o.budgets + [r])
  }

  lemma AllCount(o: Owned, x: Ref)
    ensures multiset(All(o))[x] == multiset(o.endpoints)[x] + multiset(o.transports)[x] + multiset(o.selections)[x]
                                   + multiset(o.health)[x] + multiset(o.budgets)[x]
  {
  }

  lemma AddedBag(o: Owned, r: Ref)
    ensures multiset(All(Added(o, r))) == multiset(All(o)) + multiset{r}
  {
    hide All;
    forall x ensures multiset(All(Added(o, r)))[x] == (multiset(All(o)) + multiset{r})[x] {
      AllCount(o, x);
      AllCount(Added(o, r), x);
    }
  }

  // ----- what a plan needs

  /** One endpoint; `parses` says that its URL is an HTTP or HTTPS URL with a host. */
  datatype EndpointSpec = EndpointSpec(identity: string, weight: nat, parses: bool)

  /**
   One normalized upstream; `profile` is None when its transport does not compile, `tables` when its
   balancer does not.
   */
  datatype Upstream = Upstream(
    id: string, algorithm: nat, profile: Option<nat>, endpoints: seq<EndpointSpec>, activeHealth: Option<nat>,
    budget: Option<nat>, tables: Option<Tables>)

  /** The sizes of the compiled schedule and ring. */
  datatype Tables = Tables(slots: nat, points: nat)

  function EndpointKeys(u: Upstream, profile: nat, e: EndpointSpec): seq<Key> {
    if e.weight > 0 && u.activeHealth.Some?
    then [Endpoint(e.identity), Health(e.identity, u.activeHealth.value, profile)]
    else [Endpoint(e.identity)]
  }

  function AllEndpointKeys(u: Upstream, profile: nat, n: nat): seq<Key>
    requires n <= |u.endpoints|
  {
    if n == 0 then [] else AllEndpointKeys(u, profile, n - 1) + EndpointKeys(u, profile, u.endpoints[n - 1])
  }

  function BudgetKeys(u: Upstream): seq<Key> {
    match u.budget
    case Some(limits) => [Budget(u.id, limits)]
    case None => []
  }

  /** The keys one plan acquires, in order. */
  function PlanKeys(u: Upstream, profile: nat): seq<Key> {
    [Transport(profile), Selection(u.id, u.algorithm)] + AllEndpointKeys(u, profile, |u.endpoints|) + BudgetKeys(u)
  }

  /** The keys a snapshot acquires for its first `n` upstreams. */
  function SnapshotKeys(us: seq<Upstream>, n: nat): seq<Key>
    requires n <= |us|
  {
    if n == 0 then []
    else SnapshotKeys(us, n - 1) + match us[n - 1].profile { case Some(p) => PlanKeys(us[n - 1], p) case None => [] }
  }

  /** The slots and points of the first `n` compiled upstreams together. */
  function SlotTotal(us: seq<Upstream>, n: nat): nat
    requires n <= |us|
  {
    if n == 0 then 0 else SlotTotal(us, n - 1) + match us[n - 1].tables { case Some(t) => t.slots case None => 0 }
  }

  function PointTotal(us: seq<Upstream>, n: nat): nat
    requires n <= |us|
  {
    if n == 0 then 0 else PointTotal(us, n - 1) + match us[n - 1].tables { case Some(t) => t.points case None => 0 }
  }

  predicate WithinBudget(us: seq<Upstream>, n: nat)
    requires n <= |us|
  {
    SlotTotal(us, n) <= MAX_SNAPSHOT_WRR_SLOTS && PointTotal(us, n) <= MAX_SNAPSHOT_HASH_POINTS
  }

  /** The totals only grow. */
  lemma {:induction false} OverBudget(us: seq<Upstream>, k: nat, n: nat)
    requires k <= n <= |us| && !WithinBudget(us, k)
    ensures !WithinBudget(us, n)
    decreases n
  {
    if k < n { OverBudget(us, k, n - 1); }
  }

  lemma {:induction false} NoTotals(us: seq<Upstream>)
    ensures SlotTotal(us, 0) == 0 && PointTotal(us, 0) == 0
  {
  }

  lemma TotalsStep(us: seq<Upstream>, i: nat)
    requires i < |us| && us[i].tables.Some?
    ensures SlotTotal(us, i + 1) == SlotTotal(us, i) + us[i].tables.value.slots
    ensures PointTotal(us, i + 1) == PointTotal(us, i) + us[i].tables.value.points
  {
  }

  /** Endpoint `n` of the plan can be had: its URL parses, or a runtime for it is known or acquired just before. */
  predicate ResolvesAt(u: Upstream, profile: nat, known: set<Key>, n: nat)
    requires n < |u.endpoints|
  {
    var e := u.endpoints[n];
    e.parses || Endpoint(e.identity) in known || Endpoint(e.identity) in AllEndpointKeys(u, profile, n)
  }

  /** Transport, endpoints and balancer of one upstream can be had when the runtimes `known` exist. */
  predicate Compiles(u: Upstream, known: set<Key>) {
    && u.profile.Some? && u.tables.Some?
    && forall n: nat | n < |u.endpoints| :: ResolvesAt(u, u.profile.value, known, n)
  }

  function KnownWith(known: set<Key>, keys: seq<Key>): set<Key> { known + set k | k in keys }

  /** Upstream `i` can be had after all those before it. */
  predicate Fine(us: seq<Upstream>, i: nat, known: set<Key>)
    requires i < |us|
  {
    Compiles(us[i], KnownWith(known, SnapshotKeys(us, i)))
  }

  predicate AllFine(us: seq<Upstream>, n: nat, known: set<Key>)
    requires n <= |us|
  {
    forall k: nat | k < n :: Fine(us, k, known)
  }

  /** Upstream `i` is the first with a problem: it cannot be had. */
  predicate CannotHave(us: seq<Upstream>, i: nat, known: set<Key>) {
    i < |us| && AllFine(us, i, known) && WithinBudget(us, i) && !Fine(us, i, known)
  }

  /** Upstream `i` is the first with a problem: it exceeds the balancer budget. */
  predicate Exceeds(us: seq<Upstream>, i: nat, known: set<Key>) {
    i < |us| && AllFine(us, i + 1, known) && WithinBudget(us, i) && !WithinBudget(us, i + 1)
  }

  predicate NoProblem(us: seq<Upstream>, known: set<Key>) {
    AllFine(us, |us|, known) && WithinBudget(us, |us|)
  }

  /** A first problem is of one kind. */
  lemma ProblemsExclude(us: seq<Upstream>, i: nat, j: nat, known: set<Key>)
    requires CannotHave(us, i, known)
    ensures !Exceeds(us, j, known)
  {
    hide Fine, WithinBudget;
    if j < i && !WithinBudget(us, j + 1) { OverBudget(us, j + 1, i); }
  }

  lemma ProblemRulesOutSuccess(us: seq<Upstream>, i: nat, known: set<Key>)
    requires CannotHave(us, i, known) || Exceeds(us, i, known)
    ensures !NoProblem(us, known)
  {
    hide Fine, WithinBudget;
    if !WithinBudget(us, i + 1) { OverBudget(us, i + 1, |us|); }
  }

  /** What comes of a preparation: exactly one of success, an upstream that cannot be had, and a budget exceeded. */
  ghost predicate IsVerdict(us: seq<Upstream>, known: set<Key>, ok: bool, invalid: bool, exceeded: bool) {
    && (ok <==> NoProblem(us, known))
    && (invalid <==> exists i :: CannotHave(us, i, known))
    && (exceeded <==> exists i :: Exceeds(us, i, known))
  }

  lemma VerdictIs(us: seq<Upstream>, known: set<Key>, ok: bool, invalid: bool, i: nat)
    requires if ok then NoProblem(us, known) && !invalid
             else if invalid then CannotHave(us, i, known) else Exceeds(us, i, known)
    ensures IsVerdict(us, known, ok, invalid, !ok && !invalid)
  {
    hide CannotHave, Exceeds, NoProblem;
    if ok {
      forall j: nat ensures !CannotHave(us, j, known) && !Exceeds(us, j, known) {
        if CannotHave(us, j, known) || Exceeds(us, j, known) { ProblemRulesOutSuccess(us, j, known); }
      }
    } else {
      ProblemRulesOutSuccess(us, i, known);
      forall j: nat ensures if invalid then !Exceeds(us, j, known) else !CannotHave(us, j, known) {
        if invalid {
          ProblemsExclude(us, i, j, known);
        } else if CannotHave(us, j, known) {
          ProblemsExclude(us, j, i, known);
        }
      }
    }
  }

  datatype PrepareError = RegistryClosed | RetiredSnapshotLimit | ConfigInvalid | BalancerBudgetExceeded

  // ----- acquiring in order

  /** `t` with references `refs` is what acquiring `keys` makes of `start`. */
  ghost predicate Took(start: Table, keys: seq<Key>, t: Table, refs: multiset<Ref>) {
    t == AcquireAll(start, keys).0 && refs == multiset(AcquireAll(start, keys).1)
  }

  lemma TookOne(start: Table, keys: seq<Key>, t: Table, refs: multiset<Ref>, k: Key)
    requires Took(start, keys, t, refs)
    ensures Took(start, keys + [k], Acquire(t, k).0, refs + multiset{Acquire(t, k).1})
  {
    hide Acquire;
    assert (keys + [k])[..|keys|] == keys;
  }

  lemma {:induction false} AcquireAllKnows(start: Table, keys: seq<Key>)
    ensures AcquireAll(start, keys).0.entries.Keys == KnownWith(start.entries.Keys, keys)
  {
    if keys != [] {
      AcquireAllKnows(start, keys[..|keys| - 1]);
      assert keys == keys[..|keys| - 1] + [keys[|keys| - 1]];
    }
  }

  lemma TookKnows(start: Table, keys: seq<Key>, t: Table, refs: multiset<Ref>)
    requires Took(start, keys, t, refs)
    ensures t.entries.Keys == KnownWith(start.entries.Keys, keys)
  {
    AcquireAllKnows(start, keys);
  }

  lemma TookCounts(start: Table, m: multiset<Ref>, keys: seq<Key>, t: Table, refs: multiset<Ref>)
    requires Counts(start, m) && Took(start, keys, t, refs)
    ensures Counts(t, m + refs)
  {
    hide Counts, AcquireAll;
    AcquireAllCounts(start, m, keys);
  }

  lemma TookNothing(start: Table)
    ensures Took(start, [], start, multiset(All(NOTHING)))
  {
  }

  lemma {:induction false} PrefixOfPlan(u: Upstream, profile: nat, n: nat)
    requires n <= |u.endpoints|
    ensures [Transport(profile), Selection(u.id, u.algorithm)] + AllEndpointKeys(u, profile, n) <= PlanKeys(u, profile)
  {
    PrefixOfEndpoints(u, profile, n, |u.endpoints|);
    PrefixConcat([Transport(profile), Selection(u.id, u.algorithm)], AllEndpointKeys(u, profile, n),
                 AllEndpointKeys(u, profile, |u.endpoints|), BudgetKeys(u));
  }

  lemma PrefixConcat(head: seq<Key>, a: seq<Key>, b: seq<Key>, tail: seq<Key>)
    requires a <= b
    ensures head + a <= head + b + tail
  {
    assert b == a + b[|a|..];
    assert head + b + tail == (head + a) + (b[|a|..] + tail);
  }

  lemma {:induction false} PrefixOfEndpoints(u: Upstream, profile: nat, n: nat, m: nat)
    requires n <= m <= |u.endpoints|
    ensures AllEndpointKeys(u, profile, n) <= AllEndpointKeys(u, profile, m)
    decreases m
  {
    if n < m { PrefixOfEndpoints(u, profile, n, m - 1); }
  }

  /** Giving back what a transaction took restores the entries, in whatever order it is given back. */
  lemma {:induction false} UndoRestores(start: Table, m: multiset<Ref>, keys: seq<Key>, t: Table, refs: seq<Ref>)
    requires Counts(start, m) && Took(start, keys, t, multiset(refs))
    ensures ReleaseAll(t, refs).Some? && ReleaseAll(t, refs).value.entries == start.entries
  {
    hide Counts, AcquireAll, ReleaseAll;
    AcquireAllCounts(start, m, keys);
    ReleaseAllCounts(t, m, refs);
    CountsUnique(start, ReleaseAll(t, refs).value, m);
  }

  /** Transport and selection keys make no difference to what endpoints can be had. */
  lemma SameEndpoints(u: Upstream, profile: nat, known: set<Key>, taken: seq<Key>, more: seq<Key>)
    requires forall k | k in more :: !k.Endpoint?
    ensures forall n: nat | n < |u.endpoints| ::
              ResolvesAt(u, profile, KnownWith(known, taken + more), n) <==>
              ResolvesAt(u, profile, KnownWith(known, taken), n)
  {
  }

  class PlanSet {
    var refs: int
    var finalized: bool
    var owned: Owned
  }

  class Registry {
    var entries: map<Key, Entry>
    var next: nat
    var closed: bool
    var liveTunnelLeases: int
    var retired: seq<PlanSet>
    const maxRetiredSnapshots: nat

    ghost function Contents(): Table
      reads this
    {
      Table(entries, next)
    }

    /** Shares the runtime of an existing entry or creates one. */
    method AcquireRef(k: Key) returns (r: Ref)
      modifies this`entries, this`next
      ensures (Contents(), r) == Acquire(old(Contents()), k)
    {
      if k in entries {
        var e := entries[k];
        entries := entries[k := Entry(e.runtime, e.refs + 1)];
        r := Ref(k, e.runtime);
      } else {
        r := Ref(k, next);
        entries := entries[k := Entry(next, 1)];
        next := next + 1;
      }
    }

    /** Acquires a key for an owner; `taken` is what the owner's transaction has acquired before. */
    method Take(o: Owned, k: Key, ghost start: Table, ghost taken: seq<Key>) returns (p: Owned)
      requires Took(start, taken, Contents(), multiset(All(o)))
      modifies this`entries, this`next
      ensures Took(start, taken + [k], Contents(), multiset(All(p)))
    {
      hide Took, Acquire, All, Added;
      var r := AcquireRef(k);
      AddedBag(o, r);
      TookOne(start, taken, old(Contents()), multiset(All(o)), k);
      p := Added(o, r);
    }

    /** Acquires the endpoints of one plan and their health trackers, in order, up to one that cannot be had. */
    method TakeEndpoints(u: Upstream, profile: nat, o: Owned, ghost start: Table, ghost taken: seq<Key>)
      returns (ok: bool, p: Owned, ghost n: nat)
      requires Took(start, taken, Contents(), multiset(All(o)))
      modifies this`entries, this`next
      ensures n <= |u.endpoints| && (ok <==> n == |u.endpoints|)
      ensures forall j: nat | j < n :: ResolvesAt(u, profile, KnownWith(start.entries.Keys, taken), j)
      ensures !ok ==> !ResolvesAt(u, profile, KnownWith(start.entries.Keys, taken), n)
      ensures Took(start, taken + AllEndpointKeys(u, profile, n), Contents(), multiset(All(p)))
    {
      hide Took;
      p, n := o, 0;
      assert taken + [] == taken;
      for i := 0 to |u.endpoints|
        invariant n == i
        invariant Took(start, taken + AllEndpointKeys(u, profile, i), Contents(), multiset(All(p)))
        invariant forall j: nat | j < i :: ResolvesAt(u, profile, KnownWith(start.entries.Keys, taken), j)
      {
        var e := u.endpoints[i];
        ghost var before := taken + AllEndpointKeys(u, profile, i);
        TookKnows(start, before, Contents(), multiset(All(p)));
        if Endpoint(e.identity) !in entries && !e.parses { return false, p, n; }
        p := Take(p, Endpoint(e.identity), start, before);
        if e.weight > 0 && u.activeHealth.Some? {
          p := Take(p, Health(e.identity, u.activeHealth.value, profile), start, before + [Endpoint(e.identity)]);
          assert before + [Endpoint(e.identity)] + [Health(e.identity, u.activeHealth.value, profile)] ==
                 taken + AllEndpointKeys(u, profile, i + 1);
        } else {
          assert before + [Endpoint(e.identity)] == taken + AllEndpointKeys(u, profile, i + 1);
        }
        n := n + 1;
      }
      ok := true;
    }

    /** Acquires everything one plan needs.  On failure the caller still owns what was acquired. */
    method PreparePlan(u: Upstream, profile: nat, o: Owned, ghost start: Table, ghost taken: seq<Key>)
      returns (ok: bool, p: Owned, ghost more: seq<Key>)
      requires Took(start, taken, Contents(), multiset(All(o)))
      modifies this`entries, this`next
      ensures Took(start, taken + more, Contents(), multiset(All(p)))
      ensures ok ==> more == PlanKeys(u, profile)
      ensures !ok ==> more <= PlanKeys(u, profile)
      ensures u.profile == Some(profile) ==> (ok <==> Compiles(u, KnownWith(start.entries.Keys, taken)))
    {
      hide Took, AllEndpointKeys;
      p := Take(o, Transport(profile), start, taken);
      p := Take(p, Selection(u.id, u.algorithm), start, taken + [Transport(profile)]);
      more := [Transport(profile), Selection(u.id, u.algorithm)];
      assert taken + [Transport(profile)] + [Selection(u.id, u.algorithm)] == taken + more;
      ghost var n;
      ok, p, n := TakeEndpoints(u, profile, p, start, taken + more);
      SameEndpoints(u, profile, start.entries.Keys, taken, more);
      assert taken + more + AllEndpointKeys(u, profile, n) == taken + (more + AllEndpointKeys(u, profile, n));
      more := more + AllEndpointKeys(u, profile, n);
      if !ok {
        PrefixOfPlan(u, profile, n);
        return;
      }
      if u.budget.Some? {
        p := Take(p, Budget(u.id, u.budget.value), start, taken + more);
        assert taken + more + BudgetKeys(u) == taken + (more + BudgetKeys(u));
        more := more + BudgetKeys(u);
      }
      ok := u.tables.Some?;
    }

    /**
     Prepares all plans in one transaction.  A candidate owns exactly what its plans need; on every error
     all entries, counts and runtimes are as before.  `m` is what others own.
     */
    method Prepare(us: seq<Upstream>, ghost m: multiset<Ref>) returns (r: Result<Owned, PrepareError>)
      requires Counts(Contents(), m)
      modifies this`entries, this`next
      ensures r == Err(RegistryClosed) <==> closed
      ensures r == Err(RetiredSnapshotLimit) <==> !closed && |retired| >= maxRetiredSnapshots
      ensures !closed && |retired| < maxRetiredSnapshots ==>
                IsVerdict(us, old(entries.Keys), r.Ok?, r == Err(ConfigInvalid), r == Err(BalancerBudgetExceeded))
      ensures r.Err? ==> entries == old(entries)
      ensures r.Ok? ==> Took(old(Contents()), SnapshotKeys(us, |us|), Contents(), multiset(All(r.value)))
      ensures r.Ok? ==> Counts(Contents(), m + multiset(All(r.value)))
    {
      if closed { return Err(RegistryClosed); }
      if |retired| >= maxRetiredSnapshots { return Err(RetiredSnapshotLimit); }
      ghost var i;
      r, i := PrepareAll(us, m);
      hide CannotHave, Exceeds, NoProblem, IsVerdict, Counts, Took;
      VerdictIs(us, old(entries.Keys), r.Ok?, r == Err(ConfigInvalid), i);
    }

    /** Gives back what a failed transaction has taken. */
    method Abort(owned: Owned, ghost start: Table, ghost m: multiset<Ref>, ghost keys: seq<Key>)
      requires Counts(start, m) && Took(start, keys, Contents(), multiset(All(owned)))
      modifies this`entries
      ensures entries == start.entries
    {
      hide Counts, Took, All, ReleaseAll;
      UndoRestores(start, m, keys, Contents(), All(owned));
      var ok, transports := ReleaseRefs(owned);
    }

    method PrepareAll(us: seq<Upstream>, ghost m: multiset<Ref>) returns (r: Result<Owned, PrepareError>, ghost i: nat)
      requires Counts(Contents(), m)
      modifies this`entries, this`next
      ensures r.Err? ==> (r.error.ConfigInvalid? || r.error.BalancerBudgetExceeded?) && entries == old(entries)
      ensures r == Err(ConfigInvalid) ==> CannotHave(us, i, old(entries.Keys))
      ensures r == Err(BalancerBudgetExceeded) ==> Exceeds(us, i, old(entries.Keys))
      ensures r.Ok? ==> NoProblem(us, old(entries.Keys))
      ensures r.Ok? ==> Took(old(Contents()), SnapshotKeys(us, |us|), Contents(), multiset(All(r.value)))
      ensures r.Ok? ==> Counts(Contents(), m + multiset(All(r.value)))
    {
      hide Counts, Took, PlanKeys, All, SlotTotal, PointTotal, ResolvesAt;
      NoTotals(us);
      ghost var start := Contents();
      var owned, slots, points := NOTHING, 0, 0;
      i := 0;
      TookNothing(start);
      for k := 0 to |us|
        invariant i == k
        invariant Took(start, SnapshotKeys(us, k), Contents(), multiset(All(owned)))
        invariant AllFine(us, k, start.entries.Keys)
        invariant slots == SlotTotal(us, k) && points == PointTotal(us, k) && WithinBudget(us, k)
      {
        var u := us[k];
        var ok := false;
        ghost var keys := SnapshotKeys(us, k);
        if u.profile.Some? {
          ghost var more;
          ok, owned, more := PreparePlan(u, u.profile.value, owned, start, keys);
          keys := keys + more;
        }
        assert ok <==> Fine(us, k, start.entries.Keys);
        if ok {
          TotalsStep(us, k);
          slots, points := slots + u.tables.value.slots, points + u.tables.value.points;
        }
        if !ok || slots > MAX_SNAPSHOT_WRR_SLOTS || points > MAX_SNAPSHOT_HASH_POINTS {
          Abort(owned, start, m, keys);
          return Err(if ok then BalancerBudgetExceeded else ConfigInvalid), k;
        }
        i := i + 1;
      }
      TookCounts(start, m, SnapshotKeys(us, |us|), Contents(), multiset(All(owned)));
      r := Ok(owned);
    }

    /**
     Drops one reference per list element, kind by kind, and returns the runtimes of the transports
     that lost their last one.  `ok` is false where the code panics.
     */
    method ReleaseRefs(o: Owned) returns (ok: bool, closedTransports: seq<nat>)
      modifies this`entries
      ensures ok <==> ReleaseAll(old(Contents()), All(o)).Some?
      ensures ok ==> Some(Contents()) == ReleaseAll(old(Contents()), All(o))
      ensures ok ==> ClosedAre(old(entries), entries, closedTransports)
    {
      hide All, ClosedAre;
      ClosedNone(entries);
      var refs := All(o);
      ok, closedTransports := true, [];
      var i := 0;
      while i < |refs|
        invariant 0 <= i <= |refs| && ok
        invariant ReleaseAll(old(Contents()), refs[..i]) == Some(Contents())
        invariant ClosedAre(old(entries), entries, closedTransports)
      {
        var k := refs[i].key;
        assert refs[..i + 1][..i] == refs[..i];
        if k !in entries || entries[k].refs <= 0 {
          ok := false;
          ReleaseAllFails(old(Contents()), refs, i + 1);
          break;
        }
        var e := entries[k];
        ClosedMore(old(entries), entries, closedTransports, k);
        if e.refs == 1 {
          entries := entries - {k};
          if k.Transport? { closedTransports := closedTransports + [e.runtime]; }
        } else {
          entries := entries[k := Entry(e.runtime, e.refs - 1)];
        }
        i := i + 1;
      }
      assert refs[..|refs|] == refs;
    }

    /** A tunnel takes its own reference to a selected transport; it succeeds exactly when somebody still owns one. */
    method AcquireTunnelLease(ref: Ref, ghost m: multiset<Ref>) returns (ok: bool)
      requires Counts(Contents(), m)
      modifies this`entries, this`liveTunnelLeases
      ensures ok <==> ref in m
      ensures Counts(Contents(), if ok then m + multiset{ref} else m)
      ensures liveTunnelLeases == old(liveTunnelLeases) + if ok then 1 else 0
    {
      assert m[ref] == RefsOf(Contents(), ref);
      AcquireCounts(Contents(), m, ref.key);
      if ref.key !in entries || entries[ref.key].runtime != ref.runtime || entries[ref.key].refs <= 0 { return false; }
      hide Counts;
      entries := entries[ref.key := Entry(ref.runtime, entries[ref.key].refs + 1)];
      liveTunnelLeases := liveTunnelLeases + 1;
      return true;
    }

    /**
     A tunnel drops its reference; the transport is closed with the last one. `ok` is false where the
     code panics.
     */
    method ReleaseTunnelLease(ref: Ref, ghost m: multiset<Ref>) returns (ok: bool, closedTransport: Option<nat>)
      requires Counts(Contents(), m)
      modifies this`entries, this`liveTunnelLeases
      ensures ok <==> ref in m && old(liveTunnelLeases) > 0
      ensures Counts(Contents(), if ok then m - multiset{ref} else m)
      ensures liveTunnelLeases == old(liveTunnelLeases) - if ok then 1 else 0
      ensures closedTransport == if ok && m[ref] == 1 then Some(ref.runtime) else None
    {
      assert m[ref] == RefsOf(Contents(), ref);
      if ref.key !in entries || entries[ref.key].runtime != ref.runtime || entries[ref.key].refs <= 0
          || liveTunnelLeases <= 0 {
        return false, None;
      }
      ReleaseCounts(Contents(), m, ref);
      hide Counts;
      closedTransport := None;
      if entries[ref.key].refs == 1 {
        entries := entries - {ref.key};
        closedTransport := Some(ref.runtime);
      } else {
        entries := entries[ref.key := Entry(ref.runtime, entries[ref.key].refs - 1)];
      }
      liveTunnelLeases := liveTunnelLeases - 1;
      ok := true;
    }

    /** First half of a reaper pass: the drained sets are marked, the others are kept in order. */
    method Partition() returns (survivors: seq<PlanSet>, finalized: seq<PlanSet>)
      requires NoRepeats(retired)
      modifies retired
      ensures survivors == Without(retired, old(Reapable(retired)))
              && finalized == Only(retired, old(Reapable(retired)))
      ensures forall p | p in retired :: p.refs == old(p.refs) && p.owned == old(p.owned)
      ensures forall p | p in retired :: p.finalized == (old(p.finalized) || p in old(Reapable(retired)))
    {
      survivors, finalized := [], [];
      ghost var gone := Reapable(retired);
      hide Without, Only;
      assert retired[0..] == retired;
      for i := 0 to |retired|
        invariant survivors + Without(retired[i..], gone) == Without(retired, gone)
        invariant finalized + Only(retired[i..], gone) == Only(retired, gone)
        invariant forall j | 0 <= j < |retired| ::
                    retired[j].refs == old(retired[j].refs) && retired[j].owned == old(retired[j].owned)
        invariant forall j | 0 <= j < i :: retired[j].finalized == (old(retired[j].finalized) || retired[j] in gone)
        invariant forall j | i <= j < |retired| :: retired[j].finalized == old(retired[j].finalized)
      {
        var p := retired[i];
        FilterFirst(retired, i, gone);
        if p.refs != 0 || p.finalized {
          survivors := survivors + [p];
        } else {
          p.finalized := true;
          finalized := finalized + [p];
        }
      }
      FilterNone(retired[|retired|..], gone);
    }

    /** Second half: every marked set gives back what it owns, once. */
    method ReleaseFinalized(finalized: seq<PlanSet>, ghost rest: multiset<Ref>)
      requires NoRepeats(finalized) && Counts(Contents(), rest + OwnedBy(finalized))
      modifies this`entries, (set p | p in finalized)`owned
      ensures Counts(Contents(), rest)
      ensures forall p | p in finalized :: p.owned == NOTHING
    {
      hide Counts, All, ReleaseAll, OwnedBy, Gone;
      assert finalized[0..] == finalized;
      for i := 0 to |finalized|
        invariant forall p | p in finalized[..i] :: p.owned == NOTHING
        invariant Counts(Contents(), rest + OwnedBy(finalized[i..]))
      {
        var p := finalized[i];
        ghost var later := finalized[i + 1..];
        assert finalized[..i + 1] == finalized[..i] + [p];
        OwnedFirst(finalized, i);
        assert rest + OwnedBy(finalized[i..]) == rest + OwnedBy(later) + multiset(All(p.owned));
        ReleaseAllCounts(Contents(), rest + OwnedBy(later), All(p.owned));
        var ok, transports := ReleaseRefs(p.owned);
        assert p !in later;
        p.owned := NOTHING;
      }
      OwnedNone(finalized[|finalized|..]);
      assert rest + multiset{} == rest;
    }

    /**
     One reaper pass: the retired sets whose count is zero are finalized and give back what they own; the other
     sets stay on the list in order.  `rest` is what everybody else owns.
     */
    method ReapNow(ghost rest: multiset<Ref>)
      requires NoRepeats(retired) && Counts(Contents(), rest + OwnedBy(retired))
      modifies this`entries, this`retired, retired
      ensures retired == Without(old(retired), old(Reapable(retired)))
      ensures forall p :: p in retired <==> p in old(retired) && !(old(p.refs) == 0 && !old(p.finalized))
      ensures forall p | p in old(retired) ::
                if p in old(Reapable(retired)) then p.finalized && p.refs == 0 && p.owned == NOTHING
                else p.finalized == old(p.finalized) && p.refs == old(p.refs) && p.owned == old(p.owned)
      ensures Counts(Contents(), rest + OwnedBy(retired))
    {
      hide Counts, OwnedBy, Without, Only;
      ghost var list, gone := retired, Reapable(retired);
      SplitOwned(list, gone);
      OnlyOnce(list, gone);
      SplitMembers(list, gone);
      var survivors, finalized := Partition();
      SameOwned(survivors);
      SameOwned(finalized);
      retired := survivors;
      assert rest + old(OwnedBy(retired)) == rest + OwnedBy(survivors) + OwnedBy(finalized);
      ReleaseFinalized(finalized, rest + OwnedBy(survivors));
    }
  }

  ghost predicate NoRepeats(sets: seq<PlanSet>) {
    forall i, j | 0 <= i < j < |sets| :: sets[i] != sets[j]
  }

  /** The sets whose last reference is gone and which have not been finalized before. */
  ghost function Reapable(sets: seq<PlanSet>): set<PlanSet>
    reads sets
  {
    set p | p in sets && p.refs == 0 && !p.finalized
  }

  ghost function Without(sets: seq<PlanSet>, gone: set<PlanSet>): seq<PlanSet> {
    if sets == [] then [] else (if sets[0] in gone then [] else [sets[0]]) + Without(sets[1..], gone)
  }

  ghost function Only(sets: seq<PlanSet>, gone: set<PlanSet>): seq<PlanSet> {
    if sets == [] then [] else (if sets[0] in gone then [sets[0]] else []) + Only(sets[1..], gone)
  }

  lemma {:induction false} FilterNone(sets: seq<PlanSet>, gone: set<PlanSet>)
    requires sets == []
    ensures Without(sets, gone) == [] && Only(sets, gone) == []
  {
  }

  lemma {:induction false} FilterFirst(sets: seq<PlanSet>, i: nat, gone: set<PlanSet>)
    requires i < |sets|
    ensures Without(sets[i..], gone) == (if sets[i] in gone then [] else [sets[i]]) + Without(sets[i + 1..], gone)
    ensures Only(sets[i..], gone) == (if sets[i] in gone then [sets[i]] else []) + Only(sets[i + 1..], gone)
  {
    assert sets[i..][1..] == sets[i + 1..];
  }

  /** Everything the sets own. */
  ghost function OwnedBy(sets: seq<PlanSet>): multiset<Ref>
    reads (set p | p in sets)`owned
  {
    if sets == [] then multiset{} else multiset(All(sets[0].owned)) + OwnedBy(sets[1..])
  }

  lemma OwnedFirst(sets: seq<PlanSet>, i: nat)
    requires i < |sets|
    ensures OwnedBy(sets[i..]) == multiset(All(sets[i].owned)) + OwnedBy(sets[i + 1..])
  {
    assert sets[i..][1..] == sets[i + 1..];
  }

  lemma {:induction false} OwnedNone(sets: seq<PlanSet>)
    requires sets == []
    ensures OwnedBy(sets) == multiset{}
  {
  }

  lemma {:induction false} SplitOwned(sets: seq<PlanSet>, gone: set<PlanSet>)
    ensures OwnedBy(sets) == OwnedBy(Without(sets, gone)) + OwnedBy(Only(sets, gone))
  {
    hide All;
    if sets != [] {
      var p, rest := sets[0], sets[1..];
      SplitOwned(rest, gone);
      if p in gone {
        assert Only(sets, gone)[1..] == Only(rest, gone);
        assert Without(sets, gone) == Without(rest, gone);
      } else {
        assert Without(sets, gone)[1..] == Without(rest, gone);
        assert Only(sets, gone) == Only(rest, gone);
      }
    }
  }

  /** A reaper pass splits the list: every set is either kept or drained. */
  lemma {:induction false} SplitMembers(sets: seq<PlanSet>, gone: set<PlanSet>)
    ensures forall p | p in Without(sets, gone) :: p in sets && p !in gone
    ensures forall p | p in Only(sets, gone) :: p in sets && p in gone
    ensures forall p | p in sets :: if p in gone then p in Only(sets, gone) else p in Without(sets, gone)
  {
    if sets != [] {
      SplitMembers(sets[1..], gone);
      assert sets == [sets[0]] + sets[1..];
    }
  }

  lemma {:induction false} OnlyOnce(sets: seq<PlanSet>, gone: set<PlanSet>)
    requires NoRepeats(sets)
    ensures NoRepeats(Only(sets, gone))
  {
    if sets != [] {
      var rest := sets[1..];
      OnlyOnce(rest, gone);
      SplitMembers(rest, gone);
      assert sets[0] !in rest;
    }
  }

  twostate lemma {:induction false} SameOwned(sets: seq<PlanSet>)
    requires forall p | p in sets :: p.owned == old(p.owned)
    ensures OwnedBy(sets) == old(OwnedBy(sets))
  {
    if sets != [] { SameOwned(sets[1..]); }
  }

  /** `x` is the runtime of a transport that was in the table and no longer is. */
  ghost predicate Gone(before: map<Key, Entry>, after: map<Key, Entry>, x: nat) {
    exists k: Key :: k.Transport? && k in before && k !in after && before[k].runtime == x
  }

  /** Entries only went away, and `closed` lists the runtimes of exactly the transports that did. */
  ghost predicate ClosedAre(before: map<Key, Entry>, after: map<Key, Entry>, closed: seq<nat>) {
    && (forall k | k in after :: k in before && after[k].runtime == before[k].runtime)
    && (forall x :: x in closed <==> Gone(before, after, x))
  }

  lemma ClosedNone(entries: map<Key, Entry>)
    ensures ClosedAre(entries, entries, [])
  {
  }

  lemma ClosedMore(before: map<Key, Entry>, after: map<Key, Entry>, closed: seq<nat>, k: Key)
    requires ClosedAre(before, after, closed) && k in after
    ensures ClosedAre(before, after - {k}, if k.Transport? then closed + [after[k].runtime] else closed)
    ensures after[k].refs > 0 ==>
              ClosedAre(before, after[k := Entry(after[k].runtime, after[k].refs - 1)], closed)
  {
    forall x
      ensures Gone(before, after - {k}, x) <==> Gone(before, after, x) || (k.Transport? && x == after[k].runtime)
    {
      if Gone(before, after, x) {
        var j: Key :| j.Transport? && j in before && j !in after && before[j].runtime == x;
        assert j !in after - {k};
      }
      if k.Transport? && x == after[k].runtime { assert k in before && k !in after - {k}; }
    }
    forall x, n: nat ensures Gone(before, after[k := Entry(after[k].runtime, n)], x) <==> Gone(before, after, x) {
    }
  }

  lemma {:induction false} ReleaseAllFails(t: Table, refs: seq<Ref>, i: nat)
    requires i <= |refs| && ReleaseAll(t, refs[..i]).None?
    ensures ReleaseAll(t, refs).None?
    decreases |refs|
  {
    if i == |refs| {
      assert refs[..i] == refs;
    } else {
      assert refs[..|refs| - 1][..i] == refs[..i];
      ReleaseAllFails(t, refs[..|refs| - 1], i);
    }
  }
}
