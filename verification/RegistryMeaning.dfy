/**
 What a preparation needs and when it succeeds, counted over the configured upstreams
 (`Prepare` and `preparePlanLocked` in internal/upstream/registry.go).
 */
module RegistryMeaning {
  import opened Wrappers
  import opened Counting
  import opened ResourceTable
  import opened Registry

  // ----- which references a snapshot owns

  function IsAt(identity: string): EndpointSpec -> bool {
    (e: EndpointSpec) => e.identity == identity
  }

  function WeightedAt(identity: string): EndpointSpec -> bool {
    (e: EndpointSpec) => e.identity == identity && e.weight > 0
  }

  /**
   How many references to `k` one upstream with a transport needs: one to its transport, its selection state and
   its budget, one per endpoint, and with active health checks one per endpoint of positive weight to its tracker.
   */
  function NeededBy(u: Upstream, k: Key): nat {
    if u.profile.None? then 0
    else match k
      case Transport(p) => if u.profile == Some(p) then 1 else 0
      case Selection(id, algorithm) => if u.id == id && u.algorithm == algorithm then 1 else 0
      case Budget(id, limits) => if u.id == id && u.budget == Some(limits) then 1 else 0
      case Endpoint(identity) => Tally(u.endpoints, IsAt(identity))
      case Health(identity, policy, p) =>
        if u.activeHealth == Some(policy) && u.profile == Some(p) then Tally(u.endpoints, WeightedAt(identity)) else 0
  }

  function Needed(us: seq<Upstream>, n: nat, k: Key): nat
    requires n <= |us|
  {
    if n == 0 then 0 else Needed(us, n - 1, k) + NeededBy(us[n - 1], k)
  }

  lemma BagConcat(a: seq<Key>, b: seq<Key>, k: Key)
    ensures multiset(a + b)[k] == multiset(a)[k] + multiset(b)[k]
  {
  }

  /** What the first `n` endpoints need. */
  function FromEndpoints(u: Upstream, profile: nat, n: nat, k: Key): nat
    requires n <= |u.endpoints|
  {
    match k
    case Endpoint(identity) => Tally(u.endpoints[..n], IsAt(identity))
    case Health(identity, policy, p) =>
      if u.activeHealth == Some(policy) && profile == p then Tally(u.endpoints[..n], WeightedAt(identity)) else 0
    case _ => 0
  }

  function FromOne(u: Upstream, profile: nat, e: EndpointSpec, k: Key): nat {
    match k
    case Endpoint(identity) => if e.identity == identity then 1 else 0
    case Health(identity, policy, p) =>
      if u.activeHealth == Some(policy) && profile == p && e.identity == identity && e.weight > 0 then 1 else 0
    case _ => 0
  }

  lemma OneCounts(u: Upstream, profile: nat, e: EndpointSpec, k: Key)
    ensures multiset(EndpointKeys(u, profile, e))[k] == FromOne(u, profile, e, k)
  {
  }

  lemma FromStep(u: Upstream, profile: nat, n: nat, k: Key)
    requires 0 < n <= |u.endpoints|
    ensures FromEndpoints(u, profile, n, k) ==
            FromEndpoints(u, profile, n - 1, k) + FromOne(u, profile, u.endpoints[n - 1], k)
  {
    hide Tally;
    var e := u.endpoints[n - 1];
    assert u.endpoints[..n] == u.endpoints[..n - 1] + [e];
    match k {
      case Endpoint(identity) => TallySnoc(u.endpoints[..n - 1], e, IsAt(identity));
      case Health(identity, _, _) => TallySnoc(u.endpoints[..n - 1], e, WeightedAt(identity));
      case _ =>
    }
  }

  lemma FromNone(u: Upstream, profile: nat, k: Key)
    ensures FromEndpoints(u, profile, 0, k) == 0
  {
    assert u.endpoints[..0] == [];
  }

  lemma {:induction false} EndpointCounts(u: Upstream, profile: nat, n: nat, k: Key)
    requires n <= |u.endpoints|
    ensures multiset(AllEndpointKeys(u, profile, n))[k] == FromEndpoints(u, profile, n, k)
  {
    hide FromEndpoints, FromOne, EndpointKeys;
    if n == 0 {
      FromNone(u, profile, k);
    } else {
      EndpointCounts(u, profile, n - 1, k);
      FromStep(u, profile, n, k);
      OneCounts(u, profile, u.endpoints[n - 1], k);
      BagConcat(AllEndpointKeys(u, profile, n - 1), EndpointKeys(u, profile, u.endpoints[n - 1]), k);
    }
  }

  lemma HeadCounts(u: Upstream, profile: nat, k: Key)
    ensures multiset([Transport(profile), Selection(u.id, u.algorithm)])[k] ==
            (if k == Transport(profile) then 1 else 0) + (if k == Selection(u.id, u.algorithm) then 1 else 0)
  {
  }

  lemma BudgetCounts(u: Upstream, k: Key)
    ensures multiset(BudgetKeys(u))[k] == if k.Budget? && k.owner == u.id && u.budget == Some(k.limits) then 1 else 0
  {
  }

  lemma NeededParts(u: Upstream, profile: nat, k: Key)
    requires u.profile == Some(profile)
    ensures NeededBy(u, k) ==
            (if k == Transport(profile) then 1 else 0) + (if k == Selection(u.id, u.algorithm) then 1 else 0)
            + FromEndpoints(u, profile, |u.endpoints|, k)
            + if k.Budget? && k.owner == u.id && u.budget == Some(k.limits) then 1 else 0
  {
    hide Tally;
    assert u.endpoints[..|u.endpoints|] == u.endpoints;
  }

  lemma PlanCounts(u: Upstream, profile: nat, k: Key)
    requires u.profile == Some(profile)
    ensures multiset(PlanKeys(u, profile))[k] == NeededBy(u, k)
  {
    hide FromEndpoints, NeededBy, AllEndpointKeys, BudgetKeys;
    var head := [Transport(profile), Selection(u.id, u.algorithm)];
    var endpoints := AllEndpointKeys(u, profile, |u.endpoints|);
    NeededParts(u, profile, k);
    HeadCounts(u, profile, k);
    BudgetCounts(u, k);
    EndpointCounts(u, profile, |u.endpoints|, k);
    BagConcat(head + endpoints, BudgetKeys(u), k);
    BagConcat(head, endpoints, k);
  }

  lemma {:induction false} SnapshotStep(us: seq<Upstream>, n: nat)
    requires 0 < n <= |us|
    ensures SnapshotKeys(us, n) ==
            SnapshotKeys(us, n - 1)
            + if us[n - 1].profile.Some? then PlanKeys(us[n - 1], us[n - 1].profile.value) else []
  {
    hide PlanKeys;
  }

  /** A prepared snapshot needs each key as often as its upstreams, as configured, call for it. */
  lemma {:induction false} KeysMeaning(us: seq<Upstream>, n: nat, k: Key)
    requires n <= |us|
    ensures multiset(SnapshotKeys(us, n))[k] == Needed(us, n, k)
  {
    hide PlanKeys, NeededBy, SnapshotKeys;
    if n == 0 {
      NoUpstreams(us);
    } else {
      var u := us[n - 1];
      var own := if u.profile.Some? then PlanKeys(u, u.profile.value) else [];
      KeysMeaning(us, n - 1, k);
      SnapshotStep(us, n);
      BagConcat(SnapshotKeys(us, n - 1), own, k);
      if u.profile.Some? { PlanCounts(u, u.profile.value, k); } else { NothingNeeded(u, k); }
    }
  }

  lemma {:induction false} NoUpstreams(us: seq<Upstream>)
    ensures SnapshotKeys(us, 0) == []
  {
  }

  lemma NothingNeeded(u: Upstream, k: Key)
    requires u.profile.None?
    ensures NeededBy(u, k) == 0
  {
  }

  // ----- when a preparation succeeds

  /** One of the first `n` endpoints has the identity. */
  predicate Has(u: Upstream, n: nat, identity: string)
    requires n <= |u.endpoints|
  {
    exists m :: 0 <= m < n && u.endpoints[m].identity == identity
  }

  /** An endpoint of one of the first `n` upstreams has the identity. */
  predicate AnyHas(us: seq<Upstream>, n: nat, identity: string)
    requires n <= |us|
  {
    exists j :: 0 <= j < n && Has(us[j], |us[j].endpoints|, identity)
  }

  /** An endpoint before endpoint `n` of upstream `i`, in the order of the configuration, has the same identity. */
  predicate SeenBefore(us: seq<Upstream>, i: nat, n: nat)
    requires i < |us| && n < |us[i].endpoints|
  {
    Has(us[i], n, us[i].endpoints[n].identity) || AnyHas(us, i, us[i].endpoints[n].identity)
  }

  /** The upstream has a transport and a balancer, and each endpoint parses or is known already. */
  ghost predicate Sound(us: seq<Upstream>, i: nat, known: set<Key>)
    requires i < |us|
  {
    && us[i].profile.Some? && us[i].tables.Some?
    && forall n: nat | n < |us[i].endpoints| ::
         us[i].endpoints[n].parses || Endpoint(us[i].endpoints[n].identity) in known || SeenBefore(us, i, n)
  }

  lemma {:induction false} EndpointKeyIn(u: Upstream, profile: nat, n: nat, identity: string)
    requires n <= |u.endpoints|
    ensures Endpoint(identity) in AllEndpointKeys(u, profile, n) <==> Has(u, n, identity)
  {
    if n > 0 { EndpointKeyIn(u, profile, n - 1, identity); }
  }

  lemma PlanKeyIn(u: Upstream, profile: nat, identity: string)
    ensures Endpoint(identity) in PlanKeys(u, profile) <==> Has(u, |u.endpoints|, identity)
  {
    hide AllEndpointKeys, Has;
    EndpointKeyIn(u, profile, |u.endpoints|, identity);
  }

  lemma AnyHasStep(us: seq<Upstream>, n: nat, identity: string)
    requires 0 < n <= |us|
    ensures AnyHas(us, n, identity) <==>
            AnyHas(us, n - 1, identity) || Has(us[n - 1], |us[n - 1].endpoints|, identity)
  {
    hide Has;
  }

  lemma {:induction false} SnapshotKeyIn(us: seq<Upstream>, n: nat, identity: string)
    requires n <= |us| && forall j | 0 <= j < n :: us[j].profile.Some?
    ensures Endpoint(identity) in SnapshotKeys(us, n) <==> AnyHas(us, n, identity)
  {
    hide Has, AnyHas, SnapshotKeys, PlanKeys;
    if n == 0 {
      NoUpstreams(us);
      NoneHas(us, identity);
    } else {
      SnapshotKeyIn(us, n - 1, identity);
      SnapshotStep(us, n);
      PlanKeyIn(us[n - 1], us[n - 1].profile.value, identity);
      AnyHasStep(us, n, identity);
    }
  }

  lemma NoneHas(us: seq<Upstream>, identity: string)
    ensures !AnyHas(us, 0, identity)
  {
  }

  lemma FineMeaning(us: seq<Upstream>, i: nat, known: set<Key>)
    requires i < |us| && forall j | 0 <= j < i :: us[j].profile.Some?
    ensures Fine(us, i, known) <==> Sound(us, i, known)
  {
    hide AllEndpointKeys, SnapshotKeys, Has, AnyHas;
    var u := us[i];
    if u.profile.Some? {
      forall n: nat | n < |u.endpoints|
        ensures ResolvesAt(u, u.profile.value, KnownWith(known, SnapshotKeys(us, i)), n) <==>
                u.endpoints[n].parses || Endpoint(u.endpoints[n].identity) in known || SeenBefore(us, i, n)
      {
        EndpointKeyIn(u, u.profile.value, n, u.endpoints[n].identity);
        SnapshotKeyIn(us, i, u.endpoints[n].identity);
      }
    }
  }

  lemma {:induction false} AllFineMeaning(us: seq<Upstream>, n: nat, known: set<Key>)
    requires n <= |us|
    ensures AllFine(us, n, known) <==> forall i | 0 <= i < n :: Sound(us, i, known)
  {
    hide Fine, Sound;
    if n > 0 {
      AllFineMeaning(us, n - 1, known);
      if AllFine(us, n - 1, known) {
        forall j | 0 <= j < n - 1 ensures us[j].profile.Some? { SoundHasProfile(us, j, known); }
        FineMeaning(us, n - 1, known);
      }
    }
  }

  lemma SoundHasProfile(us: seq<Upstream>, i: nat, known: set<Key>)
    requires i < |us| && Sound(us, i, known)
    ensures us[i].profile.Some?
  {
  }

  /** The slots and points of all compiled balancers together stay within eight million each. */
  predicate FitsTables(us: seq<Upstream>) {
    SlotTotal(us, |us|) <= 8_000_000 && PointTotal(us, |us|) <= 8_000_000
  }

  /** A preparation succeeds exactly when every upstream is sound and the tables fit. */
  lemma {:induction false} SuccessMeaning(us: seq<Upstream>, known: set<Key>)
    ensures NoProblem(us, known) <==> (forall i | 0 <= i < |us| :: Sound(us, i, known)) && FitsTables(us)
  {
    hide AllFine, Sound, SlotTotal, PointTotal;
    AllFineMeaning(us, |us|, known);
  }
}
