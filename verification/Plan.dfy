/** Selection plans and the per-request set of tried endpoints (internal/upstream/plan.go). */
module Plan {
  import opened Wrappers
  import Wrr
  import Continuum
  import RingOrder

  const CAPACITY := 5

  ghost predicate Distinct(s: seq<nat>) {
    forall i, j | 0 <= i < j < |s| :: s[i] != s[j]
  }

  /** A fixed-capacity set of endpoint ordinals. */
  class AttemptSet {
    const ordinals: array<nat>
    var count: nat

    ghost predicate Valid()
      reads this, ordinals
    {
      ordinals.Length == CAPACITY && count <= CAPACITY && Distinct(ordinals[..count])
    }

    function Elements(): seq<nat>
      requires Valid()
      reads this, ordinals
    {
      ordinals[..count]
    }

    constructor ()
      ensures Valid() && fresh(ordinals) && Elements() == []
    {
      ordinals := new nat[CAPACITY];
      count := 0;
    }

    method Contains(ordinal: nat) returns (found: bool)
      requires Valid()
      ensures found == (ordinal in Elements())
    {
      for index := 0 to count
        invariant ordinal !in ordinals[..index]
      {
        if ordinals[index] == ordinal { return true; }
      }
      return false;
    }

    /** Adds a new ordinal; a duplicate or a full set is refused and left as it was. */
    method Add(ordinal: nat) returns (added: bool)
      requires Valid()
      modifies this, ordinals
      ensures Valid()
      ensures added == (ordinal !in old(Elements()) && old(count) < CAPACITY)
      ensures Elements() == if added then old(Elements()) + [ordinal] else old(Elements())
    {
      var present := Contains(ordinal);
      if present || count >= CAPACITY { return false; }
      ordinals[count] := ordinal;
      count := count + 1;
      return true;
    }
  }

  datatype Algorithm = RoundRobin(selector: Wrr.Selector) | Hashed(ring: Continuum.Ring) | Unsupported

  datatype PlanError = NoEndpoint | NoHealthyEndpoint

  datatype Plan = Plan(algorithm: Algorithm, endpointCount: nat, transport: bool)

  /** What the two compilers establish about the tables they build. */
  ghost predicate Compiled(p: Plan) {
    match p.algorithm
    case RoundRobin(s) => s.Scheduled? ==> s.schedule != []
    case Hashed(r) => Continuum.ValidRing(r, p.endpointCount)
    case Unsupported => true
  }

  predicate Usable(p: Plan) {
    p.endpointCount > 0 && p.transport && !p.algorithm.Unsupported?
  }

  function Selectable(n: nat, tried: seq<nat>, healthy: nat -> bool): nat -> bool {
    (x: nat) => x < n && x !in tried && healthy(x)
  }

  /** The balancer's pick: the first selectable slot, or the first selectable point clockwise. */
  ghost predicate IsPick(p: Plan, start: nat, sum: nat, selectable: nat -> bool, ordinal: nat, ok: bool)
    requires Compiled(p)
  {
    match p.algorithm
    case RoundRobin(s) =>
      if s.Direct? then ordinal == s.ordinal && ok == selectable(s.ordinal)
      else Wrr.IsFirstSelectable(s.schedule, start, selectable, ordinal, ok)
    case Hashed(r) => Continuum.IsChoice(r, sum, selectable, ordinal, ok)
    case Unsupported => false
  }

  lemma PickIsSelectable(p: Plan, start: nat, sum: nat, selectable: nat -> bool, ordinal: nat)
    requires Compiled(p) && IsPick(p, start, sum, selectable, ordinal, true)
    ensures selectable(ordinal)
  {
    match p.algorithm
    case RoundRobin(s) =>
    case Hashed(r) => if r.Points? { Continuum.ChoiceFromRing(r, sum, selectable, ordinal, true); }
    case Unsupported =>
  }

  ghost predicate Answers(p: Plan, start: nat, sum: nat, selectable: nat -> bool, r: Result<nat, PlanError>)
    requires Compiled(p)
  {
    if r.Ok? then IsPick(p, start, sum, selectable, r.value, true)
    else r == Err(NoHealthyEndpoint) && exists ordinal :: IsPick(p, start, sum, selectable, ordinal, false)
  }

  /** The shared counter after one selection at `start`: only a schedule moves it. */
  function Advanced(p: Plan, start: nat): nat {
    if Usable(p) && p.algorithm.RoundRobin? && p.algorithm.selector.Scheduled? && p.algorithm.selector.schedule != []
    then (start + 1) % Wrr.WORD
    else start
  }

  /** Chooses a healthy endpoint that has not been tried, or says why there is none. */
  method SelectNext(p: Plan, state: Wrr.SelectionState, sum: nat, attempted: AttemptSet, healthy: nat -> bool)
    returns (r: Result<nat, PlanError>)
    requires Compiled(p) && state.sequence < Wrr.WORD && attempted.Valid()
    modifies state
    ensures state.sequence < Wrr.WORD && state.sequence == Advanced(p, old(state.sequence))
    ensures r == Err(NoEndpoint) <==> !Usable(p)
    ensures r.Ok? ==> r.value < p.endpointCount && r.value !in attempted.Elements() && healthy(r.value)
    ensures Usable(p) ==>
              Answers(p, old(state.sequence), sum, Selectable(p.endpointCount, attempted.Elements(), healthy), r)
  {
    if p.endpointCount == 0 || !p.transport { return Err(NoEndpoint); }
    var ordinal: nat, ok: bool;
    var selectable := Selectable(p.endpointCount, attempted.Elements(), healthy);
    match p.algorithm {
      case RoundRobin(selector) => ordinal, ok := state.SelectNext(selector, selectable);
      case Hashed(ring) => ordinal, ok := Continuum.SelectNext(ring, sum, p.endpointCount, selectable);
      case Unsupported => return Err(NoEndpoint);
    }
    assert IsPick(p, old(state.sequence), sum, selectable, ordinal, ok);
    if !ok { return Err(NoHealthyEndpoint); }
    PickIsSelectable(p, old(state.sequence), sum, selectable, ordinal);
    r := Ok(ordinal);
    if ordinal >= p.endpointCount { r := Err(NoEndpoint); }
  }

  // ----- completeness

  /** The plan that is compiled from weighted endpoints, with the point hash `h`. */
  ghost predicate CompiledFrom(p: Plan, endpoints: seq<Wrr.WeightedEndpoint>, h: (string, nat) -> nat) {
    && p.endpointCount == |endpoints|
    && match p.algorithm
       case RoundRobin(s) => Wrr.IsSelectorFor(s, endpoints)
       case Hashed(r) => Continuum.IsRingFor(r, endpoints, h)
       case Unsupported => false
  }

  lemma CompiledPlansSelect(p: Plan, endpoints: seq<Wrr.WeightedEndpoint>, h: (string, nat) -> nat)
    requires CompiledFrom(p, endpoints, h)
    ensures Compiled(p)
  {
    match p.algorithm
    case RoundRobin(s) => Wrr.NoEmptySchedule(s, endpoints);
    case Hashed(r) => RingOrder.CompiledRingIsValid(r, endpoints, h);
  }

  /** The endpoints a plan can pick. */
  function Listed(p: Plan): set<nat> {
    match p.algorithm
    case RoundRobin(s) => Wrr.Named(s)
    case Hashed(r) => RingOrder.Named(r)
    case Unsupported => {}
  }

  /** A compiled plan can pick exactly the endpoints of positive weight. */
  lemma ListedIsActive(p: Plan, endpoints: seq<Wrr.WeightedEndpoint>, h: (string, nat) -> nat)
    requires CompiledFrom(p, endpoints, h)
    ensures Listed(p) == Wrr.Positive(endpoints)
  {
    match p.algorithm
    case RoundRobin(s) => Wrr.SelectorNamesActive(s, endpoints);
    case Hashed(r) => RingOrder.RingNamesActive(r, endpoints, h);
  }

  /** The round-robin counter is where the round looks at every endpoint; a hashed plan needs nothing. */
  ghost predicate LooksAtAll(p: Plan, start: nat) {
    p.algorithm.RoundRobin? && p.algorithm.selector.Scheduled? && p.algorithm.selector.schedule != [] ==>
      Wrr.AllTried(p.algorithm.selector.schedule, start)
  }

  /** Selection from a compiled plan fails only if no endpoint of positive weight is healthy and untried. */
  lemma PickComplete(p: Plan, endpoints: seq<Wrr.WeightedEndpoint>, h: (string, nat) -> nat, start: nat, sum: nat,
                     selectable: nat -> bool, ordinal: nat, ok: bool)
    requires CompiledFrom(p, endpoints, h) && Compiled(p) && LooksAtAll(p, start)
    requires IsPick(p, start, sum, selectable, ordinal, ok)
    ensures ok <==> exists x | x in Wrr.Positive(endpoints) :: selectable(x)
    ensures ok ==> ordinal in Wrr.Positive(endpoints)
  {
    match p.algorithm
    case RoundRobin(s) =>
      if s.Scheduled? {
        Wrr.SelectComplete(endpoints, s.schedule, start, selectable, ordinal, ok);
      } else {
        ListedIsActive(p, endpoints, h);
        assert forall x :: x in Wrr.Positive(endpoints) <==> x == s.ordinal;
      }
    case Hashed(r) => RingOrder.ChoiceComplete(endpoints, h, r, sum, selectable, ordinal, ok);
  }

  /** When a plan has nothing to offer at all, and what an offered endpoint must be. */
  lemma OfferMeaning(p: Plan, n: nat, tried: seq<nat>, healthy: nat -> bool, x: nat)
    ensures Usable(p) <==> p.endpointCount >= 1 && p.transport && (p.algorithm.RoundRobin? || p.algorithm.Hashed?)
    ensures Selectable(n, tried, healthy)(x) <==> x < n && healthy(x) && forall i | 0 <= i < |tried| :: tried[i] != x
  {
  }
}
