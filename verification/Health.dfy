/**
 The endpoint health automaton (internal/upstream/health.go).

 The program keeps four saturating 8-bit counters.  `StateAfter` is the reference: it
 decides every transition from unbounded counts over the whole observation trace.
 */
module Health {
  import opened Wrappers

  datatype HealthState = Unknown | Healthy | Unhealthy

  datatype Source = Active | Passive

  datatype Kind = Success | HttpFailure | TransportFailure | Timeout | Neutral

  datatype Observation = Observation(source: Source, kind: Kind, status: int)

  datatype ActivePolicy = ActivePolicy(
    http: bool, healthySuccesses: Byte, httpFailures: Byte, transportFailures: Byte, timeouts: Byte,
    healthyStatuses: seq<nat>, unhealthyStatuses: seq<nat>)

  datatype PassivePolicy = PassivePolicy(
    httpFailures: Byte, transportFailures: Byte, timeouts: Byte, unhealthyStatuses: seq<nat>)

  datatype Policy = Policy(active: Option<ActivePolicy>, passive: Option<PassivePolicy>)

  // ----- classification and thresholds

  /** `uint16(status)`: the low 16 bits. */
  function Low16(status: int): nat {
    status % 65536
  }

  function Classify(p: Policy, o: Observation): Observation {
    if o.status == 0 then o
    else if o.source.Passive? then
      if p.passive.None? then o.(kind := Neutral)
      else if Low16(o.status) in p.passive.value.unhealthyStatuses then o.(kind := HttpFailure)
      else o.(kind := Success)
    else if p.active.Some? && p.active.value.http then
      if Low16(o.status) in p.active.value.healthyStatuses then o.(kind := Success)
      else if Low16(o.status) in p.active.value.unhealthyStatuses then o.(kind := HttpFailure)
      else o.(kind := Neutral)
    else o
  }

  predicate Ignored(p: Policy, o: Observation) {
    (o.source.Passive? && p.passive.None?) || Classify(p, o).kind.Neutral?
  }

  predicate IsFailure(k: Kind) { k.HttpFailure? || k.TransportFailure? || k.Timeout? }

  function Enabled(v: Byte): Byte { if v == 0 then 255 else v }

  function Threshold(p: Policy, source: Source, k: Kind): Byte {
    if source.Passive? && p.passive.None? then 255
    else if source.Passive? && IsFailure(k) then
      Enabled(match k
              case HttpFailure => p.passive.value.httpFailures
              case TransportFailure => p.passive.value.transportFailures
              case _ => p.passive.value.timeouts)
    else if p.active.None? || !IsFailure(k) then 255
    else
      Enabled(match k
              case HttpFailure => p.active.value.httpFailures
              case TransportFailure => p.active.value.transportFailures
              case _ => p.active.value.timeouts)
  }

  // ----- the program's automaton

  datatype Counters = Counters(successes: Byte, http: Byte, transport: Byte, timeouts: Byte)

  const ZERO := Counters(0, 0, 0, 0)

  datatype Tracker = Tracker(state: HealthState, counters: Counters)

  function Bump(v: Byte): Byte { if v == 255 then v else v + 1 }

  function CounterOf(c: Counters, k: Kind): Byte {
    match k
    case HttpFailure => c.http
    case TransportFailure => c.transport
    case _ => c.timeouts
  }

  /** `apply` on a classified observation that is not neutral. */
  function Apply(p: Policy, t: Tracker, o: Observation): Tracker {
    var c := t.counters;
    match o.kind
    case Neutral => t
    case Success =>
      if t.state.Unhealthy? && !o.source.Active? then Tracker(t.state, ZERO)
      else
        var next := Counters(Bump(c.successes), 0, 0, 0);
        if p.active.Some? && next.successes >= p.active.value.healthySuccesses then Tracker(Healthy, next)
        else Tracker(t.state, next)
    case _ =>
      var next := match o.kind
        case HttpFailure => Counters(0, Bump(c.http), c.transport, c.timeouts)
        case TransportFailure => Counters(0, c.http, Bump(c.transport), c.timeouts)
        case _ => Counters(0, c.http, c.transport, Bump(c.timeouts));
      if CounterOf(next, o.kind) >= Threshold(p, o.source, o.kind) then Tracker(Unhealthy, next)
      else Tracker(t.state, next)
  }

  /** `Observe` on an unretired tracker: a transition clears the counters. */
  function Observed(p: Policy, t: Tracker, o: Observation): Tracker {
    if Ignored(p, o) then t
    else
      var next := Apply(p, t, Classify(p, o));
      if next.state != t.state then Tracker(next.state, ZERO) else next
  }

  const FRESH := Tracker(Unknown, ZERO)

  function Tracked(p: Policy, trace: seq<Observation>): Tracker {
    if trace == [] then FRESH else Observed(p, Tracked(p, trace[..|trace| - 1]), trace[|trace| - 1])
  }

  class EndpointHealth {
    const policy: Policy
    var state: HealthState
    var counters: Counters
    var retired: bool

    ghost function Now(): Tracker
      reads this
    {
      Tracker(state, counters)
    }

    constructor (policy: Policy)
      ensures this.policy == policy && Now() == FRESH && !retired
    {
      this.policy := policy;
      state, counters, retired := Unknown, ZERO, false;
    }

    method Retire()
      modifies this`retired
      ensures retired
    {
      retired := true;
    }

    method Observe(observation: Observation)
      modifies this`state, this`counters
      ensures Now() == if retired then old(Now()) else Observed(policy, old(Now()), observation)
    {
      if observation.source.Passive? && policy.passive.None? { return; }
      if retired { return; }
      var o := Classify(policy, observation);
      if o.kind.Neutral? { return; }
      var previous := state;
      var next := ApplyInPlace(o);
      if next != previous {
        state, counters := next, ZERO;
      }
    }

    /** Updates the counters and says which state they call for. */
    method ApplyInPlace(o: Observation) returns (next: HealthState)
      requires !o.kind.Neutral?
      modifies this`counters
      ensures Tracker(next, counters) == Apply(policy, old(Now()), o)
    {
      next := state;
      match o.kind {
        case Success =>
          counters := counters.(http := 0, transport := 0, timeouts := 0);
          if state.Unhealthy? && !o.source.Active? {
            counters := counters.(successes := 0);
            return;
          }
          counters := counters.(successes := Bump(counters.successes));
          if policy.active.Some? && counters.successes >= policy.active.value.healthySuccesses { next := Healthy; }
        case HttpFailure =>
          counters := counters.(successes := 0, http := Bump(counters.http));
          if counters.http >= Threshold(policy, o.source, HttpFailure) { next := Unhealthy; }
        case TransportFailure =>
          counters := counters.(successes := 0, transport := Bump(counters.transport));
          if counters.transport >= Threshold(policy, o.source, TransportFailure) { next := Unhealthy; }
        case Timeout =>
          counters := counters.(successes := 0, timeouts := Bump(counters.timeouts));
          if counters.timeouts >= Threshold(policy, o.source, Timeout) { next := Unhealthy; }
      }
    }
  }

  // ----- the reference: unbounded counts over the trace

  function Last(trace: seq<Observation>): Observation
    requires trace != []
  {
    trace[|trace| - 1]
  }

  function Before(trace: seq<Observation>): seq<Observation>
    requires trace != []
  {
    trace[..|trace| - 1]
  }

  /**
   Successes since the last failure or transition (or passive success of an unhealthy endpoint), the
   last observation included.
   */
  function SuccessRun(p: Policy, trace: seq<Observation>): nat
    decreases |trace|, 0
  {
    if trace == [] then 0
    else
      var o, prior := Classify(p, Last(trace)), if Moved(p, Before(trace)) then 0 else SuccessRun(p, Before(trace));
      if Ignored(p, Last(trace)) then prior
      else if IsFailure(o.kind) then 0
      else if StateAfter(p, Before(trace)).Unhealthy? && !o.source.Active? then 0
      else prior + 1
  }

  /** Failures of kind `k` since the last success or transition, the last observation included. */
  function FailureRun(p: Policy, trace: seq<Observation>, k: Kind): nat
    decreases |trace|, 0
  {
    if trace == [] then 0
    else
      var o, prior := Classify(p, Last(trace)), if Moved(p, Before(trace)) then 0 else FailureRun(p, Before(trace), k);
      if Ignored(p, Last(trace)) then prior
      else if !IsFailure(o.kind) then 0
      else if o.kind == k then prior + 1
      else prior
  }

  /** The last observation changed the state. */
  predicate Moved(p: Policy, trace: seq<Observation>)
    decreases |trace|, 2
  {
    trace != [] && StateAfter(p, trace) != StateAfter(p, Before(trace))
  }

  function StateAfter(p: Policy, trace: seq<Observation>): HealthState
    decreases |trace|, 1
  {
    if trace == [] then Unknown
    else
      var o, now := Classify(p, Last(trace)), StateAfter(p, Before(trace));
      if Ignored(p, Last(trace)) then now
      else if IsFailure(o.kind) then
        if FailureRun(p, trace, o.kind) >= Threshold(p, o.source, o.kind) then Unhealthy else now
      else if now.Unhealthy? && !o.source.Active? then now
      else if p.active.Some? && SuccessRun(p, trace) >= p.active.value.healthySuccesses then Healthy
      else now
  }

  // ----- the counters refine the counts

  function Saturate(n: nat): Byte { if n > 255 then 255 else n }

  ghost predicate Refines(p: Policy, t: Tracker, trace: seq<Observation>) {
    && t.state == StateAfter(p, trace)
    && t.counters ==
       if Moved(p, trace) then ZERO
       else Counters(Saturate(SuccessRun(p, trace)), Saturate(FailureRun(p, trace, HttpFailure)),
                     Saturate(FailureRun(p, trace, TransportFailure)), Saturate(FailureRun(p, trace, Timeout)))
  }

  lemma ClassifiedKind(p: Policy, o: Observation)
    requires !Ignored(p, o)
    ensures Classify(p, o).kind.Success? || IsFailure(Classify(p, o).kind)
    ensures Classify(p, o).source == o.source
  {
  }

  lemma {:induction false} RefinesStep(p: Policy, t: Tracker, trace: seq<Observation>)
    requires trace != [] && Refines(p, t, Before(trace))
    ensures Refines(p, Observed(p, t, Last(trace)), trace)
  {
    hide Threshold, Classify;
    var o := Last(trace);
    if Ignored(p, o) {
      IgnoredStep(p, trace);
    } else {
      ClassifiedKind(p, o);
      if Classify(p, o).kind.Success? { SuccessStep(p, t, trace); } else { FailureStep(p, t, trace); }
    }
  }

  /** An ignored observation leaves all counts as the previous observation left them. */
  lemma {:induction false} IgnoredStep(p: Policy, trace: seq<Observation>)
    requires trace != [] && Ignored(p, Last(trace))
    ensures StateAfter(p, trace) == StateAfter(p, Before(trace)) && !Moved(p, trace)
    ensures SuccessRun(p, trace) == (if Moved(p, Before(trace)) then 0 else SuccessRun(p, Before(trace)))
    ensures forall k :: FailureRun(p, trace, k) ==
                (if Moved(p, Before(trace)) then 0 else FailureRun(p, Before(trace), k))
  {
  }

  lemma SuccessStep(p: Policy, t: Tracker, trace: seq<Observation>)
    requires trace != [] && Refines(p, t, Before(trace)) && !Ignored(p, Last(trace))
             && Classify(p, Last(trace)).kind.Success?
    ensures Refines(p, Observed(p, t, Last(trace)), trace)
  {
    hide Threshold, Classify;
    ClassifiedKind(p, Last(trace));
    var prior := if Moved(p, Before(trace)) then 0 else SuccessRun(p, Before(trace));
    assert t.counters.successes == Saturate(prior);
    assert forall k :: FailureRun(p, trace, k) == 0;
    if StateAfter(p, Before(trace)).Unhealthy? && !Last(trace).source.Active? {
      assert StateAfter(p, trace) == StateAfter(p, Before(trace));
    } else {
      assert SuccessRun(p, trace) == prior + 1;
    }
  }

  lemma FailureStep(p: Policy, t: Tracker, trace: seq<Observation>)
    requires trace != [] && Refines(p, t, Before(trace)) && !Ignored(p, Last(trace))
             && IsFailure(Classify(p, Last(trace)).kind)
    ensures Refines(p, Observed(p, t, Last(trace)), trace)
  {
    hide Threshold, Classify;
    match Classify(p, Last(trace)).kind {
      case HttpFailure =>
      case TransportFailure =>
      case Timeout =>
    }
  }

  /** After every trace the program's tracker is in the state the unbounded counts call for. */
  lemma {:induction false} TrackerRefinesCounts(p: Policy, trace: seq<Observation>)
    ensures Refines(p, Tracked(p, trace), trace)
  {
    if trace != [] {
      TrackerRefinesCounts(p, Before(trace));
      RefinesStep(p, Tracked(p, Before(trace)), trace);
    }
  }

  // ----- recovery

  /** Only active successes and ignored observations between `m` and the end, with the endpoint unhealthy throughout. */
  ghost predicate RecoveryRun(p: Policy, trace: seq<Observation>, m: nat) {
    && m <= |trace|
    && (forall i | m <= i < |trace| :: Ignored(p, trace[i]) || ActiveSuccess(p, trace[i]))
    && (forall i | m <= i < |trace| :: StateAfter(p, trace[..i]).Unhealthy?)
  }

  predicate ActiveSuccess(p: Policy, o: Observation) {
    !Ignored(p, o) && Classify(p, o).kind.Success? && o.source.Active?
  }

  function ActiveSuccesses(p: Policy, trace: seq<Observation>, m: nat): nat
    requires m <= |trace|
  {
    if m == |trace| then 0
    else ActiveSuccesses(p, Before(trace), m) + if ActiveSuccess(p, Last(trace)) then 1 else 0
  }

  /**
   The success count of an unhealthy endpoint counts active successes with nothing but ignored
   observations between.
   */
  lemma {:induction false} CountIsRecovery(p: Policy, trace: seq<Observation>) returns (m: nat)
    requires trace != [] && StateAfter(p, Before(trace)).Unhealthy?
    ensures RecoveryRun(p, trace, m) && ActiveSuccesses(p, trace, m) == SuccessRun(p, trace)
    decreases |trace|
  {
    hide Classify, Threshold;
    var o, early := Last(trace), Before(trace);
    if !Ignored(p, o) && !ActiveSuccess(p, o) {
      ClassifiedKind(p, o);
      return |trace|;
    }
    if early == [] || Moved(p, early) {
      m := |trace| - 1;
      assert trace[..m] == early;
    } else {
      m := CountIsRecovery(p, early);
      assert forall i | 0 <= i < |early| :: trace[i] == early[i] && trace[..i] == early[..i];
      assert trace[..|early|] == early;
    }
    if Ignored(p, o) { IgnoredStep(p, trace); } else { ClassifiedKind(p, o); }
  }

  /** An unhealthy endpoint recovers only through the configured number of active successes in a row. */
  lemma RecoveryNeedsActiveSuccesses(p: Policy, trace: seq<Observation>) returns (m: nat)
    requires trace != [] && StateAfter(p, Before(trace)).Unhealthy? && !StateAfter(p, trace).Unhealthy?
    ensures StateAfter(p, trace).Healthy? && p.active.Some?
    ensures RecoveryRun(p, trace, m)
    ensures ActiveSuccesses(p, trace, m) >= 1 && ActiveSuccesses(p, trace, m) >= p.active.value.healthySuccesses
  {
    m := CountIsRecovery(p, trace);
  }

  // ----- retirement races with an observation in progress

  /**
   The mutex section of Observe in two steps: `Enter` passes the checks under the lock,
   `Finish` updates and unlocks.  Retire does not take the lock.
   */
  datatype Event = Enter(o: Observation) | Finish | RetireNow

  datatype Shared = Shared(tracker: Tracker, retired: bool, inside: Option<Observation>)

  const START := Shared(FRESH, false, None)

  function StepEvent(p: Policy, s: Shared, e: Event): Shared {
    match e
    case Enter(o) =>
      if s.inside.Some? || s.retired || Ignored(p, o) then s else s.(inside := Some(o))
    case Finish =>
      if s.inside.None? then s else s.(tracker := Observed(p, s.tracker, s.inside.value), inside := None)
    case RetireNow => s.(retired := true)
  }

  function RunEvents(p: Policy, s: Shared, es: seq<Event>): Shared {
    if es == [] then s else StepEvent(p, RunEvents(p, s, es[..|es| - 1]), es[|es| - 1])
  }

  /** The observations finished in a run, in order. */
  function Finished(p: Policy, es: seq<Event>): seq<Observation> {
    if es == [] then []
    else
      var before := RunEvents(p, START, es[..|es| - 1]);
      Finished(p, es[..|es| - 1]) +
        if es[|es| - 1].Finish? && before.inside.Some? then [before.inside.value] else []
  }

  /** Every interleaving acts like its finished observations one after the other. */
  lemma {:induction false} RunIsSerial(p: Policy, es: seq<Event>)
    ensures RunEvents(p, START, es).tracker == Tracked(p, Finished(p, es))
  {
    hide Observed;
    if es != [] {
      var early := es[..|es| - 1];
      RunIsSerial(p, early);
      var before := RunEvents(p, START, early);
      if es[|es| - 1].Finish? && before.inside.Some? {
        var all := Finished(p, es);
        assert all[..|all| - 1] == Finished(p, early);
      } else {
        assert Finished(p, es) == Finished(p, early);
      }
    }
  }

  /** After retirement only the observation that had already passed the checks is applied, when it finishes. */
  lemma {:induction false} RetirementFreezes(p: Policy, s: Shared, es: seq<Event>)
    requires s.retired
    ensures RunEvents(p, s, es) ==
            if s.inside.Some? && Finish in es then s.(tracker := Observed(p, s.tracker, s.inside.value), inside := None)
            else s
  {
    hide Observed;
    if es != [] {
      RetirementFreezes(p, s, es[..|es| - 1]);
      assert es == es[..|es| - 1] + [es[|es| - 1]];
    }
  }

  /** An observation that enters before the retirement and finishes after it still makes the endpoint unhealthy. */
  lemma LateObservation()
    ensures var p := Policy(Some(ActivePolicy(true, 1, 1, 1, 1, [200], [500])), Some(PassivePolicy(1, 1, 1, [])));
            var o := Observation(Passive, Timeout, 0);
            var before := RunEvents(p, START, [Enter(o), RetireNow]);
            var after := RunEvents(p, before, [Finish]);
            before.retired && before.tracker.state == Unknown && after.tracker.state == Unhealthy
  {
    var p := Policy(Some(ActivePolicy(true, 1, 1, 1, 1, [200], [500])), Some(PassivePolicy(1, 1, 1, [])));
    var o := Observation(Passive, Timeout, 0);
    assert [Enter(o), RetireNow][..1] == [Enter(o)] && [Enter(o)][..0] == [] && [Finish][..0] == [];
    assert RunEvents(p, START, [Enter(o)]) == Shared(FRESH, false, Some(o));
  }

  /** No continuation of a retired tracker changes it. */
  ghost predicate Frozen(p: Policy, s: Shared) {
    forall es :: RunEvents(p, s, es).tracker == s.tracker
  }

  /** The exact condition: nothing changes after retirement unless an observation that would is already inside. */
  lemma FrozenIff(p: Policy, s: Shared)
    requires s.retired
    ensures Frozen(p, s) <==> s.inside.None? || Observed(p, s.tracker, s.inside.value) == s.tracker
  {
    hide Observed;
    forall es ensures RunEvents(p, s, es) ==
                      if s.inside.Some? && Finish in es
                      then s.(tracker := Observed(p, s.tracker, s.inside.value), inside := None)
                      else s
    {
      RetirementFreezes(p, s, es);
    }
    assert Finish in [Finish];
    RetirementFreezes(p, s, [Finish]);
  }
}
