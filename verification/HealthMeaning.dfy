/**
 Which policy field decides what about an endpoint's health (internal/upstream/health.go).

 The statements name the configured fields and count observations; classification and
 thresholds of the automaton do not appear in them.
 */
module HealthMeaning {
  import opened Wrappers
  import opened Health

  /** The same observation `n` times. */
  function Times(o: Observation, n: nat): (r: seq<Observation>)
    ensures |r| == n && forall i | 0 <= i < n :: r[i] == o
  {
    seq(n, _ => o)
  }

  lemma TimesStep(o: Observation, n: nat)
    requires n > 0
    ensures Times(o, n)[..n - 1] == Times(o, n - 1)
  {
  }

  /** A configured count of zero stands for 255. */
  function Limit(configured: nat): nat {
    if configured == 0 then 255 else configured
  }

  // ----- failures in a row

  function OnlyCounter(k: Kind, n: Byte): Counters {
    match k
    case HttpFailure => Counters(0, n, 0, 0)
    case TransportFailure => Counters(0, 0, n, 0)
    case _ => Counters(0, 0, 0, n)
  }

  lemma {:induction false} FailuresCount(p: Policy, o: Observation, n: nat)
    requires !Ignored(p, o) && IsFailure(Classify(p, o).kind)
    ensures var limit := Threshold(p, o.source, Classify(p, o).kind);
            && (n < limit ==> Tracked(p, Times(o, n)) == Tracker(Unknown, OnlyCounter(Classify(p, o).kind, n)))
            && (n >= limit ==> Tracked(p, Times(o, n)).state == Unhealthy)
    decreases n
  {
    ClassifiedKind(p, o);
    ThresholdPositive(p, o.source, Classify(p, o).kind);
    if n > 0 {
      TimesStep(o, n);
      FailuresCount(p, o, n - 1);
      hide Threshold, Classify;
    }
  }

  lemma ThresholdPositive(p: Policy, source: Source, k: Kind)
    ensures Threshold(p, source, k) >= 1
  {
  }

  /** From a fresh tracker, `n` such observations in a row leave the endpoint unhealthy exactly from `limit` on. */
  ghost predicate UnhealthyFrom(p: Policy, o: Observation, limit: nat) {
    forall n: nat :: Tracked(p, Times(o, n)).state == Unhealthy <==> n >= limit
  }

  lemma FailuresDecide(p: Policy, o: Observation)
    requires !Ignored(p, o) && IsFailure(Classify(p, o).kind)
    ensures UnhealthyFrom(p, o, Threshold(p, o.source, Classify(p, o).kind))
  {
    forall n: nat
      ensures Tracked(p, Times(o, n)).state == Unhealthy <==> n >= Threshold(p, o.source, Classify(p, o).kind)
    {
      FailuresCount(p, o, n);
    }
  }

  /** Active probes: each kind of failure has its own count in the active policy. */
  lemma ActiveFailures(p: Policy)
    requires p.active.Some?
    ensures UnhealthyFrom(p, Observation(Active, HttpFailure, 0), Limit(p.active.value.httpFailures))
    ensures UnhealthyFrom(p, Observation(Active, TransportFailure, 0), Limit(p.active.value.transportFailures))
    ensures UnhealthyFrom(p, Observation(Active, Timeout, 0), Limit(p.active.value.timeouts))
  {
    hide UnhealthyFrom;
    FailuresDecide(p, Observation(Active, HttpFailure, 0));
    FailuresDecide(p, Observation(Active, TransportFailure, 0));
    FailuresDecide(p, Observation(Active, Timeout, 0));
  }

  /** Traffic: each kind of failure has its own count in the passive policy. */
  lemma PassiveFailures(p: Policy)
    requires p.passive.Some?
    ensures UnhealthyFrom(p, Observation(Passive, HttpFailure, 0), Limit(p.passive.value.httpFailures))
    ensures UnhealthyFrom(p, Observation(Passive, TransportFailure, 0), Limit(p.passive.value.transportFailures))
    ensures UnhealthyFrom(p, Observation(Passive, Timeout, 0), Limit(p.passive.value.timeouts))
  {
    hide UnhealthyFrom;
    FailuresDecide(p, Observation(Passive, HttpFailure, 0));
    FailuresDecide(p, Observation(Passive, TransportFailure, 0));
    FailuresDecide(p, Observation(Passive, Timeout, 0));
  }

  /** Without the part of the policy that an observation needs, traffic changes nothing and a probe counts to 255. */
  lemma MissingPolicy(p: Policy, t: Tracker, o: Observation)
    ensures p.passive.None? && o.source == Passive ==> Observed(p, t, o) == t
    ensures p.active.None? && o == Observation(Active, o.kind, 0) && IsFailure(o.kind) ==> UnhealthyFrom(p, o, 255)
    ensures o.kind == Neutral && o.status == 0 ==> Observed(p, t, o) == t
  {
    if p.active.None? && o.source == Active && o.status == 0 && IsFailure(o.kind) { FailuresDecide(p, o); }
  }

  // ----- successes in a row

  lemma {:induction false} SuccessesCount(p: Policy, source: Source, n: nat)
    requires source == Active || p.passive.Some?
    ensures var t := Tracked(p, Times(Observation(source, Success, 0), n));
            && t.counters.http == t.counters.transport == t.counters.timeouts == 0
            && (t.state == Healthy <==> p.active.Some? && n >= 1 && n >= p.active.value.healthySuccesses)
            && (t.state != Healthy ==> t.state == Unknown && t.counters.successes == if n > 255 then 255 else n)
    decreases n
  {
    var o := Observation(source, Success, 0);
    if n > 0 {
      TimesStep(o, n);
      SuccessesCount(p, source, n - 1);
    }
  }

  /** From a fresh tracker, `n` successes in a row make the endpoint healthy exactly from the configured number on. */
  lemma {:induction false} SuccessMeaning(p: Policy, source: Source, n: nat)
    requires source == Active || p.passive.Some?
    ensures Tracked(p, Times(Observation(source, Success, 0), n)).state ==
            if p.active.Some? && n >= 1 && n >= p.active.value.healthySuccesses then Healthy else Unknown
  {
    SuccessesCount(p, source, n);
  }

  // ----- statuses

  /** An HTTP status is judged by the list of its source; the reported kind does not matter then. */
  lemma StatusMeaning(p: Policy, t: Tracker, o: Observation)
    requires 0 < o.status < 65536
    ensures o.source == Passive && p.passive.Some? && o.status in p.passive.value.unhealthyStatuses ==>
              Observed(p, t, o) == Observed(p, t, Observation(Passive, HttpFailure, 0))
    ensures o.source == Passive && p.passive.Some? && o.status !in p.passive.value.unhealthyStatuses ==>
              Observed(p, t, o) == Observed(p, t, Observation(Passive, Success, 0))
    ensures o.source == Active && p.active.Some? && p.active.value.http ==>
              Observed(p, t, o) ==
              if o.status in p.active.value.healthyStatuses then Observed(p, t, Observation(Active, Success, 0))
              else if o.status in p.active.value.unhealthyStatuses
              then Observed(p, t, Observation(Active, HttpFailure, 0))
              else t
    ensures o.source == Active && (p.active.None? || !p.active.value.http) ==>
              Observed(p, t, o) == Observed(p, t, Observation(Active, o.kind, 0))
  {
    assert Low16(o.status) == o.status;
  }

  // ----- what one observation does to the counts

  /** A success clears the failures; it counts unless it is traffic to an unhealthy endpoint. */
  lemma SuccessStepMeaning(p: Policy, t: Tracker, source: Source)
    requires source == Active || p.passive.Some?
    ensures var u := Observed(p, t, Observation(source, Success, 0));
            && u.counters.http == u.counters.transport == u.counters.timeouts == 0
            && (t.state == Unhealthy && source == Passive ==> u.state == Unhealthy && u.counters.successes == 0)
            && (u.state == t.state && !(t.state == Unhealthy && source == Passive) ==>
                  u.counters.successes == if t.counters.successes < 255 then t.counters.successes + 1 else 255)
            && (u.state != t.state ==> u.state == Healthy && u.counters.successes == 0)
  {
  }

  /** A failure clears the successes and counts only for its own kind; the state changes only to unhealthy. */
  lemma FailureStepMeaning(p: Policy, t: Tracker, o: Observation)
    requires o.status == 0 && IsFailure(o.kind) && (o.source == Active || p.passive.Some?)
    ensures var u := Observed(p, t, o);
            && u.counters.successes == 0
            && (u.state == t.state ==>
                  && u.counters.http == Next(t.counters.http, o.kind == HttpFailure)
                  && u.counters.transport == Next(t.counters.transport, o.kind == TransportFailure)
                  && u.counters.timeouts == Next(t.counters.timeouts, o.kind == Timeout))
            && (u.state != t.state ==> u == Tracker(Unhealthy, Counters(0, 0, 0, 0)))
  {
  }

  function Next(count: nat, hit: bool): nat {
    if hit && count < 255 then count + 1 else count
  }

  // ----- an endpoint becomes unhealthy only through failures in a row

  /** Only failures and ignored observations from `m` on. */
  ghost predicate FailureStretch(p: Policy, trace: seq<Observation>, m: nat) {
    m <= |trace| && forall i | m <= i < |trace| :: Ignored(p, trace[i]) || IsFailure(Classify(p, trace[i]).kind)
  }

  function FailuresOf(p: Policy, trace: seq<Observation>, m: nat, k: Kind): nat
    requires m <= |trace|
  {
    if m == |trace| then 0
    else FailuresOf(p, Before(trace), m, k)
         + if !Ignored(p, Last(trace)) && Classify(p, Last(trace)).kind == k then 1 else 0
  }

  lemma {:induction false} CountIsStretch(p: Policy, trace: seq<Observation>, k: Kind) returns (m: nat)
    requires IsFailure(k)
    ensures FailureStretch(p, trace, m) && FailuresOf(p, trace, m, k) == FailureRun(p, trace, k)
    decreases |trace|
  {
    hide Classify, Threshold;
    if trace == [] { return 0; }
    var o, early := Last(trace), Before(trace);
    if !Ignored(p, o) && !IsFailure(Classify(p, o).kind) { return |trace|; }
    if Moved(p, early) {
      m := |trace| - 1;
    } else {
      m := CountIsStretch(p, early, k);
      assert forall i | 0 <= i < |early| :: trace[i] == early[i];
    }
  }

  /** An endpoint becomes unhealthy only when as many failures of one kind as configured came without a success. */
  lemma UnhealthyNeedsFailures(p: Policy, trace: seq<Observation>) returns (m: nat)
    requires trace != [] && !StateAfter(p, Before(trace)).Unhealthy? && StateAfter(p, trace).Unhealthy?
    ensures FailureStretch(p, trace, m) && IsFailure(Classify(p, Last(trace)).kind)
    ensures FailuresOf(p, trace, m, Classify(p, Last(trace)).kind) >=
            Threshold(p, Last(trace).source, Classify(p, Last(trace)).kind)
  {
    ClassifiedSource(p, Last(trace));
    m := CountIsStretch(p, trace, Classify(p, Last(trace)).kind);
  }

  lemma ClassifiedSource(p: Policy, o: Observation)
    ensures Classify(p, o).source == o.source
  {
  }
}
