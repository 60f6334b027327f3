/**
 The retry loop of one request (internal/proxy/attempt.go).

 Everything the loop cannot control is a parameter indexed by the attempt number.
 The calls it makes on its surroundings are logged in order, so that the discipline
 of permits, observations and response bodies can be stated about the log.
 */
module AttemptLoop {
  import opened Wrappers
  import opened Plan
  import Wrr

  datatype Decision = Decision(retry: bool, observation: nat)

  /** The surroundings of one request: what happens at attempt `a`. */
  datatype World = World(
    eligible: bool,
    /** Selections that other requests make on the shared counter before this request selects again. */
    others: nat -> nat,
    healthy: nat -> nat -> bool,
    cloneFails: nat -> bool,
    responds: nat -> bool,
    decision: nat -> Decision,
    canceled: nat -> bool,
    granted: nat -> bool)

  /** One call on the surroundings.  A permit carries the number of the attempt it was acquired after. */
  datatype Event =
    | Acquired(permit: nat)
    | Released(permit: nat)
    | Sent(attempt: nat, ordinal: nat)
    | Observed(attempt: nat, ordinal: nat, observation: nat)
    | Drained(attempt: nat)

  datatype Reason = BodyNotReplayable | RequestNotReplayable | AttemptLimit | Budget | NoUntriedEndpoint

  datatype Outcome =
    | Unselected(error: PlanError)
    | Duplicate
    | CloneFailed(ordinal: nat)
    | Answered(attempt: nat, ordinal: nat)
    | Exhausted

  /** The request state that the loop fills in. */
  class RequestContext {
    var attempts: nat
    var selection: Option<nat>
    var suppressed: Option<Reason>

    constructor ()
      ensures attempts == 0 && selection == None && suppressed == None
    {
      attempts, selection, suppressed := 0, None, None;
    }
  }

  function Clamp(maxAttempts: int): (m: nat)
    ensures 1 <= m <= CAPACITY
  {
    if maxAttempts < 1 then 1 else if maxAttempts > CAPACITY then CAPACITY else maxAttempts
  }

  /** The answer to attempt `a` is final without asking for a permit. */
  predicate Final(w: World, m: nat, a: nat) {
    !w.eligible || !w.decision(a).retry || a == m || w.canceled(a)
  }

  /** The attempt was answered, worth a retry, and a permit was granted. */
  predicate Continues(w: World, m: nat, a: nat) {
    !Final(w, m, a) && w.granted(a)
  }

  // ----- the discipline

  /** Permits acquired after attempts 1 to `n`, of which the first `released` have been given back. */
  ghost predicate Permits(log: seq<Event>, n: nat, released: nat) {
    && (forall p :: multiset(log)[Acquired(p)] == if 1 <= p <= n then 1 else 0)
    && (forall p :: multiset(log)[Released(p)] == if 1 <= p <= released then 1 else 0)
  }

  /** Attempts 1 to `n` were sent, once each, to the endpoints tried. */
  ghost predicate Sends(log: seq<Event>, tried: seq<nat>, n: nat)
    requires n <= |tried|
  {
    forall a, o :: multiset(log)[Sent(a, o)] == if 1 <= a <= n && o == tried[a - 1] then 1 else 0
  }

  /** Attempts 1 to `n` were observed, once each, with the classification of their own answer. */
  ghost predicate Observes(w: World, log: seq<Event>, tried: seq<nat>, n: nat)
    requires n <= |tried|
  {
    forall a, o, x :: multiset(log)[Observed(a, o, x)] ==
                      if 1 <= a <= n && o == tried[a - 1] && x == w.decision(a).observation then 1 else 0
  }

  /** Of the attempts 1 to `n`, exactly those with a response have been drained, once. */
  ghost predicate Drains(w: World, log: seq<Event>, n: nat) {
    forall a :: multiset(log)[Drained(a)] == if 1 <= a <= n && w.responds(a) then 1 else 0
  }

  /** The events of one permit stand in order: acquired, then its attempt is sent, then released. */
  ghost predicate Spans(log: seq<Event>) {
    && (forall i, j | 0 <= i < |log| && 0 <= j < |log| && log[i].Acquired? && log[j] == Released(log[i].permit) ::
         i < j)
    && (forall i, j | 0 <= i < |log| && 0 <= j < |log| && log[i].Sent? && log[j].Released? &&
                      log[i].attempt == log[j].permit + 1 :: i < j)
    && (forall i, j | 0 <= i < |log| && 0 <= j < |log| && log[i].Acquired? && log[j].Sent? &&
                      log[j].attempt == log[i].permit + 1 :: i < j)
  }

  /** The log after `sent` attempts were sent and observed, with the given permits and drains. */
  ghost predicate Ledger(w: World, log: seq<Event>, tried: seq<nat>, sent: nat, acquired: nat, released: nat,
                         drained: nat) {
    && sent <= |tried| && Distinct(tried)
    && Sends(log, tried, sent) && Observes(w, log, tried, sent)
    && Permits(log, acquired, released) && Drains(w, log, drained) && Spans(log)
  }

  /** A permit event says nothing about attempts and bodies. */
  lemma PermitEventKeeps(w: World, log: seq<Event>, tried: seq<nat>, sent: nat, drained: nat, e: Event)
    requires sent <= |tried| && Sends(log, tried, sent) && Observes(w, log, tried, sent) && Drains(w, log, drained)
    requires e.Acquired? || e.Released?
    ensures Sends(log + [e], tried, sent) && Observes(w, log + [e], tried, sent) && Drains(w, log + [e], drained)
  {
    assert multiset(log + [e]) == multiset(log) + multiset{e};
  }

  lemma SpansAcquired(log: seq<Event>, n: nat)
    requires Spans(log) && Released(n) !in log && forall x | x in log && x.Sent? :: x.attempt <= n
    ensures Spans(log + [Acquired(n)])
  {
  }

  lemma LogAcquired(w: World, log: seq<Event>, tried: seq<nat>, n: nat, drained: nat)
    requires n >= 1 && Ledger(w, log, tried, n, n - 1, n - 1, drained)
    ensures Ledger(w, log + [Acquired(n)], tried, n, n, n - 1, drained)
  {
    assert multiset(log)[Released(n)] == 0;
    forall x | x in log && x.Sent? ensures x.attempt <= n {
      assert multiset(log)[Sent(x.attempt, x.ordinal)] > 0;
    }
    hide Sends, Observes, Drains, Spans;
    PermitEventKeeps(w, log, tried, n, drained, Acquired(n));
    SpansAcquired(log, n);
  }

  lemma LogReleased(w: World, log: seq<Event>, tried: seq<nat>, sent: nat, n: nat, drained: nat)
    requires n >= 1 && Ledger(w, log, tried, sent, n, n - 1, drained)
    ensures Ledger(w, log + [Released(n)], tried, sent, n, n, drained)
  {
    hide Sends, Observes, Drains;
    PermitEventKeeps(w, log, tried, sent, drained, Released(n));
  }

  lemma LogDrained(w: World, log: seq<Event>, tried: seq<nat>, sent: nat, acquired: nat, released: nat, n: nat)
    requires n >= 1 && Ledger(w, log, tried, sent, acquired, released, n - 1) && w.responds(n)
    ensures Ledger(w, log + [Drained(n)], tried, sent, acquired, released, n)
  {
    DrainKeepsAttempts(w, log, tried, sent, n);
    DrainKeepsPermits(log, acquired, released, n);
    DrainKeepsSpans(log, n);
    hide Sends, Observes, Permits, Spans;
    assert multiset(log + [Drained(n)]) == multiset(log) + multiset{Drained(n)};
  }

  lemma DrainKeepsAttempts(w: World, log: seq<Event>, tried: seq<nat>, sent: nat, n: nat)
    requires sent <= |tried| && Sends(log, tried, sent) && Observes(w, log, tried, sent)
    ensures Sends(log + [Drained(n)], tried, sent) && Observes(w, log + [Drained(n)], tried, sent)
  {
    assert multiset(log + [Drained(n)]) == multiset(log) + multiset{Drained(n)};
  }

  lemma DrainKeepsPermits(log: seq<Event>, acquired: nat, released: nat, n: nat)
    requires Permits(log, acquired, released)
    ensures Permits(log + [Drained(n)], acquired, released)
  {
    assert multiset(log + [Drained(n)]) == multiset(log) + multiset{Drained(n)};
  }

  lemma DrainKeepsSpans(log: seq<Event>, n: nat)
    requires Spans(log)
    ensures Spans(log + [Drained(n)])
  {
  }

  /** The events of one attempt, in order; the permit it was retried with is given back after the answer. */
  function AttemptEvents(w: World, a: nat, ordinal: nat): seq<Event>
    requires a >= 1
  {
    if a > 1 then [Sent(a, ordinal), Released(a - 1), Observed(a, ordinal, w.decision(a).observation)]
    else [Sent(a, ordinal), Observed(a, ordinal, w.decision(a).observation)]
  }

  lemma SendsAfter(w: World, log: seq<Event>, tried: seq<nat>, ordinal: nat)
    requires Sends(log, tried, |tried|)
    ensures Sends(log + AttemptEvents(w, |tried| + 1, ordinal), tried + [ordinal], |tried| + 1)
  {
    var a, t, e := |tried| + 1, tried + [ordinal], AttemptEvents(w, |tried| + 1, ordinal);
    forall b, o ensures multiset(log + e)[Sent(b, o)] == if 1 <= b <= a && o == t[b - 1] then 1 else 0 {
      assert multiset(log)[Sent(b, o)] == if 1 <= b <= |tried| && o == tried[b - 1] then 1 else 0;
    }
  }

  lemma ObservesAfter(w: World, log: seq<Event>, tried: seq<nat>, ordinal: nat)
    requires Observes(w, log, tried, |tried|)
    ensures Observes(w, log + AttemptEvents(w, |tried| + 1, ordinal), tried + [ordinal], |tried| + 1)
  {
    var a, t, e := |tried| + 1, tried + [ordinal], AttemptEvents(w, |tried| + 1, ordinal);
    forall b, o, x ensures multiset(log + e)[Observed(b, o, x)] ==
                           if 1 <= b <= a && o == t[b - 1] && x == w.decision(b).observation then 1 else 0 {
      assert multiset(log)[Observed(b, o, x)] ==
             if 1 <= b <= |tried| && o == tried[b - 1] && x == w.decision(b).observation then 1 else 0;
    }
  }

  lemma SpansAfter(w: World, log: seq<Event>, a: nat, ordinal: nat)
    requires a >= 1 && Spans(log) && forall p | p in log && p.Released? :: p.permit + 1 < a
    ensures Spans(log + AttemptEvents(w, a, ordinal))
  {
  }

  lemma PermitsAfter(w: World, log: seq<Event>, a: nat, ordinal: nat)
    requires a >= 1 && Permits(log, a - 1, if a > 1 then a - 2 else 0)
    ensures Permits(log + AttemptEvents(w, a, ordinal), a - 1, a - 1)
    ensures forall p | p in log && p.Released? :: p.permit + 1 < a
  {
    forall p | p in log && p.Released? ensures p.permit + 1 < a {
      assert multiset(log)[Released(p.permit)] > 0;
    }
  }

  lemma DrainsAfter(w: World, log: seq<Event>, a: nat, ordinal: nat, n: nat)
    requires a >= 1 && Drains(w, log, n)
    ensures Drains(w, log + AttemptEvents(w, a, ordinal), n)
  {
  }

  lemma LogAttempt(w: World, log: seq<Event>, tried: seq<nat>, ordinal: nat)
    requires var n := |tried|; Ledger(w, log, tried, n, n, if n >= 1 then n - 1 else 0, n) && ordinal !in tried
    ensures var n := |tried|; Ledger(w, log + AttemptEvents(w, n + 1, ordinal), tried + [ordinal], n + 1, n, n, n)
  {
    hide Sends, Observes, Spans, Permits, Drains, AttemptEvents;
    var n := |tried|;
    SendsAfter(w, log, tried, ordinal);
    ObservesAfter(w, log, tried, ordinal);
    PermitsAfter(w, log, n + 1, ordinal);
    SpansAfter(w, log, n + 1, ordinal);
    DrainsAfter(w, log, n + 1, ordinal, n);
    assert Distinct(tried + [ordinal]);
  }

  // ----- the loop

  /** The shared counter at this request's selection number `k`, counted from zero, if the first was at `first`. */
  function Counter(w: World, plan: Plan, first: nat, k: nat): nat {
    if k == 0 then first else (Advanced(plan, Counter(w, plan, first, k - 1)) + w.others(k)) % Wrr.WORD
  }

  /** The value selection number `k` leaves in the shared counter. */
  predicate CounterAfter(w: World, plan: Plan, first: nat, k: nat, value: nat) {
    value == Advanced(plan, Counter(w, plan, first, k))
  }

  /** At counter `start` the plan has no pick for an endpoint outside `tried`. */
  ghost predicate Stuck(plan: Plan, start: nat, sum: nat, tried: seq<nat>, healthy: nat -> bool)
    requires Compiled(plan)
  {
    exists ordinal: nat :: IsPick(plan, start, sum, Selectable(plan.endpointCount, tried, healthy), ordinal, false)
  }

  /** The endpoints tried are distinct, within the limit, and each was healthy when it was chosen. */
  ghost predicate Chosen(w: World, plan: Plan, m: nat, tried: seq<nat>) {
    && |tried| <= m && Distinct(tried)
    && (forall k | 1 <= k < |tried| :: Continues(w, m, k))
    && forall i | 0 <= i < |tried| :: tried[i] < plan.endpointCount && w.healthy(i)(tried[i])
  }

  /** How the loop ends: the log, and why the last attempt was the last. */
  ghost predicate Ended(w: World, plan: Plan, first: nat, sum: nat, m: nat, log: seq<Event>, tried: seq<nat>,
                        outcome: Outcome)
    requires Compiled(plan)
  {
    var n := |tried|;
    match outcome
    case Unselected(e) =>
      n == 0 && log == [] && if e.NoEndpoint? then !Usable(plan) else Stuck(plan, first, sum, [], w.healthy(0))
    case CloneFailed(ordinal) =>
      n >= 1 && ordinal == tried[n - 1] && w.cloneFails(n) && Ledger(w, log, tried, n - 1, n - 1, n - 1, n - 1)
    case Answered(a, ordinal) =>
      && n >= 1 && a == n && ordinal == tried[n - 1] && !w.cloneFails(n)
      && if Continues(w, m, n)
         then Stuck(plan, Counter(w, plan, first, n), sum, tried, w.healthy(n)) && Ledger(w, log, tried, n, n, n, n - 1)
         else Ledger(w, log, tried, n, n - 1, n - 1, n - 1)
    case Duplicate => false
    case Exhausted => false
  }

  /** Why no further attempt followed, as reported to the client's telemetry. */
  function Suppression(w: World, m: nat, n: nat, outcome: Outcome, before: Option<Reason>): Option<Reason> {
    if !outcome.Answered? then (if outcome.CloneFailed? then Some(BodyNotReplayable) else before)
    else if !w.decision(n).retry then before
    else if !w.eligible then Some(RequestNotReplayable)
    else if n == m then Some(AttemptLimit)
    else if w.canceled(n) then before
    else if !w.granted(n) then Some(Budget)
    else Some(NoUntriedEndpoint)
  }

  /** No attempt beyond the `n`-th is allowed: five at most, and as many as configured but at least one. */
  predicate AtLimit(maxAttempts: int, n: nat) {
    n >= 5 || n >= maxAttempts
  }

  /** Which reason is reported, in terms of what happened at the last attempt, number `n`. */
  ghost predicate IsReason(w: World, maxAttempts: int, n: nat, outcome: Outcome, reason: Option<Reason>) {
    var wanted := outcome.Answered? && w.decision(n).retry;
    && (reason == Some(BodyNotReplayable) <==> outcome.CloneFailed?)
    && (reason == Some(RequestNotReplayable) <==> wanted && !w.eligible)
    && (reason == Some(AttemptLimit) <==> wanted && w.eligible && AtLimit(maxAttempts, n))
    && (reason == Some(Budget) <==>
          wanted && w.eligible && !AtLimit(maxAttempts, n) && !w.canceled(n) && !w.granted(n))
    && (reason == Some(NoUntriedEndpoint) <==>
          wanted && w.eligible && !AtLimit(maxAttempts, n) && !w.canceled(n) && w.granted(n))
  }

  lemma SuppressionMeaning(w: World, maxAttempts: int, n: nat, outcome: Outcome)
    requires n <= Clamp(maxAttempts) && (outcome.Answered? ==> n >= 1)
    ensures IsReason(w, maxAttempts, n, outcome, Suppression(w, Clamp(maxAttempts), n, outcome, None))
  {
  }

  lemma ClampMeaning(maxAttempts: int, n: nat)
    requires n <= Clamp(maxAttempts)
    ensures n <= 5 && (n <= 1 || n <= maxAttempts)
    ensures n >= 1 ==> (n == Clamp(maxAttempts) <==> AtLimit(maxAttempts, n))
  {
  }

  /** The loop is over: how it ended, the reason it reports, and the counter it leaves. */
  ghost predicate Finished(w: World, plan: Plan, first: nat, sum: nat, m: nat, log: seq<Event>, tried: seq<nat>,
                           outcome: Outcome, before: Option<Reason>, reason: Option<Reason>, counter: nat)
    requires Compiled(plan)
  {
    && Chosen(w, plan, m, tried) && Ended(w, plan, first, sum, m, log, tried, outcome)
    && reason == Suppression(w, m, |tried|, outcome, before)
    && CounterAfter(w, plan, first, LastSelection(w, m, |tried|, outcome), counter)
  }

  /** The number, counted from zero, of the last selection the loop made. */
  function LastSelection(w: World, m: nat, n: nat, outcome: Outcome): nat {
    if n == 0 || (outcome.Answered? && Continues(w, m, n)) then n else n - 1
  }

  lemma LastIs(w: World, m: nat, n: nat, ordinal: nat)
    requires n > 0
    ensures LastSelection(w, m, n, CloneFailed(ordinal)) == n - 1
    ensures LastSelection(w, m, n, Answered(n, ordinal)) == if Continues(w, m, n) then n else n - 1
  {
  }

  lemma FirstCounter(w: World, plan: Plan, first: nat)
    ensures CounterAfter(w, plan, first, 0, Advanced(plan, first))
  {
  }

  lemma Explained(w: World, m: nat, n: nat, ordinal: nat, before: Option<Reason>)
    ensures Suppression(w, m, n, CloneFailed(ordinal), before) == Some(BodyNotReplayable)
    ensures Final(w, m, n) ==> Suppression(w, m, n, Answered(n, ordinal), before) ==
                               if !w.eligible && w.decision(n).retry then Some(RequestNotReplayable)
                               else if n == m && w.decision(n).retry then Some(AttemptLimit)
                               else before
    ensures !Final(w, m, n) ==> Suppression(w, m, n, Answered(n, ordinal), before) ==
                                Some(if w.granted(n) then NoUntriedEndpoint else Budget)
  {
  }

  lemma ChosenMore(w: World, plan: Plan, m: nat, tried: seq<nat>, ordinal: nat)
    requires Chosen(w, plan, m, tried) && |tried| < m && (|tried| > 0 ==> Continues(w, m, |tried|))
    requires ordinal !in tried && ordinal < plan.endpointCount && w.healthy(|tried|)(ordinal)
    ensures Chosen(w, plan, m, tried + [ordinal])
  {
  }

  lemma EndsUnselected(w: World, plan: Plan, first: nat, sum: nat, m: nat, r: Result<nat, PlanError>,
                       before: Option<Reason>)
    requires Compiled(plan) && r.Err? && (r == Err(NoEndpoint) <==> !Usable(plan))
    requires Usable(plan) ==> Answers(plan, first, sum, Selectable(plan.endpointCount, [], w.healthy(0)), r)
    ensures Finished(w, plan, first, sum, m, [], [], Unselected(r.error), before, before, Advanced(plan, first))
  {
  }

  lemma EndsCloneFailed(w: World, plan: Plan, first: nat, sum: nat, m: nat, log: seq<Event>, tried: seq<nat>,
                        ordinal: nat)
    requires Compiled(plan) && w.cloneFails(|tried| + 1) && ordinal !in tried
    requires Ledger(w, log, tried, |tried|, |tried|, |tried|, |tried|)
    ensures Ended(w, plan, first, sum, m, log, tried + [ordinal], CloneFailed(ordinal))
  {
    hide Ledger;
    KeepLedger(w, log, tried, ordinal, |tried|, |tried|, |tried|);
  }

  lemma EndsAnswered(w: World, plan: Plan, first: nat, sum: nat, m: nat, log: seq<Event>, tried: seq<nat>)
    requires Compiled(plan) && tried != [] && !w.cloneFails(|tried|) && !Continues(w, m, |tried|)
    requires Ledger(w, log, tried, |tried|, |tried| - 1, |tried| - 1, |tried| - 1)
    ensures Ended(w, plan, first, sum, m, log, tried, Answered(|tried|, tried[|tried| - 1]))
  {
    hide Ledger;
  }

  lemma {:induction false} EndsStuck(w: World, plan: Plan, first: nat, sum: nat, m: nat, log: seq<Event>,
                                     tried: seq<nat>, r: Result<nat, PlanError>)
    requires Compiled(plan) && tried != [] && !w.cloneFails(|tried|) && Continues(w, m, |tried|)
    requires r.Err? && Answers(plan, Counter(w, plan, first, |tried|), sum,
                                Selectable(plan.endpointCount, tried, w.healthy(|tried|)), r)
    requires Ledger(w, log, tried, |tried|, |tried|, |tried| - 1, |tried| - 1)
    ensures Ended(w, plan, first, sum, m, log + [Released(|tried|)], tried, Answered(|tried|, tried[|tried| - 1]))
  {
    hide Ledger;
    LogReleased(w, log, tried, |tried|, |tried|, |tried| - 1);
  }

  lemma KeepLedger(w: World, log: seq<Event>, tried: seq<nat>, ordinal: nat, acquired: nat, released: nat, drained: nat)
    requires Ledger(w, log, tried, |tried|, acquired, released, drained) && ordinal !in tried
    ensures Ledger(w, log, tried + [ordinal], |tried|, acquired, released, drained)
  {
    hide Permits, Drains, Spans;
    var t, n := tried + [ordinal], |tried|;
    forall a, o ensures multiset(log)[Sent(a, o)] == if 1 <= a <= n && o == t[a - 1] then 1 else 0 {
      assert multiset(log)[Sent(a, o)] == if 1 <= a <= n && o == tried[a - 1] then 1 else 0;
    }
    forall a, o, x ensures multiset(log)[Observed(a, o, x)] ==
                           if 1 <= a <= n && o == t[a - 1] && x == w.decision(a).observation then 1 else 0 {
      assert multiset(log)[Observed(a, o, x)] ==
             if 1 <= a <= n && o == tried[a - 1] && x == w.decision(a).observation then 1 else 0;
    }
  }

  lemma NoResponse(w: World, log: seq<Event>, tried: seq<nat>, n: nat)
    requires n >= 1 && Ledger(w, log, tried, n, n, n - 1, n - 1) && !w.responds(n)
    ensures Ledger(w, log, tried, n, n, n - 1, n)
  {
  }

  lemma EmptyLedger(w: World)
    ensures Ledger(w, [], [], 0, 0, 0, 0)
  {
  }

  /** Releases a permit if there is one. */
  function Give(log: seq<Event>, permit: Option<nat>): seq<Event> {
    match permit
    case Some(p) => log + [Released(p)]
    case None => log
  }

  lemma GiveBack(w: World, log: seq<Event>, tried: seq<nat>, permit: Option<nat>)
    requires permit == if tried != [] then Some(|tried|) else None
    requires Ledger(w, log, tried, |tried|, |tried|, if tried != [] then |tried| - 1 else 0, |tried|)
    ensures Ledger(w, Give(log, permit), tried, |tried|, |tried|, |tried|, |tried|)
  {
    hide Ledger;
    if tried != [] { LogReleased(w, log, tried, |tried|, |tried|, |tried|); }
  }

  /** Before attempt `a`: the earlier ones are settled, its permit is held, and its endpoint is untried. */
  ghost predicate Ready(w: World, plan: Plan, m: nat, log: seq<Event>, tried: seq<nat>, a: nat, selection: nat,
                        permit: Option<nat>)
  {
    && 1 <= a <= m && |tried| == a - 1 && Chosen(w, plan, m, tried) && (a > 1 ==> Continues(w, m, a - 1))
    && selection !in tried && selection < plan.endpointCount && w.healthy(a - 1)(selection)
    && permit == (if a > 1 then Some(a - 1) else None)
    && Ledger(w, log, tried, a - 1, a - 1, if a > 1 then a - 2 else 0, a - 1)
  }

  lemma ReadyFirst(w: World, plan: Plan, m: nat, selection: nat)
    requires m >= 1 && selection < plan.endpointCount && w.healthy(0)(selection)
    ensures Ready(w, plan, m, [], [], 1, selection, None)
  {
    EmptyLedger(w);
  }

  lemma ReadyFacts(w: World, plan: Plan, m: nat, log: seq<Event>, tried: seq<nat>, a: nat, selection: nat,
                   permit: Option<nat>)
    requires Ready(w, plan, m, log, tried, a, selection, permit)
    ensures 1 <= a <= m && |tried| == a - 1 && selection !in tried && Chosen(w, plan, m, tried + [selection])
  {
    hide Ledger;
    ChosenMore(w, plan, m, tried, selection);
  }

  lemma EndsUncloned(w: World, plan: Plan, first: nat, sum: nat, m: nat, log: seq<Event>, tried: seq<nat>, a: nat,
                     selection: nat, permit: Option<nat>, before: Option<Reason>, counter: nat)
    requires Compiled(plan) && Ready(w, plan, m, log, tried, a, selection, permit) && w.cloneFails(a)
    requires CounterAfter(w, plan, first, a - 1, counter)
    ensures Finished(w, plan, first, sum, m, Give(log, permit), tried + [selection], CloneFailed(selection), before,
                     Some(BodyNotReplayable), counter)
  {
    ReadyFacts(w, plan, m, log, tried, a, selection, permit);
    hide Ledger, Chosen, Continues, Give, Ended, CounterAfter;
    GiveBack(w, log, tried, permit);
    EndsCloneFailed(w, plan, first, sum, m, Give(log, permit), tried, selection);
  }

  /** One transport attempt: sent, its permit given back, classified and observed. */
  method SendAttempt(w: World, attempt: nat, selection: nat, permit: Option<nat>, before: seq<Event>,
                     ghost plan: Plan, ghost m: nat, ghost tried: seq<nat>)
    returns (log: seq<Event>)
    requires Ready(w, plan, m, before, tried, attempt, selection, permit)
    ensures Ledger(w, log, tried + [selection], attempt, attempt - 1, attempt - 1, attempt - 1)
  {
    hide Ledger, Chosen, Continues;
    log := before + [Sent(attempt, selection)];
    log := Give(log, permit);
    log := log + [Observed(attempt, selection, w.decision(attempt).observation)];
    assert log == before + AttemptEvents(w, attempt, selection);
    LogAttempt(w, before, tried, selection);
  }

  /** After an answer: a permit, another endpoint, and the body of the answer drained; or the end and its reason. */
  method NextChoice(w: World, plan: Plan, state: Wrr.SelectionState, sum: nat, m: nat, attempt: nat,
                    attempted: AttemptSet, before: seq<Event>, ctx: RequestContext, ghost first: nat)
    returns (next: Option<nat>, log: seq<Event>)
    requires Compiled(plan) && Usable(plan) && state.sequence < Wrr.WORD
    requires attempted.Valid() && |attempted.Elements()| == attempt >= 1
    requires !w.cloneFails(attempt) && attempt <= m && Chosen(w, plan, m, attempted.Elements())
    requires Ledger(w, before, attempted.Elements(), attempt, attempt - 1, attempt - 1, attempt - 1)
    requires CounterAfter(w, plan, first, attempt - 1, state.sequence)
    modifies state, ctx`suppressed
    ensures state.sequence < Wrr.WORD
    ensures next.None? ==>
              var outcome := Answered(attempt, attempted.Elements()[attempt - 1]);
              Finished(w, plan, first, sum, m, log, attempted.Elements(), outcome, old(ctx.suppressed), ctx.suppressed,
                       state.sequence)
    ensures next.Some? ==>
              && CounterAfter(w, plan, first, attempt, state.sequence) && ctx.suppressed == old(ctx.suppressed)
              && attempt < m && Ready(w, plan, m, log, attempted.Elements(), attempt + 1, next.value, Some(attempt))
  {
    hide Ledger, IsPick, Ended, Answers, Distinct, Selectable, Chosen, Suppression, LastSelection;
    log := before;
    ghost var tried := attempted.Elements();
    Explained(w, m, attempt, tried[attempt - 1], ctx.suppressed);
    LastIs(w, m, attempt, tried[attempt - 1]);
    var decision := w.decision(attempt);
    if !w.eligible || !decision.retry || attempt == m || w.canceled(attempt) {
      if !w.eligible && decision.retry {
        ctx.suppressed := Some(RequestNotReplayable);
      } else if attempt == m && decision.retry {
        ctx.suppressed := Some(AttemptLimit);
      }
      EndsAnswered(w, plan, first, sum, m, log, tried);
      return None, log;
    }
    if !w.granted(attempt) {
      EndsAnswered(w, plan, first, sum, m, log, tried);
      ctx.suppressed := Some(Budget);
      return None, log;
    }
    LogAcquired(w, log, tried, attempt, attempt - 1);
    log := log + [Acquired(attempt)];
    Interfere(state, w.others(attempt));
    assert state.sequence == Counter(w, plan, first, attempt);
    var choice := SelectNext(plan, state, sum, attempted, w.healthy(attempt));
    if choice.Err? {
      EndsStuck(w, plan, first, sum, m, log, tried, choice);
      log := log + [Released(attempt)];
      ctx.suppressed := Some(NoUntriedEndpoint);
      return None, log;
    }
    if w.responds(attempt) {
      LogDrained(w, log, tried, attempt, attempt, attempt - 1, attempt);
      log := log + [Drained(attempt)];
    } else {
      NoResponse(w, log, tried, attempt);
    }
    return Some(choice.value), log;
  }

  /** One round of the loop: the endpoint is marked as tried, the attempt is made, and the next one is prepared. */
  method MakeAttempt(w: World, plan: Plan, state: Wrr.SelectionState, sum: nat, m: nat, attempt: nat, selection: nat,
                     permit: Option<nat>, attempted: AttemptSet, before: seq<Event>, ctx: RequestContext,
                     ghost first: nat)
    returns (next: Option<nat>, log: seq<Event>, outcome: Outcome)
    requires Compiled(plan) && Usable(plan) && state.sequence < Wrr.WORD && attempted.Valid() && m <= CAPACITY
    requires Ready(w, plan, m, before, attempted.Elements(), attempt, selection, permit)
    requires attempt >= 1 && CounterAfter(w, plan, first, attempt - 1, state.sequence)
    modifies state, ctx, attempted, attempted.ordinals
    ensures attempted.Valid() && attempted.Elements() == old(attempted.Elements()) + [selection]
    ensures state.sequence < Wrr.WORD && ctx.attempts == attempt && ctx.selection == Some(selection)
    ensures next.None? ==>
              && |attempted.Elements()| == attempt
              && Finished(w, plan, first, sum, m, log, attempted.Elements(), outcome, old(ctx.suppressed),
                          ctx.suppressed, state.sequence)
    ensures next.Some? ==>
              && CounterAfter(w, plan, first, attempt, state.sequence) && ctx.suppressed == old(ctx.suppressed)
              && attempt < m && Ready(w, plan, m, log, attempted.Elements(), attempt + 1, next.value, Some(attempt))
  {
    hide Ledger, Finished, Give, Ready, Compiled, Usable, CounterAfter, Distinct, Chosen;
    ghost var tried := attempted.Elements();
    ReadyFacts(w, plan, m, before, tried, attempt, selection, permit);
    var added := attempted.Add(selection);
    if !added { return None, Give(before, permit), Duplicate; }
    ctx.attempts := attempt;
    ctx.selection := Some(selection);
    if w.cloneFails(attempt) {
      EndsUncloned(w, plan, first, sum, m, before, tried, attempt, selection, permit, ctx.suppressed, state.sequence);
      ctx.suppressed := Some(BodyNotReplayable);
      return None, Give(before, permit), CloneFailed(selection);
    }
    log := SendAttempt(w, attempt, selection, permit, before, plan, m, tried);
    outcome := Answered(attempt, selection);
    next, log := NextChoice(w, plan, state, sum, m, attempt, attempted, log, ctx, first);
  }

  /** What was tried and how it ended, in numbers and reported reasons. */
  lemma Conclude(w: World, plan: Plan, first: nat, sum: nat, maxAttempts: int, log: seq<Event>, tried: seq<nat>,
                 outcome: Outcome, before: Option<Reason>, reason: Option<Reason>, counter: nat)
    requires Compiled(plan)
    requires Finished(w, plan, first, sum, Clamp(maxAttempts), log, tried, outcome, before, reason, counter)
    ensures |tried| <= 5 && (|tried| <= 1 || |tried| <= maxAttempts)
    ensures before.None? ==> IsReason(w, maxAttempts, |tried|, outcome, reason)
    ensures Chosen(w, plan, Clamp(maxAttempts), tried)
    ensures Ended(w, plan, first, sum, Clamp(maxAttempts), log, tried, outcome)
    ensures CounterAfter(w, plan, first, LastSelection(w, Clamp(maxAttempts), |tried|, outcome), counter)
    ensures reason == Suppression(w, Clamp(maxAttempts), |tried|, outcome, before)
  {
    hide Ledger, Stuck, Clamp, IsReason, Suppression, Counter;
    ClampMeaning(maxAttempts, |tried|);
    SuppressionMeaning(w, maxAttempts, |tried|, outcome);
  }

  method ExecuteAttempts(w: World, plan: Plan, state: Wrr.SelectionState, sum: nat, maxAttempts: int,
                         ctx: RequestContext)
    returns (outcome: Outcome, log: seq<Event>, tried: seq<nat>)
    requires Compiled(plan) && state.sequence < Wrr.WORD
    modifies state, ctx
    ensures |tried| <= 5 && (|tried| <= 1 || |tried| <= maxAttempts)
    ensures old(ctx.suppressed).None? ==> IsReason(w, maxAttempts, |tried|, outcome, ctx.suppressed)
    ensures Chosen(w, plan, Clamp(maxAttempts), tried)
    ensures Ended(w, plan, old(state.sequence), sum, Clamp(maxAttempts), log, tried, outcome)
    ensures CounterAfter(w, plan, old(state.sequence), LastSelection(w, Clamp(maxAttempts), |tried|, outcome),
                         state.sequence)
    ensures ctx.suppressed == Suppression(w, Clamp(maxAttempts), |tried|, outcome, old(ctx.suppressed))
    ensures tried == [] ==> ctx.attempts == old(ctx.attempts) && ctx.selection == old(ctx.selection)
    ensures tried != [] ==> ctx.attempts == |tried| && ctx.selection == Some(tried[|tried| - 1])
  {
    hide Ledger, IsPick, Finished, Answers, Distinct, Selectable, Give, Ready, Compiled, Usable, CounterAfter, Advanced,
        IsReason, Clamp;
    var m := Clamp(maxAttempts);
    ghost var first := state.sequence;
    log, tried, outcome := [], [], Exhausted;
    var attempted := new AttemptSet();
    var choice := SelectNext(plan, state, sum, attempted, w.healthy(0));
    FirstCounter(w, plan, first);
    if choice.Err? {
      EndsUnselected(w, plan, first, sum, m, choice, ctx.suppressed);
      outcome := Unselected(choice.error);
      Conclude(w, plan, first, sum, maxAttempts, log, tried, outcome, ctx.suppressed, ctx.suppressed, state.sequence);
      return;
    }
    ReadyFirst(w, plan, m, choice.value);
    var selection: nat := choice.value;
    var permit: Option<nat> := None;
    var attempt: nat := 1;
    while attempt <= m
      invariant attempted.Valid() && attempted.Elements() == tried && fresh(attempted) && fresh(attempted.ordinals)
      invariant outcome == Exhausted && attempt <= m
      invariant Ready(w, plan, m, log, tried, attempt, selection, permit)
      invariant tried == [] ==> ctx.attempts == old(ctx.attempts) && ctx.selection == old(ctx.selection)
      invariant ctx.suppressed == old(ctx.suppressed) && state.sequence < Wrr.WORD
      invariant CounterAfter(w, plan, first, attempt - 1, state.sequence)
      decreases m - attempt
    {
      var next;
      next, log, outcome := MakeAttempt(w, plan, state, sum, m, attempt, selection, permit, attempted, log, ctx, first);
      tried := tried + [selection];
      if next.None? { break; }
      outcome := Exhausted;
      permit := Some(attempt);
      selection := next.value;
      attempt := attempt + 1;
    }
    Conclude(w, plan, first, sum, maxAttempts, log, tried, outcome, old(ctx.suppressed), ctx.suppressed,
             state.sequence);
  }

  /** A retried attempt is sent while its permit is held. */
  lemma HeldWhileSent(log: seq<Event>, permits: nat, k: nat)
    requires Spans(log) && Permits(log, permits, permits)
    requires k < |log| && log[k].Sent? && 1 < log[k].attempt <= permits + 1
    ensures Acquired(log[k].attempt - 1) in log[..k] && Released(log[k].attempt - 1) in log[k + 1..]
  {
    var p := log[k].attempt - 1;
    assert multiset(log)[Acquired(p)] == 1 && multiset(log)[Released(p)] == 1;
    var i :| 0 <= i < |log| && log[i] == Acquired(p);
    var j :| 0 <= j < |log| && log[j] == Released(p);
    assert log[..k][i] == Acquired(p);
    assert log[k + 1..][j - k - 1] == Released(p);
  }

  lemma SentInRange(log: seq<Event>, tried: seq<nat>, sent: nat, k: nat)
    requires sent <= |tried| && Sends(log, tried, sent) && k < |log| && log[k].Sent?
    ensures 1 <= log[k].attempt <= sent && log[k].ordinal == tried[log[k].attempt - 1]
  {
    assert log[k] in multiset(log);
    assert multiset(log)[Sent(log[k].attempt, log[k].ordinal)] > 0;
  }

  /** What a settled ledger says about every attempt sent. */
  lemma LedgerSends(w: World, log: seq<Event>, tried: seq<nat>, sent: nat, permits: nat, drained: nat)
    requires Ledger(w, log, tried, sent, permits, permits, drained) && sent <= permits + 1
    ensures forall i, k | 0 <= i < k < |log| && log[i].Sent? && log[k].Sent? ::
              log[i].attempt != log[k].attempt && log[i].ordinal != log[k].ordinal
    ensures forall k | 0 <= k < |log| && log[k].Sent? ::
              && 1 <= log[k].attempt <= sent && log[k].ordinal == tried[log[k].attempt - 1]
              && multiset(log)[Drained(log[k].attempt)] ==
                 if log[k].attempt <= drained && w.responds(log[k].attempt) then 1 else 0
    ensures forall k | 0 <= k < |log| && log[k].Sent? && log[k].attempt > 1 ::
              Acquired(log[k].attempt - 1) in log[..k] && Released(log[k].attempt - 1) in log[k + 1..]
  {
    hide Spans, Permits, Observes;
    forall k | 0 <= k < |log| && log[k].Sent?
      ensures 1 <= log[k].attempt <= sent && log[k].ordinal == tried[log[k].attempt - 1]
      ensures log[k].attempt > 1 ==>
                Acquired(log[k].attempt - 1) in log[..k] && Released(log[k].attempt - 1) in log[k + 1..]
    {
      SentInRange(log, tried, sent, k);
      if log[k].attempt > 1 { HeldWhileSent(log, permits, k); }
    }
    forall i, k | 0 <= i < k < |log| && log[i].Sent? && log[k].Sent?
      ensures log[i].attempt != log[k].attempt && log[i].ordinal != log[k].ordinal
    {
      assert multiset(log)[Sent(log[i].attempt, log[i].ordinal)] <= 1;
      if log[i].attempt == log[k].attempt { RepeatedEvent(log, i, k); }
    }
  }

  lemma LedgerCounts(w: World, log: seq<Event>, tried: seq<nat>, sent: nat, permits: nat, drained: nat)
    requires Ledger(w, log, tried, sent, permits, permits, drained)
    ensures forall p :: multiset(log)[Acquired(p)] == multiset(log)[Released(p)] <= 1
    ensures forall a, o :: multiset(log)[Sent(a, o)] == multiset(log)[Observed(a, o, w.decision(a).observation)] <= 1
  {
    hide Spans, Drains;
  }

  /** What every ending means for permits, observations and bodies. */
  lemma RetryDiscipline(w: World, plan: Plan, first: nat, sum: nat, m: nat, log: seq<Event>, tried: seq<nat>,
                        outcome: Outcome)
    requires Compiled(plan) && Chosen(w, plan, m, tried) && Ended(w, plan, first, sum, m, log, tried, outcome)
    ensures !outcome.Duplicate? && !outcome.Exhausted?
    ensures forall p :: multiset(log)[Acquired(p)] == multiset(log)[Released(p)] <= 1
    ensures forall a, o :: multiset(log)[Sent(a, o)] == multiset(log)[Observed(a, o, w.decision(a).observation)] <= 1
    ensures forall i, k | 0 <= i < k < |log| && log[i].Sent? && log[k].Sent? ::
              log[i].attempt != log[k].attempt && log[i].ordinal != log[k].ordinal
    ensures forall k | 0 <= k < |log| && log[k].Sent? ::
              multiset(log)[Drained(log[k].attempt)] ==
              if w.responds(log[k].attempt) && outcome != Answered(log[k].attempt, log[k].ordinal) then 1 else 0
    ensures forall k | 0 <= k < |log| && log[k].Sent? && log[k].attempt > 1 ::
              Acquired(log[k].attempt - 1) in log[..k] && Released(log[k].attempt - 1) in log[k + 1..]
  {
    hide Ledger, Stuck, Continues, IsPick, Counter, Chosen;
    if !outcome.Unselected? {
      var n: nat := if outcome.CloneFailed? then |tried| - 1 else |tried|;
      var permits: nat := if outcome.CloneFailed? || !Continues(w, m, |tried|) then |tried| - 1 else |tried|;
      LedgerCounts(w, log, tried, n, permits, |tried| - 1);
      LedgerSends(w, log, tried, n, permits, |tried| - 1);
    }
  }

  lemma RepeatedEvent(log: seq<Event>, i: nat, k: nat)
    requires i < k < |log| && log[i] == log[k]
    ensures multiset(log)[log[i]] >= 2
  {
    assert log == log[..k] + log[k..];
    assert log[..k][i] in multiset(log[..k]) && log[k..][0] in multiset(log[k..]);
  }

  /**
   The loop runs out of endpoints only when there are none left: at a counter whose round looks at every endpoint,
   the request fails unselected or gives up with NoUntriedEndpoint only if no endpoint of positive weight was both
   healthy and untried.
   */
  lemma {:induction false} GivesUpOnlyWithNoneLeft(
    w: World, plan: Plan, endpoints: seq<Wrr.WeightedEndpoint>, h: (string, nat) -> nat, first: nat, sum: nat, m: nat,
    log: seq<Event>, tried: seq<nat>, outcome: Outcome)
    requires CompiledFrom(plan, endpoints, h) && Compiled(plan)
    requires Ended(w, plan, first, sum, m, log, tried, outcome)
    requires outcome == Unselected(NoHealthyEndpoint)
             || Suppression(w, m, |tried|, outcome, None) == Some(NoUntriedEndpoint)
    requires LooksAtAll(plan, Counter(w, plan, first, |tried|))
    ensures forall x | x in Wrr.Positive(endpoints) :: x in tried || !w.healthy(|tried|)(x)
  {
    hide CompiledFrom, Compiled, IsPick, Ledger, LooksAtAll, Wrr.Positive;
    var start := Counter(w, plan, first, |tried|);
    var selectable := Selectable(plan.endpointCount, tried, w.healthy(|tried|));
    var ordinal :| IsPick(plan, start, sum, selectable, ordinal, false);
    PickComplete(plan, endpoints, h, start, sum, selectable, ordinal, false);
    forall x | x in Wrr.Positive(endpoints) ensures x in tried || !w.healthy(|tried|)(x) {
      PositiveInRange(plan, endpoints, h, x);
      assert !selectable(x);
    }
  }

  lemma PositiveInRange(plan: Plan, endpoints: seq<Wrr.WeightedEndpoint>, h: (string, nat) -> nat, x: nat)
    requires CompiledFrom(plan, endpoints, h) && x in Wrr.Positive(endpoints)
    ensures x < plan.endpointCount
  {
  }

  /** Other requests advance the shared counter. */
  method Interfere(state: Wrr.SelectionState, selections: nat)
    modifies state
    ensures state.sequence < Wrr.WORD && state.sequence == (old(state.sequence) + selections) % Wrr.WORD
  {
    state.sequence := (state.sequence + selections) % Wrr.WORD;
  }
}
