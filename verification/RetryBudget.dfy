/**
 The lock-free retry budget (internal/upstream/budget.go).

 Any number of goroutines run CreditPrimary, Acquire and Release.  Every atomic load
 and every compare-and-swap is one step, so a compare-and-swap can fail because
 another goroutine came in between.  A run is any sequence of steps.
 */
module RetryBudget {
  import opened Counting

  const CREDIT_UNIT: nat := 1000
  const WORD32: nat := 0x1_0000_0000

  /** The policy: credits per primary request, and the two bounds. */
  datatype Config = Config(ratio: nat, burst: nat, maxInflight: nat) {
    function MaxCredits(): nat { burst * CREDIT_UNIT }

    predicate Valid() { ratio < 65536 && burst < 65536 && maxInflight < 65536 }
  }

  /** Where a goroutine is; `NoRead` means its next step is the load of its loop. */
  datatype Read = NoRead | Saw(value: nat)

  datatype Thread =
    | Idle
    | Crediting(read: Read)
    | Reserving(read: Read)
    | Recording(slot: nat, read: Read)
    | Spending(read: Read)
    | GivingBack
    | Holding
    | Releasing

  /**
   `primaries` and `granted` count finished CreditPrimary calls and granted permits; `peak` is the
   largest inflight so far.
   */
  datatype State = State(
    credits: nat, inflight: nat, maxObserved: nat, threads: seq<Thread>, primaries: nat, granted: nat, peak: nat)

  datatype Action = StartCredit(t: nat) | StartAcquire(t: nat) | StartRelease(t: nat) | Go(t: nat)

  function Init(n: nat): State {
    State(0, 0, 0, seq(n, _ => Idle), 0, 0, 0)
  }

  function At(s: State, t: nat, now: Thread): State
    requires t < |s.threads|
  {
    s.(threads := s.threads[t := now])
  }

  function Max(a: nat, b: nat): nat { if a >= b then a else b }

  /** One step.  A step that the goroutine's position does not allow changes nothing. */
  function Step(c: Config, s: State, a: Action): State {
    if a.t >= |s.threads| then s
    else match a
      case StartCredit(t) => if s.threads[t].Idle? then At(s, t, Crediting(NoRead)) else s
      case StartAcquire(t) => if s.threads[t].Idle? then At(s, t, Reserving(NoRead)) else s
      case StartRelease(t) => if s.threads[t].Holding? then At(s, t, Releasing) else s
      case Go(t) => Advance(c, s, t)
  }

  function Advance(c: Config, s: State, t: nat): State
    requires t < |s.threads|
  {
    match s.threads[t]
    case Idle => s
    case Holding => s
    case Crediting(NoRead) =>
      if s.credits >= c.MaxCredits() then At(s.(primaries := s.primaries + 1), t, Idle)
      else At(s, t, Crediting(Saw(s.credits)))
    case Crediting(Saw(v)) =>
      if s.credits != v then At(s, t, Crediting(NoRead))
      else
        var next := if v + c.ratio > c.MaxCredits() then c.MaxCredits() else v + c.ratio;
        At(s.(credits := next, primaries := s.primaries + 1), t, Idle)
    case Reserving(NoRead) =>
      if s.inflight >= c.maxInflight then At(s, t, Idle) else At(s, t, Reserving(Saw(s.inflight)))
    case Reserving(Saw(v)) =>
      if s.inflight != v then At(s, t, Reserving(NoRead))
      else At(s.(inflight := v + 1, peak := Max(s.peak, v + 1)), t, Recording(v + 1, NoRead))
    case Recording(slot, NoRead) =>
      if s.maxObserved >= slot then At(s, t, Spending(NoRead)) else At(s, t, Recording(slot, Saw(s.maxObserved)))
    case Recording(slot, Saw(v)) =>
      if s.maxObserved != v then At(s, t, Recording(slot, NoRead))
      else At(s.(maxObserved := slot), t, Spending(NoRead))
    case Spending(NoRead) =>
      if s.credits < CREDIT_UNIT then At(s, t, GivingBack) else At(s, t, Spending(Saw(s.credits)))
    case Spending(Saw(v)) =>
      if s.credits != v || v < CREDIT_UNIT then At(s, t, Spending(NoRead))
      else At(s.(credits := v - CREDIT_UNIT, granted := s.granted + 1), t, Holding)
    case GivingBack => At(s.(inflight := (s.inflight + WORD32 - 1) % WORD32), t, Idle)
    case Releasing => At(s.(inflight := (s.inflight + WORD32 - 1) % WORD32), t, Idle)
  }

  function Run(c: Config, s: State, actions: seq<Action>): State {
    if actions == [] then s
    else Step(c, Run(c, s, actions[..|actions| - 1]), actions[|actions| - 1])
  }

  // ----- counting goroutines

  /** The goroutine owns one in-flight slot: a permit, or an acquire that is not finished yet. */
  predicate Owns(t: Thread) {
    t.Recording? || t.Spending? || t.GivingBack? || t.Holding? || t.Releasing?
  }

  function Owners(ts: seq<Thread>): nat {
    Tally(ts, Owns)
  }

  // ----- the invariant

  /** Some goroutine is about to record the peak. */
  predicate PeakPending(s: State) {
    exists t | 0 <= t < |s.threads| :: s.threads[t].Recording? && s.threads[t].slot == s.peak
  }

  predicate Plausible(c: Config, s: State, t: Thread) {
    && (t.Recording? ==> 1 <= t.slot <= s.peak && (t.read.Saw? ==> t.read.value < t.slot))
    && (t.Spending? && t.read.Saw? ==> t.read.value >= CREDIT_UNIT)
    && (t.Reserving? && t.read.Saw? ==> t.read.value < c.maxInflight)
  }

  ghost predicate Inv(c: Config, s: State) {
    && s.credits <= c.MaxCredits()
    && s.credits + CREDIT_UNIT * s.granted <= c.ratio * s.primaries
    && s.inflight == Owners(s.threads) <= c.maxInflight
    && s.maxObserved <= s.peak <= c.maxInflight && s.inflight <= s.peak
    && (forall t | 0 <= t < |s.threads| :: Plausible(c, s, s.threads[t]))
    && (s.maxObserved == s.peak || PeakPending(s))
  }

  lemma InitInv(c: Config, n: nat)
    ensures Inv(c, Init(n))
  {
    TallyNone(Init(n).threads, Owns);
  }

  lemma MulStep(k: nat, n: nat)
    ensures k * (n + 1) == k * n + k
  {
  }

  /** Moving one goroutine keeps the per-goroutine facts. */
  lemma MoveKeeps(c: Config, s: State, t: nat, now: Thread, u: State)
    requires Inv(c, s) && t < |s.threads| && u.threads == s.threads[t := now] && u.peak >= s.peak
    requires Plausible(c, u, now)
    ensures forall i | 0 <= i < |u.threads| :: Plausible(c, u, u.threads[i])
    ensures Owners(u.threads) ==
                Owners(s.threads) - (if Owns(s.threads[t]) then 1 else 0) + (if Owns(now) then 1 else 0)
  {
    TallyUpdate(s.threads, t, now, Owns);
    forall i | 0 <= i < |u.threads| ensures Plausible(c, u, u.threads[i]) {
      assert i != t ==> Plausible(c, s, s.threads[i]);
    }
  }

  /** A peak that is being recorded stays so unless the recording goroutine moves. */
  lemma PeakStays(s: State, t: nat, now: Thread, u: State)
    requires t < |s.threads| && u.threads == s.threads[t := now] && u.peak == s.peak && PeakPending(s)
    requires s.threads[t].Recording? && s.threads[t].slot == s.peak ==> now.Recording? && now.slot == s.peak
    ensures PeakPending(u)
  {
    var i :| 0 <= i < |s.threads| && s.threads[i].Recording? && s.threads[i].slot == s.peak;
    assert u.threads[i].Recording? && u.threads[i].slot == u.peak;
  }

  lemma StartInv(c: Config, s: State, t: nat, now: Thread)
    requires Inv(c, s) && t < |s.threads| && !s.threads[t].Recording? && !now.Recording?
    requires Owns(s.threads[t]) == Owns(now) && Plausible(c, s, now)
    ensures Inv(c, At(s, t, now))
  {
    MoveKeeps(c, s, t, now, At(s, t, now));
    if s.maxObserved != s.peak { PeakStays(s, t, now, At(s, t, now)); }
  }

  lemma CreditInv(c: Config, s: State, t: nat)
    requires c.Valid() && Inv(c, s) && t < |s.threads| && s.threads[t].Crediting?
    ensures Inv(c, Advance(c, s, t))
  {
    var u := Advance(c, s, t);
    MulStep(c.ratio, s.primaries);
    MoveKeeps(c, s, t, u.threads[t], u);
    if s.maxObserved != s.peak { PeakStays(s, t, u.threads[t], u); }
  }

  lemma ReserveInv(c: Config, s: State, t: nat)
    requires c.Valid() && Inv(c, s) && t < |s.threads| && s.threads[t].Reserving?
    ensures Inv(c, Advance(c, s, t))
  {
    var u := Advance(c, s, t);
    assert Plausible(c, s, s.threads[t]);
    MoveKeeps(c, s, t, u.threads[t], u);
    if u.peak > s.peak {
      assert u.threads[t].Recording? && u.threads[t].slot == u.peak;
    } else if s.maxObserved != s.peak {
      PeakStays(s, t, u.threads[t], u);
    }
  }

  lemma RecordInv(c: Config, s: State, t: nat)
    requires c.Valid() && Inv(c, s) && t < |s.threads| && s.threads[t].Recording?
    ensures Inv(c, Advance(c, s, t))
  {
    var u := Advance(c, s, t);
    assert Plausible(c, s, s.threads[t]);
    MoveKeeps(c, s, t, u.threads[t], u);
    if u.maxObserved != u.peak {
      if u.threads[t].Recording? || s.threads[t].slot != s.peak { PeakStays(s, t, u.threads[t], u); }
    }
  }

  lemma SpendInv(c: Config, s: State, t: nat)
    requires c.Valid() && Inv(c, s) && t < |s.threads|
    requires s.threads[t].Spending? || s.threads[t].GivingBack? || s.threads[t].Releasing?
    ensures Inv(c, Advance(c, s, t))
  {
    var u := Advance(c, s, t);
    assert Plausible(c, s, s.threads[t]);
    TallyPositive(s.threads, t, Owns);
    assert (s.inflight + WORD32 - 1) % WORD32 == s.inflight - 1;
    MoveKeeps(c, s, t, u.threads[t], u);
    if s.maxObserved != s.peak { PeakStays(s, t, u.threads[t], u); }
  }

  lemma StepInv(c: Config, s: State, a: Action)
    requires c.Valid() && Inv(c, s)
    ensures Inv(c, Step(c, s, a))
  {
    hide Inv, Advance;
    if a.t < |s.threads| {
      var now := s.threads[a.t];
      match a {
        case StartCredit(t) => if now.Idle? { StartInv(c, s, t, Crediting(NoRead)); }
        case StartAcquire(t) => if now.Idle? { StartInv(c, s, t, Reserving(NoRead)); }
        case StartRelease(t) => if now.Holding? { StartInv(c, s, t, Releasing); }
        case Go(t) =>
          if now.Crediting? { CreditInv(c, s, t); }
          else if now.Reserving? { ReserveInv(c, s, t); }
          else if now.Recording? { RecordInv(c, s, t); }
          else if now.Idle? || now.Holding? { Standing(c, s, t); }
          else { SpendInv(c, s, t); }
      }
    }
  }

  lemma Standing(c: Config, s: State, t: nat)
    requires t < |s.threads| && (s.threads[t].Idle? || s.threads[t].Holding?)
    ensures Advance(c, s, t) == s
  {
  }

  lemma {:induction false} RunInv(c: Config, s: State, actions: seq<Action>)
    requires c.Valid() && Inv(c, s)
    ensures Inv(c, Run(c, s, actions))
  {
    hide Inv;
    if actions != [] {
      RunInv(c, s, actions[..|actions| - 1]);
      StepInv(c, Run(c, s, actions[..|actions| - 1]), actions[|actions| - 1]);
    }
  }

  // ----- what every run guarantees

  /** Retries never exceed the earned credits; credits and concurrency stay within their bounds. */
  lemma {:induction false} AmplificationBound(c: Config, n: nat, actions: seq<Action>)
    requires c.Valid()
    ensures var s := Run(c, Init(n), actions);
            && s.credits <= c.burst * CREDIT_UNIT
            && s.credits + CREDIT_UNIT * s.granted <= c.ratio * s.primaries
            && s.inflight == Owners(s.threads) <= c.maxInflight
  {
    InitInv(c, n);
    RunInv(c, Init(n), actions);
  }

  /** From `s` to `u`, grants have cost 1000 credits each and primaries have earned at most the ratio each. */
  predicate Balanced(c: Config, s: State, u: State) {
    && u.granted >= s.granted && u.primaries >= s.primaries
    && u.credits + CREDIT_UNIT * (u.granted - s.granted) <= s.credits + c.ratio * (u.primaries - s.primaries)
  }

  lemma BalancedSelf(c: Config, s: State)
    ensures Balanced(c, s, s)
  {
    assert c.ratio * 0 == 0;
  }

  lemma BalancedOn(c: Config, s: State, m: State, u: State)
    requires Balanced(c, s, m) && Balanced(c, m, u)
    ensures Balanced(c, s, u)
  {
    Distribute(c.ratio, m.primaries - s.primaries, u.primaries - m.primaries);
  }

  /** Between two moments, grants cost 1000 credits each and primaries earn at most the ratio each. */
  lemma {:induction false} WindowBalance(c: Config, s: State, actions: seq<Action>)
    requires c.Valid()
    ensures Balanced(c, s, Run(c, s, actions))
  {
    hide Step, Balanced;
    if actions == [] {
      BalancedSelf(c, s);
    } else {
      var m := Run(c, s, actions[..|actions| - 1]);
      WindowBalance(c, s, actions[..|actions| - 1]);
      StepBalance(c, m, actions[|actions| - 1]);
      BalancedOn(c, s, m, Run(c, s, actions));
    }
  }

  lemma Distribute(k: int, a: int, b: int)
    ensures k * (a + b) == k * a + k * b
  {
  }

  lemma StepBalance(c: Config, s: State, a: Action)
    requires c.Valid()
    ensures Balanced(c, s, Step(c, s, a))
  {
    assert c.ratio * 0 == 0 && c.ratio * 1 == c.ratio;
  }

  /** In any window the grants are at most the burst plus what the window's primaries earned. */
  lemma {:induction false} WindowGrants(c: Config, n: nat, before: seq<Action>, window: seq<Action>)
    requires c.Valid()
    ensures var s := Run(c, Init(n), before);
            var u := Run(c, s, window);
            && CREDIT_UNIT * (u.granted - s.granted) <= c.burst * CREDIT_UNIT + c.ratio * (u.primaries - s.primaries)
            && u.granted - s.granted <= c.burst + c.ratio * (u.primaries - s.primaries) / CREDIT_UNIT
  {
    AmplificationBound(c, n, before);
    InitInv(c, n);
    RunInv(c, Init(n), before);
    WindowBalance(c, Run(c, Init(n), before), window);
    var s := Run(c, Init(n), before);
    var u := Run(c, s, window);
    hide *;
    FloorBound(u.granted - s.granted, c.burst, c.ratio * (u.primaries - s.primaries));
  }

  lemma FloorBound(grants: int, burst: int, earned: int)
    requires CREDIT_UNIT * grants <= burst * CREDIT_UNIT + earned
    ensures grants <= burst + earned / CREDIT_UNIT
  {
  }

  /** When no acquire is recording, the observed maximum is the true peak. */
  lemma {:induction false} MaxObservedIsPeak(c: Config, n: nat, actions: seq<Action>)
    requires c.Valid()
    ensures var s := Run(c, Init(n), actions);
            (forall t | 0 <= t < |s.threads| :: !s.threads[t].Recording?) ==> s.maxObserved == s.peak
  {
    InitInv(c, n);
    RunInv(c, Init(n), actions);
  }

  // ----- what one goroutine achieves when no other comes in between

  /** Starts an acquire and takes its steps; the longest takes six. */
  function AcquireAlone(c: Config, s: State, t: nat): State {
    var a := Step(c, s, StartAcquire(t));
    var b := Step(c, Step(c, a, Go(t)), Go(t));
    var d := Step(c, Step(c, b, Go(t)), Go(t));
    Step(c, Step(c, d, Go(t)), Go(t))
  }

  /** A slot is reserved exactly when one is free, and its number recorded. */
  lemma ReserveAlone(c: Config, s: State, t: nat)
    requires t < |s.threads| && s.threads[t].Idle?
    ensures var u := Step(c, Step(c, Step(c, s, StartAcquire(t)), Go(t)), Go(t));
            if s.inflight < c.maxInflight
            then u == s.(threads := s.threads[t := Recording(s.inflight + 1, NoRead)], inflight := s.inflight + 1,
                         peak := Max(s.peak, s.inflight + 1))
            else u == s
  {
    assert s.threads[t := Idle] == s.threads;
  }

  lemma RecordAlone(c: Config, s: State, t: nat, slot: nat)
    requires t < |s.threads| && s.threads[t] == Recording(slot, NoRead)
    ensures var a := Step(c, s, Go(t));
            if s.maxObserved >= slot then a == s.(threads := s.threads[t := Spending(NoRead)])
            else Step(c, a, Go(t)) == s.(threads := s.threads[t := Spending(NoRead)], maxObserved := slot)
  {
  }

  lemma SpendAlone(c: Config, s: State, t: nat)
    requires t < |s.threads| && s.threads[t] == Spending(NoRead)
    ensures var a := Step(c, s, Go(t));
            var u := Step(c, a, Go(t));
            if s.credits >= 1000
            then u == s.(threads := s.threads[t := Holding], credits := s.credits - 1000, granted := s.granted + 1)
            else u == s.(threads := s.threads[t := Idle], inflight := (s.inflight + WORD32 - 1) % WORD32)
  {
  }

  lemma SettledStays(c: Config, s: State, t: nat)
    requires t < |s.threads| && (s.threads[t].Idle? || s.threads[t].Holding?)
    ensures Step(c, s, Go(t)) == s
  {
  }

  /** Undisturbed, a permit is granted exactly when a slot is free and a whole credit is there, which it costs. */
  lemma GrantMeaning(c: Config, s: State, t: nat)
    requires c.Valid() && Inv(c, s) && t < |s.threads| && s.threads[t].Idle?
    ensures var u := AcquireAlone(c, s, t);
            && |u.threads| == |s.threads|
            && (u.threads[t].Holding? <==> s.inflight < c.maxInflight && s.credits >= 1000)
            && (u.threads[t].Holding? ==>
                  u.credits == s.credits - 1000 && u.inflight == s.inflight + 1 && u.granted == s.granted + 1)
            && (!u.threads[t].Holding? ==>
                  u.threads[t].Idle? && u.credits == s.credits && u.inflight == s.inflight && u.granted == s.granted)
  {
    hide *;
    InflightFits(c, s);
    var b := Step(c, Step(c, Step(c, s, StartAcquire(t)), Go(t)), Go(t));
    AcquireSteps(c, s, t, b);
    ReserveAlone(c, s, t);
    if s.inflight < c.maxInflight {
      RecordAlone(c, b, t, s.inflight + 1);
      var r := Step(c, b, Go(t));
      if b.maxObserved >= s.inflight + 1 {
        SpendAlone(c, r, t);
        SettledStays(c, Step(c, Step(c, r, Go(t)), Go(t)), t);
        LessOne(s.inflight);
      } else {
        SpendAlone(c, Step(c, r, Go(t)), t);
        LessOne(s.inflight);
      }
    } else {
      SettledStays(c, s, t);
    }
  }

  lemma InflightFits(c: Config, s: State)
    requires c.Valid() && Inv(c, s)
    ensures s.inflight <= c.maxInflight < 65536
  {
    hide Owners;
  }

  lemma AcquireSteps(c: Config, s: State, t: nat, b: State)
    requires b == Step(c, Step(c, Step(c, s, StartAcquire(t)), Go(t)), Go(t))
    ensures AcquireAlone(c, s, t) == Step(c, Step(c, Step(c, Step(c, b, Go(t)), Go(t)), Go(t)), Go(t))
  {
    hide Step;
  }

  lemma LessOne(n: nat)
    requires n < 65536
    ensures (n + 1 + WORD32 - 1) % WORD32 == n
  {
  }

  /** Undisturbed, a primary request earns the configured ratio, up to the burst. */
  lemma CreditMeaning(c: Config, s: State, t: nat)
    requires Inv(c, s) && t < |s.threads| && s.threads[t].Idle?
    ensures var u := Step(c, Step(c, Step(c, s, StartCredit(t)), Go(t)), Go(t));
            && u.threads[t].Idle? && u.primaries == s.primaries + 1 && u.inflight == s.inflight
            && u.credits == if s.credits + c.ratio > c.burst * 1000 then c.burst * 1000 else s.credits + c.ratio
  {
    hide Owners;
  }

  /** A permit that is given back frees its slot, whatever others do. */
  lemma ReleaseMeaning(c: Config, s: State, t: nat)
    requires c.Valid() && Inv(c, s) && t < |s.threads| && s.threads[t].Holding?
    ensures var u := Step(c, Step(c, s, StartRelease(t)), Go(t));
            u.threads[t].Idle? && u.inflight == s.inflight - 1 && u.credits == s.credits && u.granted == s.granted
  {
    hide Tally;
    TallyPositive(s.threads, t, Owns);
  }
}
