/**
 What the steps of the lifetime protocol achieve (internal/runtime/manager.go;
 internal/upstream/registry.go, plan.go and reaper.go).

 `LifetimeRuns` says what no run does.  Here it is said, for every state that a run reaches,
 when a step takes effect and what it leads to: which revisions are accepted, that an accepted
 apply publishes, that a lease is granted and given back, that a drained set is reaped.
 */
module LifetimeProgress {
  import opened Wrappers
  import opened Counting
  import opened ResourceTable
  import opened Lifetime
  import opened LifetimeInvariant
  import opened LifetimeRuns

  lemma {:induction false} RunTwo(s: State, a: Action, b: Action)
    ensures Run(s, [a, b]) == Step(Step(s, a), b)
  {
    assert [a, b][..1] == [a] && [a][..0] == [];
    assert Run(s, []) == s;
    assert Run(s, [a]) == Step(s, a);
  }

  /** What giving up a holder does when it succeeds. */
  lemma GivenUp(s: State, h: nat, stage: Stage)
    requires h < |s.holders| && s.fault == NoFault && GiveUp(s, h, stage).fault == NoFault
    ensures var u := GiveUp(s, h, stage);
            u == s.(table := u.table, holders := s.holders[h := s.holders[h].(stage := stage, owned := [])])
  {
    hide ReleaseAll;
  }

  /** In every state the entries count what the holders that have not ended were created with. */
  lemma CountsLive(s: State)
    requires Inv(s)
    ensures Counts(s.table, LiveTotal(s.holders))
  {
    hide Leased, Staged, Gauged, Listed, Published, Threads, Counts, LiveTotal, Total;
    LiveIsTotal(s.holders);
  }

  lemma {:induction false} RunThree(s: State, a: Action, b: Action, c: Action)
    ensures Run(s, [a, b, c]) == Step(Step(Step(s, a), b), c)
  {
    assert [a, b, c][..2] == [a, b];
    RunTwo(s, a, b);
  }

  lemma {:induction false} RunFive(s: State, a: Action, b: Action, c: Action, d: Action, e: Action)
    ensures Run(s, [a, b, c, d, e]) == Step(Step(Step(Step(Step(s, a), b), c), d), e)
  {
    assert [a, b, c, d, e][..4] == [a, b, c, d] && [a, b, c, d][..3] == [a, b, c];
    RunThree(s, a, b, c);
  }

  lemma {:induction false} NoFaultReached(maxRetired: nat, actions: seq<Action>)
    ensures Inv(Reached(maxRetired, actions)) && Reached(maxRetired, actions).fault == NoFault
  {
    hide Conserved, Kept, Leased, Staged, Gauged, Listed, Published, Threads, Run;
    RunInv(maxRetired, actions);
  }

  // ----- single steps, where they are enabled

  lemma DoStartApply(s: State, revision: nat)
    requires s.fault == NoFault && s.phase.Idle? && Newer(s, revision)
    ensures Step(s, StartApply(revision)) == s.(phase := Checked(revision))
  {
  }

  lemma {:induction false} DoPrepare(s: State, revision: nat, keys: seq<Key>)
    requires s.fault == NoFault && s.phase == Checked(revision) && !s.registryClosed && |s.retired| < s.maxRetired
    ensures var (t, refs) := AcquireAll(s.table, keys);
            Step(s, Prepare(keys, false)) ==
            s.(table := t, holders := s.holders + [Holder(Open, refs, refs, 0)],
               phase := Prepared(revision, |s.holders|))
  {
    hide AcquireAll;
  }

  lemma DoWinCommit(s: State, revision: nat, h: nat)
    requires s.fault == NoFault && s.phase == Prepared(revision, h) && h < |s.holders| && s.holders[h].stage == Open
    ensures Step(s, WinCommit) ==
            s.(phase := Commit(revision, h), holders := s.holders[h := s.holders[h].(stage := Committing)])
  {
  }

  lemma DoFinishCommit(s: State, revision: nat, h: nat)
    requires s.fault == NoFault && s.phase == Commit(revision, h) && h < |s.holders|
    ensures Step(s, FinishCommit) ==
            s.(phase := Publish(revision, h), activeSets := s.activeSets + 1,
               holders := s.holders[h := s.holders[h].(stage := Active, refs := 1)])
  {
  }

  lemma DoSwap(s: State, revision: nat, h: nat)
    requires s.fault == NoFault && s.phase == Publish(revision, h)
    ensures Step(s, Swap) ==
            s.(active := Some(Snapshot(revision, h)), history := s.history + [revision],
               phase := if s.active.Some? then Retire(s.active.value.set_) else Idle)
  {
  }

  lemma DoBuildFails(s: State, h: nat)
    requires s.fault == NoFault && s.phase.Prepared? && s.phase.h == h < |s.holders| && s.holders[h].stage == Open
    ensures Step(s, BuildFails) == s.(phase := Undo(h), holders := s.holders[h := s.holders[h].(stage := Undoing)])
  {
  }

  lemma DoFinishRollback(s: State, h: nat)
    requires s.fault == NoFault && s.phase == Undo(h) && h < |s.holders| && Step(s, FinishRollback).fault == NoFault
    ensures var u := Step(s, FinishRollback);
            u == s.(phase := Idle, table := u.table,
                    holders := s.holders[h := s.holders[h].(stage := RolledBack, owned := [])])
  {
    hide GiveUp;
    GivenUp(s, h, RolledBack);
  }

  lemma DoWinRetire(s: State, h: nat)
    requires s.fault == NoFault && s.phase == Retire(h) && h < |s.holders| && s.holders[h].stage == Active
    ensures Step(s, WinRetire) == s.(phase := Register(h), holders := s.holders[h := s.holders[h].(stage := Retiring)])
  {
  }

  lemma DoRegister(s: State, h: nat)
    requires s.fault == NoFault && s.phase == Register(h) && h < |s.holders| && s.activeSets > 0
    ensures Step(s, RegisterRetired) ==
            s.(phase := DropOwner(h), holders := s.holders[h := s.holders[h].(stage := Registered)],
               activeSets := s.activeSets - 1, retired := s.retired + [h])
  {
  }

  lemma DoReleaseOwner(s: State, h: nat)
    requires s.fault == NoFault && s.phase == DropOwner(h) && h < |s.holders| && s.holders[h].refs > 0
    ensures Step(s, ReleaseOwner) ==
            s.(phase := Idle, holders := s.holders[h := s.holders[h].(stage := Dropped, refs := s.holders[h].refs - 1)])
  {
  }

  lemma DoLoad(s: State)
    requires s.fault == NoFault
    ensures Step(s, Load) ==
            if s.active.None? then s else s.(acquirers := s.acquirers + [Loaded(s.active.value.set_)])
  {
  }

  lemma DoTryAcquire(s: State, a: nat, h: nat)
    requires s.fault == NoFault && a < |s.acquirers| && s.acquirers[a] == Loaded(h) && h < |s.holders|
    ensures Step(s, TryAcquire(a)) ==
            if s.holders[h].refs > 0 then
              s.(holders := s.holders[h := s.holders[h].(refs := s.holders[h].refs + 1)],
                 acquirers := s.acquirers[a := Returned], leases := s.leases + [Lease(h, Held)])
            else s.(acquirers := s.acquirers[a := Refused(h)])
  {
  }

  lemma DoWinRelease(s: State, l: nat)
    requires s.fault == NoFault && l < |s.leases|
    ensures Step(s, WinRelease(l)) ==
            if s.leases[l].state.Held? then s.(leases := s.leases[l := Lease(s.leases[l].set_, Releasing)]) else s
  {
  }

  lemma DoFinishRelease(s: State, l: nat, h: nat)
    requires s.fault == NoFault && l < |s.leases| && s.leases[l] == Lease(h, Releasing)
    requires h < |s.holders| && s.holders[h].refs > 0
    ensures Step(s, FinishRelease(l)) ==
            s.(holders := s.holders[h := s.holders[h].(refs := s.holders[h].refs - 1)],
               leases := s.leases[l := Lease(h, Done)])
  {
  }

  lemma DoReap(s: State, i: nat, h: nat)
    requires s.fault == NoFault && i < |s.retired| && s.retired[i] == h < |s.holders|
    requires Step(s, Reap(i)).fault == NoFault
    ensures s.holders[h].refs != 0 ==> Step(s, Reap(i)) == s
    ensures s.holders[h].refs == 0 ==>
              var u := Step(s, Reap(i));
              u == s.(table := u.table, retired := Drop(s.retired, i),
                      holders := s.holders[h := s.holders[h].(stage := Finalized, owned := [])])
  {
    hide GiveUp, Drop;
    if s.holders[h].refs == 0 { GivenUp(s.(retired := Drop(s.retired, i)), h, Finalized); }
  }

  lemma DoWinTunnelRelease(s: State, h: nat)
    requires s.fault == NoFault && h < |s.holders| && s.holders[h].stage == TunnelHeld
    ensures Step(s, WinTunnelRelease(h)) == s.(holders := s.holders[h := s.holders[h].(stage := TunnelReleasing)])
  {
  }

  lemma DoFinishTunnelRelease(s: State, h: nat)
    requires s.fault == NoFault && h < |s.holders| && s.holders[h].stage == TunnelReleasing
    requires |s.holders[h].built| == 1 && Binds(s.table, s.holders[h].built[0]) && s.liveTunnels > 0
    requires Step(s, FinishTunnelRelease(h)).fault == NoFault
    ensures var u := Step(s, FinishTunnelRelease(h));
            u == s.(table := u.table, liveTunnels := s.liveTunnels - 1,
                    holders := s.holders[h := s.holders[h].(stage := TunnelDone, owned := [])])
  {
    hide GiveUp, Binds;
    GivenUp(s, h, TunnelDone);
  }

  // ----- several steps

  lemma Overwritten(holders: seq<Holder>, h: nat, x: Holder, y: Holder)
    requires h < |holders|
    ensures holders[h := x][h := y] == holders[h := y]
  {
  }

  lemma UndoSteps(s: State, h: nat)
    requires s.fault == NoFault && s.phase.Prepared? && s.phase.h == h < |s.holders| && s.holders[h].stage == Open
    requires Step(Step(s, BuildFails), FinishRollback).fault == NoFault
    ensures var u := Step(Step(s, BuildFails), FinishRollback);
            && u.phase.Idle? && u.active == s.active
            && u.holders == s.holders[h := s.holders[h].(stage := RolledBack, owned := [])]
  {
    hide Step;
    DoBuildFails(s, h);
    DoFinishRollback(Step(s, BuildFails), h);
    Overwritten(s.holders, h, s.holders[h].(stage := Undoing), s.holders[h].(stage := RolledBack, owned := []));
  }

  lemma RetireSteps(s: State, h: nat)
    requires s.fault == NoFault && s.phase == Retire(h) && h < |s.holders| && s.holders[h].stage == Active
    requires s.activeSets > 0 && s.holders[h].refs > 0
    ensures Step(Step(Step(s, WinRetire), RegisterRetired), ReleaseOwner) ==
            s.(phase := Idle, retired := s.retired + [h], activeSets := s.activeSets - 1,
               holders := s.holders[h := s.holders[h].(stage := Dropped, refs := s.holders[h].refs - 1)])
  {
    hide Step;
    var x := s.holders[h];
    DoWinRetire(s, h);
    DoRegister(Step(s, WinRetire), h);
    Overwritten(s.holders, h, x.(stage := Retiring), x.(stage := Registered));
    DoReleaseOwner(Step(Step(s, WinRetire), RegisterRetired), h);
    Overwritten(s.holders, h, x.(stage := Registered), x.(stage := Dropped, refs := x.refs - 1));
  }

  lemma GrantSteps(s: State, h: nat)
    requires s.fault == NoFault && s.active.Some? && s.active.value.set_ == h < |s.holders| && s.holders[h].refs > 0
    ensures var u := Step(Step(s, Load), TryAcquire(|s.acquirers|));
            && u.leases == s.leases + [Lease(h, Held)]
            && u.holders == s.holders[h := s.holders[h].(refs := s.holders[h].refs + 1)]
  {
    hide Step;
    DoLoad(s);
    DoTryAcquire(Step(s, Load), |s.acquirers|, h);
  }

  lemma Faultless(s: State)
    requires Inv(s)
    ensures s.fault == NoFault
  {
    hide Conserved, Kept, Leased, Staged, Gauged, Listed, Published, Threads;
  }

  // ----- apply

  /** The manager is open, and nothing is active or what is active is older. */
  predicate Newer(s: State, revision: nat) {
    !s.closed && (s.active.Some? ==> s.active.value.revision < revision)
  }

  /** With no apply under way, a revision is taken on exactly when it is newer and the manager is open. */
  lemma {:induction false} ApplyAccepted(maxRetired: nat, actions: seq<Action>, revision: nat)
    requires Reached(maxRetired, actions).phase.Idle?
    ensures var s := Reached(maxRetired, actions);
            var u := Step(s, StartApply(revision));
            && (u.phase == Checked(revision) <==> Newer(s, revision))
            && (!Newer(s, revision) ==> u == s)
            && u == s.(phase := u.phase)
  {
    hide Inv, Run;
    NoFaultReached(maxRetired, actions);
  }

  /** A preparation is turned away exactly when the registry is closed or the retired list is full. */
  lemma {:induction false} PrepareAdmitted(maxRetired: nat, actions: seq<Action>, keys: seq<Key>)
    requires Reached(maxRetired, actions).phase.Checked?
    ensures var s := Reached(maxRetired, actions);
            var u := Step(s, Prepare(keys, false));
            && (u.phase == Prepared(s.phase.revision, |s.holders|) <==> !s.registryClosed && |s.retired| < s.maxRetired)
            && (u.phase != Prepared(s.phase.revision, |s.holders|) ==> u == s.(phase := Idle))
  {
    hide Inv, Run, AcquireAll;
    NoFaultReached(maxRetired, actions);
  }

  /** What an apply of `keys` as `revision` makes of a state with no apply under way, step by step. */
  ghost predicate AppliedFrom(s: State, u: State, revision: nat, keys: seq<Key>) {
    var h := |s.holders|;
    && u.active == Some(Snapshot(revision, h)) && u.history == s.history + [revision] && u.fault == NoFault
    && u.phase == (if s.active.Some? then Retire(s.active.value.set_) else Idle)
    && u.activeSets == s.activeSets + 1 && u.closed == s.closed && u.retired == s.retired && u.leases == s.leases
    && |u.holders| == h + 1 && u.holders[..h] == s.holders
    && u.holders[h].stage == Active && u.holders[h].refs == 1 && u.holders[h].owned == u.holders[h].built
    && |u.holders[h].built| == |keys| && forall i | 0 <= i < |keys| :: u.holders[h].built[i].key == keys[i]
  }

  lemma FiveSteps(s: State, revision: nat, keys: seq<Key>)
    requires s.fault == NoFault && s.phase.Idle? && Newer(s, revision)
    requires !s.registryClosed && |s.retired| < s.maxRetired
    ensures AppliedFrom(s, Step(Step(Step(Step(Step(s, StartApply(revision)), Prepare(keys, false)), WinCommit),
                                     FinishCommit), Swap), revision, keys)
  {
    AcquireAllKeys(s.table, keys);
    hide Step, AcquireAll, Newer;
    var refs, h := AcquireAll(s.table, keys).1, |s.holders|;
    var x := Holder(Open, refs, refs, 0);
    DoStartApply(s, revision);
    var a := Step(s, StartApply(revision));
    DoPrepare(a, revision, keys);
    var b := Step(a, Prepare(keys, false));
    DoWinCommit(b, revision, h);
    var c := Step(b, WinCommit);
    assert c.holders == s.holders + [x.(stage := Committing)];
    DoFinishCommit(c, revision, h);
    var d := Step(c, FinishCommit);
    assert d.holders == s.holders + [x.(stage := Active, refs := 1)];
    DoSwap(d, revision, h);
  }

  /**
   An accepted apply publishes: started with room on the retired list, its steps end with the revision active on a
   new set that owns one reference per key, and with the previous set about to be retired.
   */
  lemma {:induction false} ApplyPublishes(maxRetired: nat, actions: seq<Action>, revision: nat, keys: seq<Key>)
    requires var s := Reached(maxRetired, actions);
             s.phase.Idle? && Newer(s, revision) && !s.registryClosed && |s.retired| < s.maxRetired
    ensures var s := Reached(maxRetired, actions);
            var u := Run(s, [StartApply(revision), Prepare(keys, false), WinCommit, FinishCommit, Swap]);
            AppliedFrom(s, u, revision, keys)
  {
    var s := Reached(maxRetired, actions);
    NoFaultReached(maxRetired, actions);
    hide Inv, Step, AppliedFrom;
    RunFive(s, StartApply(revision), Prepare(keys, false), WinCommit, FinishCommit, Swap);
    hide Run;
    FiveSteps(s, revision, keys);
  }

  /** A failed build gives everything back and leaves the active snapshot. */
  lemma {:induction false} FailedBuildUndone(maxRetired: nat, actions: seq<Action>)
    requires Reached(maxRetired, actions).phase.Prepared?
    ensures var s := Reached(maxRetired, actions);
            var u := Run(s, [BuildFails, FinishRollback]);
            && u.phase.Idle? && u.active == s.active && s.phase.h < |s.holders|
            && u.holders == s.holders[s.phase.h := s.holders[s.phase.h].(stage := RolledBack, owned := [])]
            && Counts(u.table, LiveTotal(u.holders))
  {
    hide *;
    var s := Reached(maxRetired, actions);
    NoFaultReached(maxRetired, actions);
    PreparedStage(s);
    RunTwo(s, BuildFails, FinishRollback);
    StepInv(s, BuildFails);
    var b := Step(s, BuildFails);
    StepInv(b, FinishRollback);
    Faultless(Step(b, FinishRollback));
    CountsLive(Step(b, FinishRollback));
    UndoSteps(s, s.phase.h);
  }

  /**
   Retiring completes: the set leaves the active gauge, goes to the end of the retired list, and drops its owner
   reference, so that only its unfinished leases keep it.
   */
  lemma {:induction false} RetireCompletes(maxRetired: nat, actions: seq<Action>)
    requires Reached(maxRetired, actions).phase.Retire?
    ensures var s := Reached(maxRetired, actions);
            var h := s.phase.h;
            var u := Run(s, [WinRetire, RegisterRetired, ReleaseOwner]);
            && u.phase.Idle? && u.fault == NoFault && u.retired == s.retired + [h] && u.activeSets == s.activeSets - 1
            && h < |s.holders| && u.leases == s.leases && u.active == s.active
            && u.holders == s.holders[h := s.holders[h].(stage := Dropped, refs := s.holders[h].refs - 1)]
            && u.holders[h].refs == Tally(s.leases, On(h))
  {
    hide *;
    var s := Reached(maxRetired, actions);
    NoFaultReached(maxRetired, actions);
    RetiringCounts(s);
    RunThree(s, WinRetire, RegisterRetired, ReleaseOwner);
    RetireSteps(s, s.phase.h);
  }

  lemma PreparedStage(s: State)
    requires Inv(s) && s.phase.Prepared?
    ensures s.phase.h < |s.holders| && s.holders[s.phase.h].stage == Open
  {
    hide Held1;
    TargetFacts(s);
  }

  lemma RetiringCounts(s: State)
    requires Inv(s) && s.phase.Retire?
    ensures s.phase.h < |s.holders| && s.holders[s.phase.h].stage == Active && s.activeSets > 0
    ensures s.holders[s.phase.h].refs == 1 + Tally(s.leases, On(s.phase.h))
  {
    hide Tally;
    TargetFacts(s);
    TallyPositive(s.holders, s.phase.h, CountsAsActive());
  }

  /** Close takes the active snapshot away and retires its set. */
  lemma {:induction false} CloseMeaning(maxRetired: nat, actions: seq<Action>)
    requires Reached(maxRetired, actions).phase.Idle?
    ensures var s := Reached(maxRetired, actions);
            Step(s, Close) ==
            s.(closed := true, active := None,
               phase := if s.active.Some? then Retire(s.active.value.set_) else Idle)
  {
    hide Inv, Run;
    NoFaultReached(maxRetired, actions);
  }

  // ----- an apply is never stuck

  /** How many steps the goroutine that holds the apply mutex still has to make, at most. */
  function StepsLeft(p: Phase): nat {
    match p
    case Idle => 0
    case Checked(_) => 8
    case Prepared(_, _) => 7
    case Undo(_) => 1
    case Commit(_, _) => 6
    case Publish(_, _) => 5
    case Retire(_) => 3
    case Register(_) => 2
    case DropOwner(_) => 1
  }

  /** The next action of that goroutine. */
  function NextAction(p: Phase, keys: seq<Key>, fails: bool): Action {
    match p
    case Idle => Close
    case Checked(_) => Prepare(keys, fails)
    case Prepared(_, _) => if fails then BuildFails else WinCommit
    case Undo(_) => FinishRollback
    case Commit(_, _) => FinishCommit
    case Publish(_, _) => Swap
    case Retire(_) => WinRetire
    case Register(_) => RegisterRetired
    case DropOwner(_) => ReleaseOwner
  }

  lemma RequestKeepsPhase(s: State, a: Action)
    ensures RequestStep(s, a).phase == s.phase
  {
    hide ReleaseAll, Acquire, Binds;
  }

  lemma ReapKeepsPhase(s: State, i: nat)
    ensures ReapStep(s, i).phase == s.phase
  {
    hide ReleaseAll;
  }

  /** Whatever requests, tunnels and the reaper do, the next step of an apply is open and brings it nearer its end. */
  lemma {:induction false} ApplyNeverStuck(maxRetired: nat, actions: seq<Action>, keys: seq<Key>, fails: bool)
    requires !Reached(maxRetired, actions).phase.Idle?
    ensures var s := Reached(maxRetired, actions);
            var u := Step(s, NextAction(s.phase, keys, fails));
            u.fault == NoFault && StepsLeft(u.phase) < StepsLeft(s.phase)
    ensures forall a :: !ApplyAction(a) ==>
              Step(Reached(maxRetired, actions), a).phase == Reached(maxRetired, actions).phase
  {
    var s := Reached(maxRetired, actions);
    NoFaultReached(maxRetired, actions);
    var a := NextAction(s.phase, keys, fails);
    StepInv(s, a);
    StagesKnown(s);
    hide Run, Conserved, Kept, Leased, Staged, Gauged, Listed, Published, Threads, ReleaseAll, AcquireAll, RequestStep,
        ReapStep;
    assert Step(s, a).fault == NoFault;
    NextStep(s, a);
    forall b | !ApplyAction(b) ensures Step(s, b).phase == s.phase {
      RequestKeepsPhase(s, b);
      if b.Reap? { ReapKeepsPhase(s, b.i); }
    }
  }

  lemma NextStep(s: State, a: Action)
    requires s.fault == NoFault && Step(s, a).fault == NoFault && !s.phase.Idle?
    requires exists keys, fails :: a == NextAction(s.phase, keys, fails)
    requires Target(s.phase).Some? ==> Target(s.phase).value.0 < |s.holders| &&
                                       s.holders[Target(s.phase).value.0].stage == Target(s.phase).value.1
    ensures StepsLeft(Step(s, a).phase) < StepsLeft(s.phase)
  {
    hide ReleaseAll, AcquireAll, RequestStep, ReapStep;
  }

  // ----- leases

  /** A request that finds a snapshot and tries at once gets a lease on its set, which counts one more. */
  lemma {:induction false} LeaseGranted(maxRetired: nat, actions: seq<Action>)
    requires Reached(maxRetired, actions).active.Some?
    ensures var s := Reached(maxRetired, actions);
            var h := s.active.value.set_;
            var u := Run(s, [Load, TryAcquire(|s.acquirers|)]);
            && h < |s.holders| && u.leases == s.leases + [Lease(h, Held)]
            && u.holders == s.holders[h := s.holders[h].(refs := s.holders[h].refs + 1)]
  {
    hide *;
    var s := Reached(maxRetired, actions);
    NoFaultReached(maxRetired, actions);
    ActiveCounted(s);
    RunTwo(s, Load, TryAcquire(|s.acquirers|));
    GrantSteps(s, s.active.value.set_);
  }

  lemma ActiveCounted(s: State)
    requires Inv(s) && s.active.Some?
    ensures s.active.value.set_ < |s.holders| && s.holders[s.active.value.set_].refs >= 1
  {
    hide Tally;
    ActiveStage(s.holders, s.active, s.phase);
    assert Held1(s.holders[s.active.value.set_], s.active.value.set_, s.leases);
  }

  /** Without a snapshot there is nothing to load. */
  lemma {:induction false} NothingToLoad(maxRetired: nat, actions: seq<Action>)
    requires Reached(maxRetired, actions).active.None?
    ensures Step(Reached(maxRetired, actions), Load) == Reached(maxRetired, actions)
  {
    hide Run, Inv, Step;
    NoFaultReached(maxRetired, actions);
    DoLoad(Reached(maxRetired, actions));
  }

  /**
   A request that has loaded a set gets its lease exactly when the set's owner reference is in place or another lease
   on it is unfinished.
   */
  lemma {:induction false} LateTryMeaning(maxRetired: nat, actions: seq<Action>, a: nat)
    requires var s := Reached(maxRetired, actions); a < |s.acquirers| && s.acquirers[a].Loaded?
    ensures var s := Reached(maxRetired, actions);
            var h := s.acquirers[a].set_;
            var u := Step(s, TryAcquire(a));
            && h < |s.holders|
            && (u.leases == s.leases + [Lease(h, Held)] <==>
                  || s.holders[h].stage == Active || s.holders[h].stage == Retiring || s.holders[h].stage == Registered
                  || exists l :: 0 <= l < |s.leases| && s.leases[l].set_ == h && !s.leases[l].state.Done?)
            && (u.leases != s.leases + [Lease(h, Held)] ==> u == s.(acquirers := s.acquirers[a := Refused(h)]))
  {
    hide *;
    var s := Reached(maxRetired, actions);
    NoFaultReached(maxRetired, actions);
    var h := s.acquirers[a].set_;
    CountPositive(s, h);
    DoTryAcquire(s, a, h);
    assert |s.leases + [Lease(h, Held)]| == |s.leases| + 1;
  }

  /** The count of a set is positive exactly while its owner or an unfinished lease holds it. */
  lemma CountPositive(s: State, h: nat)
    requires Inv(s) && exists a :: 0 <= a < |s.acquirers| && s.acquirers[a] == Loaded(h)
    ensures h < |s.holders|
    ensures s.holders[h].refs > 0 <==>
            || s.holders[h].stage == Active || s.holders[h].stage == Retiring || s.holders[h].stage == Registered
            || exists l :: 0 <= l < |s.leases| && s.leases[l].set_ == h && !s.leases[l].state.Done?
  {
    hide Tally, Conserved, Kept, Staged, Gauged, Listed, Published;
    assert Held1(s.holders[h], h, s.leases);
    LeasesHold(s.leases, h);
  }

  lemma {:induction false} LeasesHold(leases: seq<Lease>, h: nat)
    ensures Tally(leases, On(h)) > 0 <==>
            exists l :: 0 <= l < |leases| && leases[l].set_ == h && !leases[l].state.Done?
  {
    hide Tally;
    if l: nat :| l < |leases| && leases[l].set_ == h && !leases[l].state.Done? {
      TallyPositive(leases, l, On(h));
    } else {
      forall x | x in leases ensures !On(h)(x) {
        var l: nat :| l < |leases| && leases[l] == x;
      }
      TallyNone(leases, On(h));
    }
  }

  /** Releasing a lease gives back its one count, and a second release finds nothing to do. */
  lemma {:induction false} LeaseReleased(maxRetired: nat, actions: seq<Action>, l: nat)
    requires var s := Reached(maxRetired, actions); l < |s.leases| && s.leases[l].state.Held?
    ensures var s := Reached(maxRetired, actions);
            var h := s.leases[l].set_;
            var u := Run(s, [WinRelease(l), FinishRelease(l)]);
            && h < |s.holders| && u.fault == NoFault && u.leases == s.leases[l := Lease(h, Done)]
            && u.holders == s.holders[h := s.holders[h].(refs := s.holders[h].refs - 1)]
            && Step(u, WinRelease(l)) == u
  {
    hide *;
    var s := Reached(maxRetired, actions);
    NoFaultReached(maxRetired, actions);
    RunTwo(s, WinRelease(l), FinishRelease(l));
    LeaseFacts(s, l);
    DoWinRelease(s, l);
    var b := Step(s, WinRelease(l));
    DoFinishRelease(b, l, s.leases[l].set_);
    DoWinRelease(Step(b, FinishRelease(l)), l);
  }

  // ----- reaping and tunnels

  /** The reaper finalizes a retired set exactly when its owner has let go and every lease on it is finished. */
  lemma {:induction false} ReapMeaning(maxRetired: nat, actions: seq<Action>, i: nat)
    requires i < |Reached(maxRetired, actions).retired|
    ensures var s := Reached(maxRetired, actions);
            var h, u := s.retired[i], Step(s, Reap(i));
            && h < |s.holders| && h < |u.holders|
            && (u.holders[h].stage == Finalized <==>
                  && s.holders[h].stage == Dropped
                  && forall l | 0 <= l < |s.leases| && s.leases[l].set_ == h :: s.leases[l].state.Done?)
            && (u.holders[h].stage == Finalized ==>
                  u.retired == Drop(s.retired, i) && u.holders[h].owned == [] && Counts(u.table, LiveTotal(u.holders)))
            && (u.holders[h].stage != Finalized ==> u == s)
  {
    hide *;
    var s := Reached(maxRetired, actions);
    NoFaultReached(maxRetired, actions);
    RetiredFacts(s, i);
    StepInv(s, Reap(i));
    Faultless(Step(s, Reap(i)));
    CountsLive(Step(s, Reap(i)));
    DoReap(s, i, s.retired[i]);
  }

  lemma RetiredFacts(s: State, i: nat)
    requires Inv(s) && i < |s.retired|
    ensures var h := s.retired[i];
            && h < |s.holders| && (s.holders[h].stage == Registered || s.holders[h].stage == Dropped)
            && (s.holders[h].refs == 0 <==>
                  && s.holders[h].stage == Dropped
                  && forall l | 0 <= l < |s.leases| && s.leases[l].set_ == h :: s.leases[l].state.Done?)
  {
    hide Tally, Conserved, Kept, Staged, Gauged, Published, Threads;
    var h := s.retired[i];
    assert OnList(s.holders[h].stage);
    assert Held1(s.holders[h], h, s.leases);
    LeasesHold(s.leases, h);
  }

  /** Every set that has been dropped and is not finalized is on the retired list, so nothing drained is forgotten. */
  lemma {:induction false} DroppedIsListed(maxRetired: nat, actions: seq<Action>, h: nat)
    requires var s := Reached(maxRetired, actions); h < |s.holders| && s.holders[h].stage == Dropped
    ensures exists i :: 0 <= i < |Reached(maxRetired, actions).retired| && Reached(maxRetired, actions).retired[i] == h
  {
    hide Tally, Conserved, Kept, Staged, Gauged, Published, Threads, Leased, Run;
    var s := Reached(maxRetired, actions);
    NoFaultReached(maxRetired, actions);
    assert OnList(s.holders[h].stage) && h in s.retired;
  }

  /** Releasing a tunnel lease ends it and gives its reference back. */
  lemma {:induction false} TunnelReleased(maxRetired: nat, actions: seq<Action>, h: nat)
    requires var s := Reached(maxRetired, actions); h < |s.holders| && s.holders[h].stage == TunnelHeld
    ensures var s := Reached(maxRetired, actions);
            var u := Run(s, [WinTunnelRelease(h), FinishTunnelRelease(h)]);
            && u.fault == NoFault && u.liveTunnels == s.liveTunnels - 1
            && u.holders == s.holders[h := s.holders[h].(stage := TunnelDone, owned := [])]
            && Counts(u.table, LiveTotal(u.holders))
  {
    hide *;
    var s := Reached(maxRetired, actions);
    NoFaultReached(maxRetired, actions);
    RunTwo(s, WinTunnelRelease(h), FinishTunnelRelease(h));
    DoWinTunnelRelease(s, h);
    StepInv(s, WinTunnelRelease(h));
    var b := Step(s, WinTunnelRelease(h));
    StepInv(b, FinishTunnelRelease(h));
    Faultless(Step(b, FinishTunnelRelease(h)));
    CountsLive(Step(b, FinishTunnelRelease(h)));
    TunnelBound(b, h);
    DoFinishTunnelRelease(b, h);
  }

  lemma TunnelBound(s: State, h: nat)
    requires Inv(s) && h < |s.holders| && s.holders[h].stage == TunnelReleasing
    ensures |s.holders[h].built| == 1 && Binds(s.table, s.holders[h].built[0]) && s.liveTunnels > 0
  {
    hide Binds;
    TunnelFacts(s, h);
  }
}
