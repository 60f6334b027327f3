/**
 What every run of the lifetime protocol guarantees (internal/runtime/manager.go;
 internal/upstream/registry.go, plan.go and reaper.go): conservation of references, safety of
 leases and tunnels, exactly-once finalization, and publication.
 */
module LifetimeRuns {
  import opened Wrappers
  import opened Counting
  import opened ResourceTable
  import opened Lifetime
  import opened LifetimeInvariant

  // ----- references

  /** The state that any run reaches. */
  function Reached(maxRetired: nat, actions: seq<Action>): State {
    Run(Init(maxRetired), actions)
  }

  /** What the open candidates, the unfinalized plan sets and the unreleased tunnel leases were created with. */
  function LiveTotal(holders: seq<Holder>): multiset<Ref> {
    if holders == [] then multiset{}
    else
      var x := holders[|holders| - 1];
      LiveTotal(holders[..|holders| - 1]) + if Ended(x.stage) then multiset{} else multiset(x.built)
  }

  lemma {:induction false} LiveIsTotal(holders: seq<Holder>)
    requires Kept(holders)
    ensures Total(holders) == LiveTotal(holders)
  {
    if holders != [] {
      LiveIsTotal(holders[..|holders| - 1]);
      assert Kept1(holders[|holders| - 1]);
    }
  }

  lemma {:induction false} LiveNone(holders: seq<Holder>)
    ensures LiveTotal(holders) == multiset{} <==>
            forall h: nat | h < |holders| :: Ended(holders[h].stage) || holders[h].built == []
  {
    if holders != [] {
      var init, x := holders[..|holders| - 1], holders[|holders| - 1];
      LiveNone(init);
      SumNone(LiveTotal(init), if Ended(x.stage) then multiset{} else multiset(x.built));
      assert multiset(x.built) == multiset{} <==> x.built == [] by {
        if x.built != [] { assert x.built[0] in multiset(x.built); }
      }
      assert forall h: nat | h < |init| :: init[h] == holders[h];
    }
  }

  lemma SumNone(a: multiset<Ref>, b: multiset<Ref>)
    ensures a + b == multiset{} <==> a == multiset{} && b == multiset{}
  {
    if a != multiset{} {
      var r :| r in a;
      assert r in a + b;
    }
    if b != multiset{} {
      var r :| r in b;
      assert r in a + b;
    }
  }

  /**
   Reference conservation: each entry counts exactly the references of open candidates, unfinalized plan sets
   and unreleased tunnel leases, all bound to its runtime; what has ended owns nothing, so nothing leaks; all
   maps are empty exactly when nobody who has not ended was created with a reference; no panic or refusal is met.
   */
  lemma {:induction false} ReferencesConserved(maxRetired: nat, actions: seq<Action>)
    ensures var s := Reached(maxRetired, actions);
            && s.fault == NoFault
            && Counts(s.table, LiveTotal(s.holders))
            && (s.table.entries == map[] <==>
                forall h: nat | h < |s.holders| :: Ended(s.holders[h].stage) || s.holders[h].built == [])
  {
    hide Counts, Total, LiveTotal, Leased, Staged, Gauged, Listed, Published, Threads;
    RunInv(maxRetired, actions);
    var s := Reached(maxRetired, actions);
    LiveIsTotal(s.holders);
    LiveNone(s.holders);
    NoOwnersIffEmpty(s.table, LiveTotal(s.holders));
  }

  /** With no active or retired set, no tunnel and no holder in the hands of an apply, everything has ended. */
  lemma AllEnded(s: State, h: nat)
    requires Inv(s) && Target(s.phase).None? && s.activeSets == 0 && s.retired == [] && s.liveTunnels == 0
    requires h < |s.holders|
    ensures Ended(s.holders[h].stage)
  {
    hide Conserved, Kept, Leased, Published, Threads, Tally;
    assert Fits(s.holders[h].stage, h, s.active, s.phase);
    if CountsAsActive()(s.holders[h]) { TallyPositive(s.holders, h, CountsAsActive()); }
    if LiveTunnel()(s.holders[h]) { TallyPositive(s.holders, h, LiveTunnel()); }
  }

  /** The registry's close condition: once its gauges are zero and no apply is under way, all five maps are empty. */
  lemma {:induction false} QuiescentIsEmpty(maxRetired: nat, actions: seq<Action>)
    requires var s := Reached(maxRetired, actions);
             s.phase.Idle? && s.activeSets == 0 && s.retired == [] && s.liveTunnels == 0
    ensures Reached(maxRetired, actions).table.entries == map[]
  {
    hide Inv, Run;
    RunInv(maxRetired, actions);
    var s := Reached(maxRetired, actions);
    forall h: nat | h < |s.holders| ensures Ended(s.holders[h].stage) { AllEnded(s, h); }
    ReferencesConserved(maxRetired, actions);
  }

  /** A successful preparation creates one candidate that owns one reference per key, in order. */
  lemma {:induction false} PrepareBuilds(maxRetired: nat, actions: seq<Action>, keys: seq<Key>)
    requires var s := Reached(maxRetired, actions);
             s.phase.Checked? && !s.registryClosed && |s.retired| < s.maxRetired
    ensures var s := Reached(maxRetired, actions);
            var u := Step(s, Prepare(keys, false));
            && |u.holders| == |s.holders| + 1 && u.holders[..|s.holders|] == s.holders
            && var x := u.holders[|s.holders|];
               && x.stage == Open && x.owned == x.built && |x.built| == |keys|
               && (forall i | 0 <= i < |keys| :: x.built[i].key == keys[i])
               && Counts(u.table, LiveTotal(s.holders) + multiset(x.built))
  {
    hide Counts, Total, LiveTotal, AcquireAll, ReleaseAll, Leased, Staged, Gauged, Listed, Published, Threads, Run;
    var s := Reached(maxRetired, actions);
    RunInv(maxRetired, actions);
    LiveIsTotal(s.holders);
    AcquireAllCounts(s.table, LiveTotal(s.holders), keys);
    AcquireAllKeys(s.table, keys);
  }

  /** A failed preparation leaves every entry, count and runtime as it was. */
  lemma {:induction false} FailedPrepareRestores(maxRetired: nat, actions: seq<Action>, keys: seq<Key>)
    ensures var s := Reached(maxRetired, actions);
            var u := Step(s, Prepare(keys, true));
            u.table.entries == s.table.entries && u.holders == s.holders && u.active == s.active
  {
    hide Counts, Total, AcquireAll, ReleaseAll, Kept, Leased, Staged, Gauged, Listed, Published, Threads;
    RunInv(maxRetired, actions);
    var s := Reached(maxRetired, actions);
    AcquireReleaseRestores(s.table, Total(s.holders), keys);
  }

  /** A rollback gives back exactly what the candidate was created with. */
  lemma {:induction false} RollbackGivesBack(maxRetired: nat, actions: seq<Action>)
    requires Reached(maxRetired, actions).phase.Undo?
    ensures var s := Reached(maxRetired, actions);
            var u := Step(s, FinishRollback);
            && s.phase.h < |s.holders|
            && Counts(u.table, LiveTotal(s.holders) - multiset(s.holders[s.phase.h].built))
            && u.active == s.active
  {
    hide Counts, Total, LiveTotal, ReleaseAll, Leased, Gauged, Listed, Published, Threads, Run;
    var s := Reached(maxRetired, actions);
    var u := Step(s, FinishRollback);
    RunInv(maxRetired, actions);
    StepInv(s, FinishRollback);
    TargetFacts(s);
    LiveIsTotal(s.holders);
    TotalSplit(s.holders, s.phase.h, s.holders[s.phase.h].(stage := RolledBack, owned := []));
    assert Conserved(u.table, u.holders);
    assert Total(u.holders) == Total(s.holders) - multiset(s.holders[s.phase.h].built);
  }

  // ----- what one step may change

  predicate IsTunnel(stage: Stage) { stage.TunnelHeld? || stage.TunnelReleasing? || stage.TunnelDone? }

  lemma ApplyKeepsRecord(s: State, a: Action, h: nat)
    requires h < |s.holders|
    ensures h < |ApplyStep(s, a).holders| && ApplyStep(s, a).holders[h].built == s.holders[h].built
  {
    hide AcquireAll, ReleaseAll;
  }

  /** The apply goroutine changes only the holder in its hands, and never to finalized. */
  lemma ApplyTouches(s: State, a: Action, h: nat)
    requires h < |s.holders|
    ensures var u := ApplyStep(s, a);
            && |s.holders| <= |u.holders|
            && (u.holders[h] == s.holders[h]
                || (Target(s.phase).Some? && Target(s.phase).value.0 == h && !u.holders[h].stage.Finalized?))
  {
    hide AcquireAll, ReleaseAll;
  }

  lemma RequestKeepsRecord(s: State, a: Action, h: nat)
    requires h < |s.holders|
    ensures h < |RequestStep(s, a).holders| && RequestStep(s, a).holders[h].built == s.holders[h].built
  {
    hide ReleaseAll, Acquire, Binds;
  }

  /** Requests leave a count of zero alone, and stages too, except those of tunnels. */
  lemma RequestTouches(s: State, a: Action, h: nat)
    requires h < |s.holders|
    ensures var u := RequestStep(s, a);
            && |s.holders| <= |u.holders|
            && (s.holders[h].refs <= 0 ==> u.holders[h].refs == s.holders[h].refs)
            && (u.holders[h].stage == s.holders[h].stage
                 || (LiveTunnel()(s.holders[h]) && IsTunnel(u.holders[h].stage)))
  {
    hide ReleaseAll, Acquire, Binds;
  }

  /** The reaper changes only one registered set whose count is zero. */
  lemma ReapTouches(s: State, i: nat, h: nat)
    requires h < |s.holders|
    ensures var u := ReapStep(s, i);
            && |s.holders| == |u.holders| && u.maxRetired == s.maxRetired
            && (u.holders[h] == s.holders[h]
                || (i < |s.retired| && s.retired[i] == h && s.holders[h].refs == 0
                    && u.holders[h] == s.holders[h].(stage := Finalized, owned := [])))
  {
    hide ReleaseAll;
  }

  lemma ApplyGrows(s: State, a: Action)
    ensures var u := ApplyStep(s, a);
            |s.holders| <= |u.holders| && u.maxRetired == s.maxRetired && u.leases == s.leases
  {
    hide AcquireAll, ReleaseAll;
  }

  lemma RequestGrows(s: State, a: Action)
    ensures var u := RequestStep(s, a);
            && |s.holders| <= |u.holders| && u.maxRetired == s.maxRetired && |s.leases| <= |u.leases|
            && forall l | 0 <= l < |s.leases| ::
                 u.leases[l].set_ == s.leases[l].set_ && (s.leases[l].state.Done? ==> u.leases[l].state.Done?)
  {
    hide ReleaseAll, Acquire, Binds;
  }

  /** Nothing is forgotten: holders and leases stay where they are, and a finished lease stays finished. */
  ghost predicate Extends(s: State, u: State) {
    && |s.holders| <= |u.holders| && u.maxRetired == s.maxRetired && |s.leases| <= |u.leases|
    && forall l | 0 <= l < |s.leases| ::
         u.leases[l].set_ == s.leases[l].set_ && (s.leases[l].state.Done? ==> u.leases[l].state.Done?)
  }

  lemma NothingRemoved(s: State, a: Action)
    ensures Extends(s, Step(s, a))
  {
    hide ApplyStep, RequestStep, ReleaseAll;
    ApplyGrows(s, a);
    RequestGrows(s, a);
  }

  /** What no step of a run takes back about one holder. */
  ghost predicate Evolves(x: Holder, y: Holder) {
    && y.built == x.built
    && (x.stage.Finalized? ==> y.stage.Finalized?)
    && (Dead(x) ==> Dead(y) && y.refs <= 0)
    && (IsTunnel(x.stage) ==> IsTunnel(y.stage))
    && (x.stage.TunnelDone? ==> y.stage.TunnelDone?)
  }

  lemma StagesKnown(s: State)
    requires Inv(s)
    ensures Target(s.phase).Some? ==> Target(s.phase).value.0 < |s.holders| &&
                                      s.holders[Target(s.phase).value.0].stage == Target(s.phase).value.1
  {
    if Target(s.phase).Some? { TargetStage(s.holders, s.active, s.phase); }
  }

  /**
   No step changes the record of a holder, raises a count that has reached zero, reopens a finalized set,
   or turns a tunnel lease into something else.
   */
  lemma DeadForever(s: State, a: Action, h: nat)
    requires Inv(s) && h < |s.holders|
    ensures h < |Step(s, a).holders| && Evolves(s.holders[h], Step(s, a).holders[h])
  {
    hide ApplyStep, RequestStep, ReapStep, Conserved, Kept, Staged, Gauged, Listed, Published, Threads, Tally;
    NothingRemoved(s, a);
    StagesKnown(s);
    assert Held1(s.holders[h], h, s.leases);
    if ApplyAction(a) {
      ApplyKeepsRecord(s, a, h);
      ApplyTouches(s, a, h);
    } else if a.Reap? {
      ReapTouches(s, a.i, h);
      if a.i < |s.retired| && s.retired[a.i] == h && s.holders[h].refs == 0 { ReapFacts(s, a.i); }
    } else {
      RequestKeepsRecord(s, a, h);
      RequestTouches(s, a, h);
    }
  }

  lemma EvolvesTransitive(x: Holder, y: Holder, z: Holder)
    requires Evolves(x, y) && Evolves(y, z)
    ensures Evolves(x, z)
  {
  }

  lemma {:induction false} HolderEvolves(maxRetired: nat, before: seq<Action>, after: seq<Action>, h: nat)
    requires h < |Reached(maxRetired, before).holders|
    ensures var s, u := Reached(maxRetired, before), Reached(maxRetired, before + after);
            h < |u.holders| && Evolves(s.holders[h], u.holders[h])
    decreases |after|
  {
    hide Inv, Step, Evolves;
    if after == [] {
      assert before + after == before;
      RunInv(maxRetired, before);
      EvolvesSelf(Reached(maxRetired, before), h);
    } else {
      var init := after[..|after| - 1];
      HolderEvolves(maxRetired, before, init, h);
      var m := Reached(maxRetired, before + init);
      RunInv(maxRetired, before + init);
      DeadForever(m, after[|after| - 1], h);
      assert (before + after)[..|before + after| - 1] == before + init;
      EvolvesTransitive(Reached(maxRetired, before).holders[h], m.holders[h], Step(m, after[|after| - 1]).holders[h]);
    }
  }

  lemma EvolvesSelf(s: State, h: nat)
    requires Inv(s) && h < |s.holders|
    ensures Evolves(s.holders[h], s.holders[h])
  {
    hide Tally;
    assert Held1(s.holders[h], h, s.leases);
  }

  lemma {:induction false} LeaseStays(maxRetired: nat, before: seq<Action>, after: seq<Action>)
    ensures Extends(Reached(maxRetired, before), Reached(maxRetired, before + after))
    decreases |after|
  {
    hide Step;
    if after == [] {
      assert before + after == before;
    } else {
      var init := after[..|after| - 1];
      LeaseStays(maxRetired, before, init);
      NothingRemoved(Reached(maxRetired, before + init), after[|after| - 1]);
      assert (before + after)[..|before + after| - 1] == before + init;
    }
  }

  // ----- leases and tunnels

  lemma OwnedBinds(s: State, h: nat)
    requires Inv(s) && h < |s.holders|
    ensures forall ref | ref in s.holders[h].owned :: Binds(s.table, ref)
  {
    hide Counts, Total, Kept, Leased, Staged, Gauged, Listed, Published, Threads;
    forall ref | ref in s.holders[h].owned ensures Binds(s.table, ref) {
      var r: nat :| r < |s.holders[h].owned| && s.holders[h].owned[r] == ref;
      OwnedInTotal(s.holders, h, r);
      OwnedIsBound(s.table, Total(s.holders), ref);
    }
  }

  /**
   Lease safety: from when a lease is taken until it is finished, its set owns exactly the references it was
   built with, and every one of their keys is still mapped to the runtime the set was built with.
   */
  lemma {:induction false} LeaseKeepsRuntimes(maxRetired: nat, before: seq<Action>, after: seq<Action>, l: nat)
    requires var s, u := Reached(maxRetired, before), Reached(maxRetired, before + after);
             l < |s.leases| && l < |u.leases| && !u.leases[l].state.Done?
    ensures var s, u := Reached(maxRetired, before), Reached(maxRetired, before + after);
            var h := s.leases[l].set_;
            && !s.leases[l].state.Done? && u.leases[l].set_ == h && h < |s.holders| && h < |u.holders|
            && u.holders[h].owned == s.holders[h].owned == s.holders[h].built
            && forall ref | ref in s.holders[h].owned :: Binds(u.table, ref)
  {
    hide Inv, Step, Run;
    var s, u := Reached(maxRetired, before), Reached(maxRetired, before + after);
    RunInv(maxRetired, before);
    RunInv(maxRetired, before + after);
    LeaseStays(maxRetired, before, after);
    LeasedOwns(s, l);
    LeasedOwns(u, l);
    HolderEvolves(maxRetired, before, after, s.leases[l].set_);
    OwnedBinds(u, s.leases[l].set_);
  }

  /** A tunnel can be opened with any transport of a leased set, and takes a reference of its own to that runtime. */
  lemma {:induction false} TunnelOpens(maxRetired: nat, actions: seq<Action>, l: nat, r: nat)
    requires var s := Reached(maxRetired, actions);
             && l < |s.leases| && s.leases[l].state.Held? && s.leases[l].set_ < |s.holders|
             && r < |s.holders[s.leases[l].set_].built| && s.holders[s.leases[l].set_].built[r].key.Transport?
    ensures var s := Reached(maxRetired, actions);
            var ref := s.holders[s.leases[l].set_].built[r];
            var u := Step(s, OpenTunnel(l, r));
            && u.fault == NoFault
            && u.holders == s.holders + [Holder(TunnelHeld, [ref], [ref], 0)]
            && Counts(u.table, LiveTotal(s.holders) + multiset{ref})
  {
    hide Run, Counts, Total, LiveTotal, Acquire, Leased, Staged, Gauged, Listed, Published, Threads;
    var s := Reached(maxRetired, actions);
    var ref := s.holders[s.leases[l].set_].built[r];
    RunInv(maxRetired, actions);
    OpenTunnelInv(s, l, r);
    LiveIsTotal(s.holders);
    AcquireCounts(s.table, LiveTotal(s.holders), ref.key);
    SharesRuntime(s.table, ref);
  }

  lemma SharesRuntime(t: Table, ref: Ref)
    requires Binds(t, ref)
    ensures Acquire(t, ref.key).1 == ref
  {
  }

  /**
   From opening until release a tunnel lease owns the one transport reference it was opened with, and the table
   maps its key to that runtime, whatever has become of the snapshot.
   */
  lemma {:induction false} TunnelKeepsTransport(maxRetired: nat, before: seq<Action>, after: seq<Action>, h: nat)
    requires h < |Reached(maxRetired, before).holders| && IsTunnel(Reached(maxRetired, before).holders[h].stage)
    requires var u := Reached(maxRetired, before + after); h < |u.holders| && !u.holders[h].stage.TunnelDone?
    ensures var s, u := Reached(maxRetired, before), Reached(maxRetired, before + after);
            && |s.holders[h].owned| == 1 && u.holders[h].owned == s.holders[h].owned
            && Binds(u.table, s.holders[h].owned[0])
  {
    hide Inv, Step, Run;
    var s, u := Reached(maxRetired, before), Reached(maxRetired, before + after);
    RunInv(maxRetired, before);
    RunInv(maxRetired, before + after);
    HolderEvolves(maxRetired, before, after, h);
    TunnelFacts(s, h);
    TunnelFacts(u, h);
  }

  // ----- counts that reach zero

  /** A set whose count has reached zero stays at zero for the rest of the run. */
  lemma {:induction false} ZeroIsFinal(maxRetired: nat, before: seq<Action>, after: seq<Action>, h: nat)
    requires h < |Reached(maxRetired, before).holders| && Dead(Reached(maxRetired, before).holders[h])
    ensures var u := Reached(maxRetired, before + after);
            h < |u.holders| && Dead(u.holders[h]) && u.holders[h].refs <= 0
  {
    hide Inv, Step, Run;
    HolderEvolves(maxRetired, before, after, h);
  }

  lemma OnlyReapFinalizes(s: State, a: Action, h: nat)
    requires Inv(s) && h < |s.holders| && !s.holders[h].stage.Finalized?
    requires h < |Step(s, a).holders| && Step(s, a).holders[h].stage.Finalized?
    ensures a.Reap? && a.i < |s.retired| && s.retired[a.i] == h && s.holders[h].refs == 0
  {
    hide ApplyStep, RequestStep, ReapStep, Inv;
    if ApplyAction(a) {
      ApplyTouches(s, a, h);
    } else if a.Reap? {
      ReapTouches(s, a.i, h);
    } else {
      RequestTouches(s, a, h);
    }
  }

  /** Step `i` of the run finalizes set `h`. */
  predicate Finalizes(maxRetired: nat, actions: seq<Action>, i: nat, h: nat) {
    && i < |actions|
    && var s, u := Reached(maxRetired, actions[..i]), Reached(maxRetired, actions[..i + 1]);
       && h < |s.holders| && !s.holders[h].stage.Finalized?
       && h < |u.holders| && u.holders[h].stage.Finalized?
  }

  /** A set is finalized only by the reaper, after it was retired and registered and its count had reached zero. */
  lemma {:induction false} FinalizedOnlyWhenDrained(maxRetired: nat, actions: seq<Action>, i: nat, h: nat)
    requires Finalizes(maxRetired, actions, i, h)
    ensures var s := Reached(maxRetired, actions[..i]);
            && actions[i].Reap? && h in s.retired && s.holders[h].stage == Dropped && s.holders[h].refs == 0
            && forall l | 0 <= l < |s.leases| && s.leases[l].set_ == h :: s.leases[l].state.Done?
  {
    hide Inv, Step;
    var s := Reached(maxRetired, actions[..i]);
    assert actions[..i + 1][..i] == actions[..i];
    RunInv(maxRetired, actions[..i]);
    OnlyReapFinalizes(s, actions[i], h);
    ReapFacts(s, actions[i].i);
    forall l: nat | l < |s.leases| && s.leases[l].set_ == h ensures s.leases[l].state.Done? {
      if !s.leases[l].state.Done? { LeaseFacts(s, l); }
    }
  }

  /** Finalization happens once: at most one step of a run finalizes a set, which then stays finalized. */
  lemma {:induction false} FinalizedOnce(maxRetired: nat, actions: seq<Action>, i: nat, j: nat, h: nat)
    requires Finalizes(maxRetired, actions, i, h) && i < j <= |actions|
    ensures var u := Reached(maxRetired, actions[..j]); h < |u.holders| && u.holders[h].stage.Finalized?
    ensures !Finalizes(maxRetired, actions, j, h)
  {
    hide Inv, Step, Run;
    assert actions[..i + 1] + actions[i + 1..j] == actions[..j];
    HolderEvolves(maxRetired, actions[..i + 1], actions[i + 1..j], h);
  }

  // ----- publication

  /** Published revisions strictly increase; the active one is the last; nothing is published after close. */
  lemma {:induction false} RevisionsIncrease(maxRetired: nat, actions: seq<Action>)
    ensures var s := Reached(maxRetired, actions);
            && Increasing(s.history)
            && (s.active.Some? ==>
                  !s.closed && s.history != [] && s.active.value.revision == s.history[|s.history| - 1])
            && (s.active.None? ==> s.closed || s.history == [])
  {
    hide Conserved, Kept, Leased, Staged, Gauged, Listed, Threads;
    RunInv(maxRetired, actions);
  }

  /** The retired list holds at most the configured number of sets, and one more after close. */
  lemma {:induction false} RetiredWithinLimit(maxRetired: nat, actions: seq<Action>)
    ensures var s := Reached(maxRetired, actions);
            |s.retired| <= maxRetired + if s.closed then 1 else 0
  {
    hide Conserved, Kept, Leased, Staged, Gauged, Listed, Threads, Published, Run, Step;
    RunInv(maxRetired, actions);
    LeaseStays(maxRetired, [], actions);
    assert [] + actions == actions;
    NothingDone(maxRetired);
  }

  lemma NothingDone(maxRetired: nat)
    ensures Reached(maxRetired, []).maxRetired == maxRetired
  {
  }

  lemma RequestKeepsActive(s: State, a: Action)
    ensures RequestStep(s, a).active == s.active
  {
    hide ReleaseAll, Acquire, Binds;
  }

  lemma ActiveStep(s: State, a: Action)
    ensures Step(s, a).active != s.active ==>
              (a.Swap? && s.phase.Publish? && Step(s, a).active == Some(Snapshot(s.phase.revision, s.phase.h)))
              || (a.Close? && Step(s, a).closed && Step(s, a).active == None)
  {
    hide RequestStep, AcquireAll, ReleaseAll;
    RequestKeepsActive(s, a);
  }

  /**
   The active snapshot changes only where one is swapped in whose revision is above every revision published
   before, or where the manager is closed.
   */
  lemma {:induction false} ActiveChangesOnlyByPublication(maxRetired: nat, actions: seq<Action>, a: Action)
    ensures var s := Reached(maxRetired, actions);
            var u := Step(s, a);
            u.active != s.active ==>
              || (a.Swap? && u.active.Some? && !s.closed && forall r | r in s.history :: r < u.active.value.revision)
              || (a.Close? && u.closed && u.active == None)
  {
    hide Conserved, Kept, Leased, Staged, Gauged, Listed, Threads, Run, Step;
    RunInv(maxRetired, actions);
    ActiveStep(Reached(maxRetired, actions), a);
  }
}
