/**
 Every step of the lifetime protocol keeps its invariant, and meets no fault
 (internal/runtime/manager.go; internal/upstream/registry.go, plan.go and reaper.go).
 */
module LifetimeInvariant {
  import opened Wrappers
  import opened Counting
  import opened ResourceTable
  import opened Lifetime

  // ----- how the parts of the invariant change with one holder

  lemma {:induction false} TotalConcat(a: seq<Holder>, b: seq<Holder>)
    ensures Total(a + b) == Total(a) + Total(b)
  {
    if b == [] {
      assert a + b == a;
    } else {
      var init, last := b[..|b| - 1], multiset(b[|b| - 1].owned);
      TotalConcat(a, init);
      assert (a + b)[..|a + b| - 1] == a + init;
      SumAssociates(Total(a), Total(init), last);
    }
  }

  lemma SumAssociates(x: multiset<Ref>, y: multiset<Ref>, z: multiset<Ref>)
    ensures (x + y) + z == x + (y + z)
  {
  }

  lemma TotalOne(x: Holder)
    ensures Total([x]) == multiset(x.owned)
  {
    assert [x][..0] == [];
  }

  lemma TotalSplit(holders: seq<Holder>, h: nat, x: Holder)
    requires h < |holders|
    ensures Total(holders) == Total(Drop(holders, h)) + multiset(holders[h].owned)
    ensures Total(holders[h := x]) == Total(Drop(holders, h)) + multiset(x.owned)
  {
    hide Total;
    var a, b := holders[..h], holders[h + 1..];
    assert holders == a + ([holders[h]] + b) && holders[h := x] == a + ([x] + b);
    TotalConcat(a, [holders[h]] + b);
    TotalConcat(a, [x] + b);
    TotalConcat([holders[h]], b);
    TotalConcat([x], b);
    TotalConcat(a, b);
    TotalOne(holders[h]);
    TotalOne(x);
  }

  lemma {:induction false} TotalSnoc(holders: seq<Holder>, x: Holder)
    ensures Total(holders + [x]) == Total(holders) + multiset(x.owned)
  {
    assert (holders + [x])[..|holders|] == holders;
  }

  lemma ConservedPut(table: Table, holders: seq<Holder>, h: nat, x: Holder)
    requires Conserved(table, holders) && h < |holders| && x.owned == holders[h].owned
    ensures Conserved(table, holders[h := x])
  {
    hide Total, Counts;
    TotalSplit(holders, h, x);
  }

  /** Giving up the references of one holder cannot underflow, and everything else stays counted. */
  lemma {:induction false} ConservedGiveUp(table: Table, holders: seq<Holder>, h: nat, x: Holder)
    requires Conserved(table, holders) && h < |holders| && x.owned == []
    ensures ReleaseAll(table, holders[h].owned).Some?
    ensures Conserved(ReleaseAll(table, holders[h].owned).value, holders[h := x])
  {
    hide Total, Counts, ReleaseAll;
    TotalSplit(holders, h, x);
    ReleaseAllCounts(table, Total(Drop(holders, h)), holders[h].owned);
    assert Total(Drop(holders, h)) + multiset(x.owned) == Total(Drop(holders, h));
  }

  lemma {:induction false} ConservedPrepare(table: Table, holders: seq<Holder>, keys: seq<Key>)
    requires Conserved(table, holders)
    ensures var (t, refs) := AcquireAll(table, keys);
            && Conserved(t, holders + [Holder(Open, refs, refs, 0)])
            && ReleaseAll(t, refs).Some? && Conserved(ReleaseAll(t, refs).value, holders)
  {
    hide Total, Counts, ReleaseAll, AcquireAll;
    var (t, refs) := AcquireAll(table, keys);
    AcquireAllCounts(table, Total(holders), keys);
    TotalSnoc(holders, Holder(Open, refs, refs, 0));
    ReleaseAllCounts(t, Total(holders), refs);
  }

  lemma {:induction false} OwnedInTotal(holders: seq<Holder>, h: nat, r: nat)
    requires h < |holders| && r < |holders[h].owned|
    ensures holders[h].owned[r] in Total(holders)
  {
    hide Total;
    TotalSplit(holders, h, holders[h]);
    assert holders[h].owned[r] in multiset(holders[h].owned);
  }

  lemma KeptPut(holders: seq<Holder>, h: nat, x: Holder)
    requires Kept(holders) && h < |holders| && Kept1(x)
    ensures Kept(holders[h := x])
  {
  }

  lemma KeptSnoc(holders: seq<Holder>, x: Holder)
    requires Kept(holders) && Kept1(x)
    ensures Kept(holders + [x])
  {
  }

  lemma LeasedPut(holders: seq<Holder>, leases: seq<Lease>, h: nat, x: Holder)
    requires Leased(holders, leases) && h < |holders| && Held1(x, h, leases)
    ensures Leased(holders[h := x], leases)
  {
    hide Held1;
  }

  lemma GaugedPut(holders: seq<Holder>, h: nat, x: Holder, activeSets: int, liveTunnels: int)
    requires Gauged(holders, activeSets, liveTunnels) && h < |holders|
    requires LiveTunnel()(x) ==> x.built == holders[h].built && LiveTunnel()(holders[h])
    ensures Gauged(holders[h := x],
                   activeSets - (if CountsAsActive()(holders[h]) then 1 else 0)
                       + (if CountsAsActive()(x) then 1 else 0),
                   liveTunnels - (if LiveTunnel()(holders[h]) then 1 else 0) + (if LiveTunnel()(x) then 1 else 0))
  {
    hide Tally;
    TallyUpdate(holders, h, x, CountsAsActive());
    TallyUpdate(holders, h, x, LiveTunnel());
  }

  lemma GaugedSnoc(holders: seq<Holder>, x: Holder, activeSets: int, liveTunnels: int)
    requires Gauged(holders, activeSets, liveTunnels)
    requires x.stage.Open? || (x.stage.TunnelHeld? && |x.built| == 1 && x.built[0].key.Transport?)
    ensures Gauged(holders + [x], activeSets, liveTunnels + if x.stage.Open? then 0 else 1)
  {
    hide Tally;
    TallySnoc(holders, x, CountsAsActive());
    TallySnoc(holders, x, LiveTunnel());
  }

  lemma ListedPut(holders: seq<Holder>, retired: seq<nat>, h: nat, x: Holder)
    requires Listed(holders, retired) && h < |holders| && OnList(x.stage) == OnList(holders[h].stage)
    ensures Listed(holders[h := x], retired)
  {
  }

  lemma ListedRegister(holders: seq<Holder>, retired: seq<nat>, h: nat, x: Holder)
    requires Listed(holders, retired) && h < |holders| && OnList(x.stage) && !OnList(holders[h].stage)
    ensures Listed(holders[h := x], retired + [h])
  {
    forall k: nat | k < |holders| && OnList(holders[h := x][k].stage) ensures k in retired + [h] {
      assert k != h ==> k in retired;
    }
  }

  lemma ListedReap(holders: seq<Holder>, retired: seq<nat>, i: nat, x: Holder)
    requires Listed(holders, retired) && i < |retired| && !OnList(x.stage)
    ensures Listed(holders[retired[i] := x], Drop(retired, i))
  {
    var u, d := holders[retired[i] := x], Drop(retired, i);
    DropDistinct(retired, i);
    hide Drop;
    forall k: nat | k < |u| && OnList(u[k].stage) ensures k in d {
      assert OnList(holders[k].stage);
      StillListed(retired, i, k);
    }
    forall j | 0 <= j < |d| ensures d[j] < |u| && OnList(u[d[j]].stage) {
      assert d[j] in d;
      var k :| 0 <= k < |retired| && retired[k] == d[j];
    }
  }

  lemma DropDistinct(retired: seq<nat>, i: nat)
    requires i < |retired| && forall a, b | 0 <= a < b < |retired| :: retired[a] != retired[b]
    ensures var d := Drop(retired, i);
            && (forall a, b | 0 <= a < b < |d| :: d[a] != d[b])
            && (forall k | k in d :: k in retired && k != retired[i])
  {
    var d := Drop(retired, i);
    assert forall j | 0 <= j < |d| :: d[j] == retired[if j < i then j else j + 1];
  }

  lemma StillListed(retired: seq<nat>, i: nat, k: nat)
    requires i < |retired| && k in retired && k != retired[i]
    ensures k in Drop(retired, i)
  {
    var j :| 0 <= j < |retired| && retired[j] == k;
    assert Drop(retired, i)[if j < i then j else j - 1] == k;
  }

  lemma ThreadsPut(holders: seq<Holder>, acquirers: seq<Acquirer>, h: nat, x: Holder)
    requires Threads(holders, acquirers) && h < |holders|
    requires IsSet(holders[h].stage) || holders[h].stage.Finalized? ==> IsSet(x.stage) || x.stage.Finalized?
    requires Dead(holders[h]) ==> Dead(x)
    ensures Threads(holders[h := x], acquirers)
  {
  }

  /** The apply goroutine moves its holder on. */
  lemma StagedMove(holders: seq<Holder>, active: Option<Snapshot>, p: Phase, q: Phase, x: Holder)
    requires Staged(holders, active, p) && Target(p).Some?
    requires if Target(q).Some? then Target(q).value == (Target(p).value.0, x.stage) else Settled(x.stage)
    ensures Staged(holders[Target(p).value.0 := x], active, q)
  {
    var h, u := Target(p).value.0, holders[Target(p).value.0 := x];
    forall k: nat | k < |u| ensures Fits(u[k].stage, k, active, q) {
      assert Fits(holders[k].stage, k, active, p);
    }
  }

  lemma StagedKeep(holders: seq<Holder>, active: Option<Snapshot>, p: Phase, h: nat, x: Holder)
    requires Staged(holders, active, p) && h < |holders|
    requires x.stage == holders[h].stage || (Settled(x.stage) && Settled(holders[h].stage))
    ensures Staged(holders[h := x], active, p)
  {
    var u := holders[h := x];
    forall k: nat | k < |u| ensures Fits(u[k].stage, k, active, p) {
      assert Fits(holders[k].stage, k, active, p);
    }
  }

  lemma StagedSnoc(holders: seq<Holder>, active: Option<Snapshot>, p: Phase, q: Phase, x: Holder)
    requires Staged(holders, active, p)
    requires (p == q && Settled(x.stage)) || (Target(p).None? && Target(q) == Some((|holders|, x.stage)))
    ensures Staged(holders + [x], active, q)
  {
    var u := holders + [x];
    forall k: nat | k < |u| ensures Fits(u[k].stage, k, active, q) {
      assert k < |holders| ==> Fits(holders[k].stage, k, active, p);
    }
  }

  /** The published set becomes the one to retire, and another one (or none) is published. */
  lemma StagedSwap(holders: seq<Holder>, active: Option<Snapshot>, p: Phase, next: Option<Snapshot>)
    requires Staged(holders, active, p)
    requires (p.Publish? && next == Some(Snapshot(p.revision, p.h))) || (p.Idle? && next.None?)
    ensures Staged(holders, next, NextPhase(active))
  {
    forall k: nat | k < |holders| ensures Fits(holders[k].stage, k, next, NextPhase(active)) {
      assert Fits(holders[k].stage, k, active, p);
    }
  }

  /** The target of the apply goroutine is not a registered or counted lease holder in the wrong stage. */
  lemma TargetStage(holders: seq<Holder>, active: Option<Snapshot>, p: Phase)
    requires Staged(holders, active, p) && Target(p).Some?
    ensures holders[Target(p).value.0].stage == Target(p).value.1
  {
    assert Fits(holders[Target(p).value.0].stage, Target(p).value.0, active, p);
  }

  lemma ActiveStage(holders: seq<Holder>, active: Option<Snapshot>, p: Phase)
    requires Staged(holders, active, p) && active.Some?
    ensures holders[active.value.set_].stage == Active
  {
    assert Fits(holders[active.value.set_].stage, active.value.set_, active, p);
  }

  // ----- the apply goroutine

  lemma StartApplyInv(s: State, revision: nat)
    requires Inv(s)
    ensures Inv(ApplyStep(s, StartApply(revision)))
  {
    hide Conserved, Kept, Leased, Gauged, Listed, Threads;
    if s.phase.Idle? && !s.closed && !(s.active.Some? && revision <= s.active.value.revision) {
      forall k: nat | k < |s.holders| ensures Fits(s.holders[k].stage, k, s.active, Checked(revision)) {
        assert Fits(s.holders[k].stage, k, s.active, s.phase);
      }
    }
  }

  lemma PublishedKeep(active: Option<Snapshot>, closed: bool, p: Phase, q: Phase, history: seq<nat>)
    requires Published(active, closed, p, history)
    requires Carries(q) ==> Carries(p) && p.revision == q.revision
    ensures Published(active, closed, q, history)
  {
    hide Increasing;
  }

  /** A new holder that nobody has leased. */
  lemma SnocKeeps(holders: seq<Holder>, leases: seq<Lease>, retired: seq<nat>, acquirers: seq<Acquirer>, x: Holder)
    requires Leased(holders, leases) && Listed(holders, retired) && Threads(holders, acquirers)
    requires x.refs == 0 && (x.stage.Open? || x.stage.TunnelHeld?)
    ensures Leased(holders + [x], leases) && Listed(holders + [x], retired) && Threads(holders + [x], acquirers)
  {
    hide Tally;
    var n := |holders|;
    forall l | l in leases ensures !On(n)(l) {}
    TallyNone(leases, On(n));
    forall h: nat | h < |holders + [x]| ensures Held1((holders + [x])[h], h, leases) {
      assert h < |holders| ==> Held1(holders[h], h, leases);
    }
  }

  lemma PrepareInv(s: State, keys: seq<Key>, fails: bool)
    requires Inv(s) && s.phase.Checked?
    ensures Inv(ApplyStep(s, Prepare(keys, fails)))
  {
    hide Conserved, Kept, Leased, Staged, Gauged, Listed, Published, Threads, AcquireAll, ReleaseAll;
    ConservedPrepare(s.table, s.holders, keys);
    var x := Holder(Open, AcquireAll(s.table, keys).1, AcquireAll(s.table, keys).1, 0);
    KeptSnoc(s.holders, x);
    GaugedSnoc(s.holders, x, s.activeSets, s.liveTunnels);
    SnocKeeps(s.holders, s.leases, s.retired, s.acquirers, x);
    StagedSnoc(s.holders, s.active, s.phase, Prepared(s.phase.revision, |s.holders|), x);
    StagedPhase(s.holders, s.active, s.phase, Idle);
    PublishedKeep(s.active, s.closed, s.phase, Idle, s.history);
    PublishedKeep(s.active, s.closed, s.phase, Prepared(s.phase.revision, |s.holders|), s.history);
  }

  lemma StagedPhase(holders: seq<Holder>, active: Option<Snapshot>, p: Phase, q: Phase)
    requires Staged(holders, active, p) && Target(p) == Target(q)
    ensures Staged(holders, active, q)
  {
    forall k: nat | k < |holders| ensures Fits(holders[k].stage, k, active, q) {
      assert Fits(holders[k].stage, k, active, p);
    }
  }

  /** The apply goroutine moves its holder from one stage to the next and keeps what it owns. */
  lemma MoveInv(s: State, q: Phase, x: Holder, activeSets: int)
    requires Inv(s) && Target(s.phase).Some?
    requires var h := Target(s.phase).value.0; var y := s.holders[h];
             && x.owned == y.owned && Kept1(x) && Held1(x, h, s.leases) && !LiveTunnel()(x) && !LiveTunnel()(y)
             && OnList(x.stage) == OnList(y.stage) && !Dead(y) && (IsSet(y.stage) ==> IsSet(x.stage))
                && !y.stage.Finalized?
             && activeSets == s.activeSets - (if CountsAsActive()(y) then 1 else 0)
                + (if CountsAsActive()(x) then 1 else 0)
    requires if Target(q).Some? then Target(q).value == (Target(s.phase).value.0, x.stage) else Settled(x.stage)
    requires Carries(q) ==> Carries(s.phase) && s.phase.revision == q.revision
    requires Limited(|s.retired|, s.maxRetired, s.closed, q)
    ensures Inv(Put(s, Target(s.phase).value.0, x).(activeSets := activeSets, phase := q))
  {
    var h := Target(s.phase).value.0;
    ConservedPut(s.table, s.holders, h, x);
    KeptPut(s.holders, h, x);
    LeasedPut(s.holders, s.leases, h, x);
    StagedMove(s.holders, s.active, s.phase, q, x);
    GaugedPut(s.holders, h, x, s.activeSets, s.liveTunnels);
    ListedPut(s.holders, s.retired, h, x);
    PublishedKeep(s.active, s.closed, s.phase, q, s.history);
    ThreadsPut(s.holders, s.acquirers, h, x);
    hide *;
  }

  /** The holder in the apply goroutine's hands, with what the invariant says about it. */
  lemma TargetFacts(s: State)
    requires Inv(s) && Target(s.phase).Some?
    ensures var (h, stage) := Target(s.phase).value;
            && h < |s.holders| && s.holders[h].stage == stage
            && Held1(s.holders[h], h, s.leases) && Kept1(s.holders[h])
  {
    TargetStage(s.holders, s.active, s.phase);
  }

  lemma BuildFailsInv(s: State)
    requires Inv(s) && s.phase.Prepared?
    ensures Inv(ApplyStep(s, BuildFails))
  {
    hide Conserved, Kept, Leased, Staged, Gauged, Listed, Published, Threads, Tally;
    TargetFacts(s);
    MoveInv(s, Undo(s.phase.h), s.holders[s.phase.h].(stage := Undoing), s.activeSets);
  }

  lemma WinCommitInv(s: State)
    requires Inv(s) && s.phase.Prepared?
    ensures Inv(ApplyStep(s, WinCommit))
  {
    hide Conserved, Kept, Leased, Staged, Gauged, Listed, Published, Threads, Tally;
    TargetFacts(s);
    MoveInv(s, Commit(s.phase.revision, s.phase.h), s.holders[s.phase.h].(stage := Committing), s.activeSets);
  }

  lemma FinishCommitInv(s: State)
    requires Inv(s) && s.phase.Commit?
    ensures Inv(ApplyStep(s, FinishCommit))
  {
    hide Conserved, Kept, Leased, Staged, Gauged, Listed, Published, Threads, Tally;
    TargetFacts(s);
    var h := s.phase.h;
    MoveInv(s, Publish(s.phase.revision, h), s.holders[h].(stage := Active, refs := 1), s.activeSets + 1);
  }

  lemma WinRetireInv(s: State)
    requires Inv(s) && s.phase.Retire?
    ensures Inv(ApplyStep(s, WinRetire))
  {
    hide Conserved, Kept, Leased, Staged, Gauged, Listed, Published, Threads, Tally;
    TargetFacts(s);
    MoveInv(s, Register(s.phase.h), s.holders[s.phase.h].(stage := Retiring), s.activeSets);
  }

  lemma ReleaseOwnerInv(s: State)
    requires Inv(s) && s.phase.DropOwner?
    ensures Inv(ApplyStep(s, ReleaseOwner))
  {
    hide Conserved, Kept, Leased, Staged, Gauged, Listed, Published, Threads, Tally;
    TargetFacts(s);
    var y := s.holders[s.phase.h];
    MoveInv(s, Idle, y.(stage := Dropped, refs := y.refs - 1), s.activeSets);
  }

  lemma FinishRollbackInv(s: State)
    requires Inv(s) && s.phase.Undo?
    ensures Inv(ApplyStep(s, FinishRollback))
  {
    hide Tally, Total, Counts;
    TargetFacts(s);
    var h := s.phase.h;
    var x := s.holders[h].(stage := RolledBack, owned := []);
    ConservedGiveUp(s.table, s.holders, h, x);
    KeptPut(s.holders, h, x);
    LeasedPut(s.holders, s.leases, h, x);
    StagedMove(s.holders, s.active, s.phase, Idle, x);
    GaugedPut(s.holders, h, x, s.activeSets, s.liveTunnels);
    ListedPut(s.holders, s.retired, h, x);
    PublishedKeep(s.active, s.closed, s.phase, Idle, s.history);
    ThreadsPut(s.holders, s.acquirers, h, x);
    hide Conserved, Kept, Leased, Staged, Gauged, Listed, Published, Threads, Tally, ReleaseAll;
  }

  lemma RegisterInv(s: State)
    requires Inv(s) && s.phase.Register?
    ensures Inv(ApplyStep(s, RegisterRetired))
  {
    hide Conserved, Kept, Leased, Staged, Listed, Published, Threads, Tally;
    TargetFacts(s);
    var h := s.phase.h;
    var x := s.holders[h].(stage := Registered);
    TallyPositive(s.holders, h, CountsAsActive());
    ConservedPut(s.table, s.holders, h, x);
    KeptPut(s.holders, h, x);
    LeasedPut(s.holders, s.leases, h, x);
    StagedMove(s.holders, s.active, s.phase, DropOwner(h), x);
    GaugedPut(s.holders, h, x, s.activeSets, s.liveTunnels);
    ListedRegister(s.holders, s.retired, h, x);
    PublishedKeep(s.active, s.closed, s.phase, DropOwner(h), s.history);
    ThreadsPut(s.holders, s.acquirers, h, x);
    assert s.activeSets > 0;
    hide Gauged;
  }

  lemma SwapInv(s: State)
    requires Inv(s) && s.phase.Publish?
    ensures Inv(ApplyStep(s, Swap))
  {
    hide Conserved, Kept, Leased, Staged, Gauged, Listed, Threads;
    StagedSwap(s.holders, s.active, s.phase, Some(Snapshot(s.phase.revision, s.phase.h)));
  }

  lemma CloseInv(s: State)
    requires Inv(s) && s.phase.Idle?
    ensures Inv(ApplyStep(s, Close))
  {
    hide Conserved, Kept, Leased, Staged, Gauged, Listed, Threads;
    StagedSwap(s.holders, s.active, s.phase, None);
  }

  lemma ApplyStepInv(s: State, a: Action)
    requires Inv(s)
    ensures Inv(ApplyStep(s, a))
  {
    hide Inv;
    match (a, s.phase)
    case (StartApply(revision), _) => StartApplyInv(s, revision);
    case (Prepare(keys, fails), Checked(_)) => PrepareInv(s, keys, fails);
    case (BuildFails, Prepared(_, _)) => BuildFailsInv(s);
    case (FinishRollback, Undo(_)) => FinishRollbackInv(s);
    case (WinCommit, Prepared(_, _)) => WinCommitInv(s);
    case (FinishCommit, Commit(_, _)) => FinishCommitInv(s);
    case (Swap, Publish(_, _)) => SwapInv(s);
    case (WinRetire, Retire(_)) => WinRetireInv(s);
    case (RegisterRetired, Register(_)) => RegisterInv(s);
    case (ReleaseOwner, DropOwner(_)) => ReleaseOwnerInv(s);
    case (Close, Idle) => CloseInv(s);
    case _ =>
  }

  // ----- requests, tunnels and the reaper

  /** One reference more or less on a set, matched by one lease more or less. */
  lemma {:induction false} LeasedChange(holders: seq<Holder>, leases: seq<Lease>, h: nat, x: Holder, after: seq<Lease>)
    requires Leased(holders, leases) && h < |holders| && x.stage == holders[h].stage && IsSet(x.stage)
    requires forall l | 0 <= l < |after| :: after[l].set_ < |holders|
    requires forall k: nat | k < |holders| ::
               Tally(after, On(k)) == Tally(leases, On(k)) + if k == h then x.refs - holders[h].refs else 0
    ensures Leased(holders[h := x], after)
  {
    hide Tally;
    var u := holders[h := x];
    forall k: nat | k < |u| ensures Held1(u[k], k, after) {
      assert Held1(holders[k], k, leases);
    }
  }

  /** Only the count of a set changes. */
  lemma RefsInv(s: State, h: nat, refs: int, leases: seq<Lease>, acquirers: seq<Acquirer>)
    requires Inv(s) && h < |s.holders| && IsSet(s.holders[h].stage) && s.holders[h].refs > 0
    requires Leased(s.holders[h := s.holders[h].(refs := refs)], leases)
    requires Threads(s.holders, acquirers)
    ensures Inv(s.(holders := s.holders[h := s.holders[h].(refs := refs)], leases := leases, acquirers := acquirers))
  {
    var x := s.holders[h].(refs := refs);
    ConservedPut(s.table, s.holders, h, x);
    KeptPut(s.holders, h, x);
    StagedKeep(s.holders, s.active, s.phase, h, x);
    GaugedPut(s.holders, h, x, s.activeSets, s.liveTunnels);
    ListedPut(s.holders, s.retired, h, x);
    ThreadsPut(s.holders, acquirers, h, x);
    hide Conserved, Kept, Leased, Staged, Gauged, Listed, Published, Threads;
  }

  lemma LoadInv(s: State)
    requires Inv(s)
    ensures Inv(RequestStep(s, Load))
  {
    hide Conserved, Kept, Leased, Staged, Gauged, Listed, Published;
    if s.active.Some? {
      ActiveStage(s.holders, s.active, s.phase);
      ActiveInRange(s);
    }
  }

  lemma ActiveInRange(s: State)
    requires Inv(s) && s.active.Some?
    ensures s.active.value.set_ < |s.holders|
  {
  }

  lemma TryAcquireInv(s: State, a: nat)
    requires Inv(s) && a < |s.acquirers| && s.acquirers[a].Loaded?
    ensures Inv(RequestStep(s, TryAcquire(a)))
  {
    hide Conserved, Kept, Staged, Gauged, Listed, Published, Tally;
    var h := s.acquirers[a].set_;
    var x := s.holders[h];
    assert Held1(x, h, s.leases);
    if x.refs <= 0 {
      hide Leased;
      assert Threads(s.holders, s.acquirers[a := Refused(h)]);
    } else {
      var after := s.leases + [Lease(h, Held)];
      forall k: nat | k < |s.holders| ensures Tally(after, On(k)) == Tally(s.leases, On(k)) + if k == h then 1 else 0 {
        TallySnoc(s.leases, Lease(h, Held), On(k));
      }
      LeasedChange(s.holders, s.leases, h, x.(refs := x.refs + 1), after);
      assert Threads(s.holders, s.acquirers[a := Returned]);
      hide Leased;
      RefsInv(s, h, x.refs + 1, after, s.acquirers[a := Returned]);
    }
  }

  /** A refused acquire finds another snapshot, or none, when it looks again. */
  lemma RecheckInv(s: State, a: nat)
    requires Inv(s) && a < |s.acquirers| && s.acquirers[a].Refused?
    ensures Inv(RequestStep(s, Recheck(a)))
  {
    hide Conserved, Kept, Leased, Staged, Gauged, Listed, Published;
    if s.active.Some? { ActiveStage(s.holders, s.active, s.phase); }
  }

  lemma WinReleaseInv(s: State, l: nat)
    requires Inv(s) && l < |s.leases| && s.leases[l].state.Held?
    ensures Inv(RequestStep(s, WinRelease(l)))
  {
    hide Conserved, Kept, Staged, Gauged, Listed, Published, Threads, Tally;
    var after := s.leases[l := s.leases[l].(state := Releasing)];
    forall h: nat | h < |s.holders| ensures Held1(s.holders[h], h, after) {
      assert Held1(s.holders[h], h, s.leases);
      TallyUpdate(s.leases, l, after[l], On(h));
    }
  }

  lemma FinishReleaseInv(s: State, l: nat)
    requires Inv(s) && l < |s.leases| && s.leases[l].state.Releasing?
    ensures Inv(RequestStep(s, FinishRelease(l)))
  {
    hide Conserved, Kept, Staged, Gauged, Listed, Published, Threads, Tally;
    var h := s.leases[l].set_;
    var x := s.holders[h];
    assert Held1(x, h, s.leases);
    TallyPositive(s.leases, l, On(h));
    var after := s.leases[l := s.leases[l].(state := Done)];
    forall k: nat | k < |s.holders| ensures Tally(after, On(k)) == Tally(s.leases, On(k)) + if k == h then -1 else 0 {
      TallyUpdate(s.leases, l, after[l], On(k));
    }
    LeasedChange(s.holders, s.leases, h, x.(refs := x.refs - 1), after);
    hide Leased;
    RefsInv(s, h, x.refs - 1, after, s.acquirers);
  }

  /** A lease that is not finished keeps its set alive. */
  lemma LeaseFacts(s: State, l: nat)
    requires Inv(s) && l < |s.leases| && !s.leases[l].state.Done?
    ensures var h := s.leases[l].set_; h < |s.holders| && IsSet(s.holders[h].stage) && s.holders[h].refs > 0
  {
    hide Tally;
    var h := s.leases[l].set_;
    assert Held1(s.holders[h], h, s.leases);
    TallyPositive(s.leases, l, On(h));
  }

  lemma ConservedTunnel(table: Table, holders: seq<Holder>, h: nat, r: nat)
    requires Conserved(table, holders) && h < |holders| && r < |holders[h].owned|
    ensures var ref := holders[h].owned[r];
            && Binds(table, ref)
            && Conserved(Acquire(table, ref.key).0, holders + [Holder(TunnelHeld, [ref], [ref], 0)])
  {
    hide Total, Counts;
    var ref := holders[h].owned[r];
    OwnedInTotal(holders, h, r);
    OwnedIsBound(table, Total(holders), ref);
    AcquireCounts(table, Total(holders), ref.key);
    TotalSnoc(holders, Holder(TunnelHeld, [ref], [ref], 0));
    assert multiset([ref]) == multiset{ref};
  }

  /** A set with an unfinished lease still owns everything it was built with. */
  lemma LeasedOwns(s: State, l: nat)
    requires Inv(s) && l < |s.leases| && !s.leases[l].state.Done?
    ensures var h := s.leases[l].set_; h < |s.holders| && s.holders[h].owned == s.holders[h].built
  {
    LeaseFacts(s, l);
    assert Kept1(s.holders[s.leases[l].set_]);
  }

  /** Opening a tunnel under a lease, with a transport captured in the leased set, is never refused. */
  lemma OpenTunnelInv(s: State, l: nat, r: nat)
    requires Inv(s) && l < |s.leases| && s.leases[l].state.Held?
    requires s.leases[l].set_ < |s.holders| && r < |s.holders[s.leases[l].set_].built|
    requires s.holders[s.leases[l].set_].built[r].key.Transport?
    ensures Binds(s.table, s.holders[s.leases[l].set_].built[r])
    ensures Inv(RequestStep(s, OpenTunnel(l, r)))
  {
    LeasedOwns(s, l);
    hide Conserved, Kept, Leased, Staged, Gauged, Listed, Published, Threads, Acquire;
    var h := s.leases[l].set_;
    var x := Holder(TunnelHeld, [s.holders[h].built[r]], [s.holders[h].built[r]], 0);
    ConservedTunnel(s.table, s.holders, h, r);
    KeptSnoc(s.holders, x);
    GaugedSnoc(s.holders, x, s.activeSets, s.liveTunnels);
    SnocKeeps(s.holders, s.leases, s.retired, s.acquirers, x);
    StagedSnoc(s.holders, s.active, s.phase, s.phase, x);
  }

  lemma WinTunnelReleaseInv(s: State, h: nat)
    requires Inv(s) && h < |s.holders| && s.holders[h].stage.TunnelHeld?
    ensures Inv(RequestStep(s, WinTunnelRelease(h)))
  {
    hide Tally, Total, Counts;
    var x := s.holders[h].(stage := TunnelReleasing);
    assert Held1(s.holders[h], h, s.leases);
    ConservedPut(s.table, s.holders, h, x);
    KeptPut(s.holders, h, x);
    LeasedPut(s.holders, s.leases, h, x);
    StagedKeep(s.holders, s.active, s.phase, h, x);
    GaugedPut(s.holders, h, x, s.activeSets, s.liveTunnels);
    ListedPut(s.holders, s.retired, h, x);
    ThreadsPut(s.holders, s.acquirers, h, x);
    hide Conserved, Kept, Leased, Staged, Gauged, Listed, Published, Threads;
  }

  lemma TunnelFacts(s: State, h: nat)
    requires Inv(s) && h < |s.holders| && LiveTunnel()(s.holders[h])
    ensures |s.holders[h].built| == 1 && s.holders[h].owned == s.holders[h].built && s.liveTunnels > 0
    ensures Binds(s.table, s.holders[h].built[0])
  {
    hide Tally, Total, Counts;
    assert Kept1(s.holders[h]);
    TallyPositive(s.holders, h, LiveTunnel());
    OwnedInTotal(s.holders, h, 0);
    OwnedIsBound(s.table, Total(s.holders), s.holders[h].owned[0]);
  }

  lemma FinishTunnelReleaseInv(s: State, h: nat)
    requires Inv(s) && h < |s.holders| && s.holders[h].stage.TunnelReleasing?
    ensures Inv(RequestStep(s, FinishTunnelRelease(h)))
  {
    hide Tally, Total, Counts;
    var x := s.holders[h].(stage := TunnelDone, owned := []);
    TunnelFacts(s, h);
    assert Held1(s.holders[h], h, s.leases);
    ConservedGiveUp(s.table, s.holders, h, x);
    KeptPut(s.holders, h, x);
    LeasedPut(s.holders, s.leases, h, x);
    StagedKeep(s.holders, s.active, s.phase, h, x);
    GaugedPut(s.holders, h, x, s.activeSets, s.liveTunnels);
    ListedPut(s.holders, s.retired, h, x);
    ThreadsPut(s.holders, s.acquirers, h, x);
    hide Conserved, Kept, Leased, Staged, Gauged, Listed, Published, Threads, ReleaseAll;
  }

  /** A set the reaper may finalize has dropped its owner reference. */
  lemma ReapFacts(s: State, i: nat)
    requires Inv(s) && i < |s.retired| && s.retired[i] < |s.holders| && s.holders[s.retired[i]].refs == 0
    ensures s.holders[s.retired[i]].stage == Dropped
  {
    assert Held1(s.holders[s.retired[i]], s.retired[i], s.leases);
  }

  lemma ReapInv(s: State, i: nat)
    requires Inv(s) && i < |s.retired| && s.retired[i] < |s.holders| && s.holders[s.retired[i]].refs == 0
    ensures Inv(ReapStep(s, i))
  {
    var h := s.retired[i];
    var x := s.holders[h].(stage := Finalized, owned := []);
    ReapFacts(s, i);
    assert Held1(s.holders[h], h, s.leases);
    ConservedGiveUp(s.table, s.holders, h, x);
    KeptPut(s.holders, h, x);
    LeasedPut(s.holders, s.leases, h, x);
    StagedKeep(s.holders, s.active, s.phase, h, x);
    GaugedPut(s.holders, h, x, s.activeSets, s.liveTunnels);
    ListedReap(s.holders, s.retired, i, x);
    ThreadsPut(s.holders, s.acquirers, h, x);
    hide Conserved, Kept, Leased, Staged, Gauged, Listed, Published, Threads, ReleaseAll;
  }

  lemma RequestStepInv(s: State, a: Action)
    requires Inv(s)
    ensures Inv(RequestStep(s, a))
  {
    hide Inv;
    match a
    case Load => LoadInv(s);
    case TryAcquire(a) => if a < |s.acquirers| && s.acquirers[a].Loaded? { TryAcquireInv(s, a); }
    case Recheck(a) => if a < |s.acquirers| && s.acquirers[a].Refused? { RecheckInv(s, a); }
    case WinRelease(l) => if l < |s.leases| && s.leases[l].state.Held? { WinReleaseInv(s, l); }
    case FinishRelease(l) => if l < |s.leases| && s.leases[l].state.Releasing? { FinishReleaseInv(s, l); }
    case OpenTunnel(l, r) =>
      if l < |s.leases| && s.leases[l].state.Held? && s.leases[l].set_ < |s.holders| &&
         r < |s.holders[s.leases[l].set_].built| && s.holders[s.leases[l].set_].built[r].key.Transport? {
        OpenTunnelInv(s, l, r);
      }
    case WinTunnelRelease(h) => if h < |s.holders| && s.holders[h].stage.TunnelHeld? { WinTunnelReleaseInv(s, h); }
    case FinishTunnelRelease(h) =>
      if h < |s.holders| && s.holders[h].stage.TunnelReleasing? { FinishTunnelReleaseInv(s, h); }
    case _ =>
  }

  lemma StepInv(s: State, a: Action)
    requires Inv(s)
    ensures Inv(Step(s, a))
  {
    hide ApplyStep, RequestStep, Conserved, Leased, Staged, Gauged, Listed, Published, Threads;
    if ApplyAction(a) {
      ApplyStepInv(s, a);
    } else if a.Reap? {
      if a.i < |s.retired| && s.retired[a.i] < |s.holders| && s.holders[s.retired[a.i]].refs == 0 { ReapInv(s, a.i); }
    } else {
      RequestStepInv(s, a);
    }
  }

  lemma InitInv(maxRetired: nat)
    ensures Inv(Init(maxRetired))
  {
  }

  lemma {:induction false} RunInv(maxRetired: nat, actions: seq<Action>)
    ensures Inv(Run(Init(maxRetired), actions))
  {
    hide Inv, Step;
    if actions == [] {
      InitInv(maxRetired);
    } else {
      RunInv(maxRetired, actions[..|actions| - 1]);
      StepInv(Run(Init(maxRetired), actions[..|actions| - 1]), actions[|actions| - 1]);
    }
  }
}
