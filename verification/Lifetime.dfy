/**
 The lifetime of published snapshots and of the resources behind them
 (internal/runtime/manager.go; internal/upstream/registry.go, plan.go and reaper.go).

 Every successful compare-and-swap, every pointer swap or load and every mutex section is
 one step.  A holder is a candidate, then perhaps a plan set, or a tunnel lease: whatever
 owns references.  A step whose code would panic or give up records a fault.
 */
module Lifetime {
  import opened Wrappers
  import opened Counting
  import opened ResourceTable

  datatype Stage =
    | Open          // candidate, neither committed nor rolled back
    | Undoing       // rollback has won the candidate, before it releases the references
    | Committing    // commit has won the candidate, before it counts the plan set
    | Active        // plan set whose owner reference is in place
    | Retiring      // retire has won the set, before it is registered
    | Registered    // on the retired list, before the owner reference is dropped
    | Dropped       // on the retired list, owner reference dropped
    | Finalized     // reaped
    | RolledBack
    | TunnelHeld
    | TunnelReleasing
    | TunnelDone

  /** `built` records the references the holder was created with and never changes; `owned` is what it still owns. */
  datatype Holder = Holder(stage: Stage, built: seq<Ref>, owned: seq<Ref>, refs: int)

  datatype LeaseState = Held | Releasing | Done

  datatype Lease = Lease(set_: nat, state: LeaseState)

  /** A goroutine inside the manager's acquire loop. */
  datatype Acquirer = Loaded(set_: nat) | Refused(set_: nat) | Returned

  datatype Snapshot = Snapshot(revision: nat, set_: nat)

  /** Where the goroutine that holds the apply mutex is. */
  datatype Phase =
    | Idle
    | Checked(revision: nat)
    | Prepared(revision: nat, h: nat)
    | Undo(h: nat)
    | Commit(revision: nat, h: nat)
    | Publish(revision: nat, h: nat)
    | Retire(h: nat)
    | Register(h: nat)
    | DropOwner(h: nat)

  datatype Fault = NoFault | Panic | TransferFailed | BailedOut | TunnelRefused

  datatype State = State(
    table: Table, holders: seq<Holder>, leases: seq<Lease>, acquirers: seq<Acquirer>,
    activeSets: int, liveTunnels: int, retired: seq<nat>, registryClosed: bool, maxRetired: nat,
    active: Option<Snapshot>, closed: bool, phase: Phase, history: seq<nat>, fault: Fault)

  datatype Action =
    | StartApply(revision: nat)
    | Prepare(keys: seq<Key>, fails: bool)
    | BuildFails
    | FinishRollback
    | WinCommit
    | FinishCommit
    | Swap
    | WinRetire
    | RegisterRetired
    | ReleaseOwner
    | Close
    | CloseRegistry
    | Load
    | TryAcquire(a: nat)
    | Recheck(a: nat)
    | WinRelease(l: nat)
    | FinishRelease(l: nat)
    | OpenTunnel(l: nat, r: nat)
    | WinTunnelRelease(h: nat)
    | FinishTunnelRelease(h: nat)
    | Reap(i: nat)

  function Init(maxRetired: nat): State {
    State(Table(map[], 0), [], [], [], 0, 0, [], false, maxRetired, None, false, Idle, [], NoFault)
  }

  // ----- steps

  function Put(s: State, h: nat, x: Holder): State
    requires h < |s.holders|
  {
    s.(holders := s.holders[h := x])
  }

  function SetStage(s: State, h: nat, stage: Stage): State
    requires h < |s.holders|
  {
    Put(s, h, s.holders[h].(stage := stage))
  }

  /** The references of holder `h` go back to the registry. */
  function GiveUp(s: State, h: nat, stage: Stage): State
    requires h < |s.holders|
  {
    match ReleaseAll(s.table, s.holders[h].owned)
    case None => s.(fault := Panic)
    case Some(t) => Put(s.(table := t), h, s.holders[h].(stage := stage, owned := []))
  }

  function NextPhase(previous: Option<Snapshot>): Phase {
    match previous
    case Some(x) => Retire(x.set_)
    case None => Idle
  }

  /** The steps of the goroutine that holds the apply mutex. */
  function ApplyStep(s: State, a: Action): State {
    match (a, s.phase)
    case (StartApply(revision), Idle) =>
      if s.closed || (s.active.Some? && revision <= s.active.value.revision) then s
      else s.(phase := Checked(revision))
    case (Prepare(keys, fails), Checked(revision)) =>
      if s.registryClosed || |s.retired| >= s.maxRetired then s.(phase := Idle)
      else
        var (t, refs) := AcquireAll(s.table, keys);
        if fails then
          match ReleaseAll(t, refs)
          case None => s.(fault := Panic)
          case Some(u) => s.(table := u, phase := Idle)
        else
          s.(table := t, holders := s.holders + [Holder(Open, refs, refs, 0)], phase := Prepared(revision, |s.holders|))
    case (BuildFails, Prepared(_, h)) =>
      if h >= |s.holders| || s.holders[h].stage != Open then s else SetStage(s, h, Undoing).(phase := Undo(h))
    case (FinishRollback, Undo(h)) =>
      if h >= |s.holders| then s else GiveUp(s, h, RolledBack).(phase := Idle)
    case (WinCommit, Prepared(revision, h)) =>
      if h >= |s.holders| || s.holders[h].stage != Open then s.(fault := TransferFailed)
      else SetStage(s, h, Committing).(phase := Commit(revision, h))
    case (FinishCommit, Commit(revision, h)) =>
      if h >= |s.holders| then s
      else Put(s, h, s.holders[h].(stage := Active, refs := 1)).(
             activeSets := s.activeSets + 1, phase := Publish(revision, h))
    case (Swap, Publish(revision, h)) =>
      s.(active := Some(Snapshot(revision, h)), history := s.history + [revision], phase := NextPhase(s.active))
    case (WinRetire, Retire(h)) =>
      if h >= |s.holders| || s.holders[h].stage != Active then s.(phase := Idle)
      else SetStage(s, h, Retiring).(phase := Register(h))
    case (RegisterRetired, Register(h)) =>
      if h >= |s.holders| then s
      else if s.activeSets <= 0 then s.(fault := Panic)
      else SetStage(s, h, Registered).(
             activeSets := s.activeSets - 1, retired := s.retired + [h], phase := DropOwner(h))
    case (ReleaseOwner, DropOwner(h)) =>
      if h >= |s.holders| then s
      else if s.holders[h].refs <= 0 then s.(fault := Panic)
      else Put(s, h, s.holders[h].(stage := Dropped, refs := s.holders[h].refs - 1)).(phase := Idle)
    case (Close, Idle) => s.(closed := true, active := None, phase := NextPhase(s.active))
    case _ => s
  }

  /** The table still maps the key of a captured reference to the runtime it was captured with. */
  predicate Binds(t: Table, ref: Ref) {
    ref.key in t.entries && t.entries[ref.key].runtime == ref.runtime && t.entries[ref.key].refs > 0
  }

  /** The steps of requests, and of the tunnels they open with the references captured in their plan set. */
  function RequestStep(s: State, a: Action): State {
    match a
    case Load =>
      if s.active.None? then s
      else s.(acquirers := s.acquirers + [Loaded(s.active.value.set_)])
    case TryAcquire(a) =>
      if a >= |s.acquirers| || !s.acquirers[a].Loaded? || s.acquirers[a].set_ >= |s.holders| then s
      else
        var h := s.acquirers[a].set_;
        var x := s.holders[h];
        if x.refs <= 0 then s.(acquirers := s.acquirers[a := Refused(h)])
        else Put(s, h, x.(refs := x.refs + 1)).(
               acquirers := s.acquirers[a := Returned], leases := s.leases + [Lease(h, Held)])
    case Recheck(a) =>
      if a >= |s.acquirers| || !s.acquirers[a].Refused? then s
      else if s.active.Some? && s.active.value.set_ == s.acquirers[a].set_ then s.(fault := BailedOut)
      else s.(acquirers := s.acquirers[a := Returned])
    case WinRelease(l) =>
      if l >= |s.leases| || !s.leases[l].state.Held? then s
      else s.(leases := s.leases[l := s.leases[l].(state := Releasing)])
    case FinishRelease(l) =>
      if l >= |s.leases| || !s.leases[l].state.Releasing? || s.leases[l].set_ >= |s.holders| then s
      else
        var h := s.leases[l].set_;
        var x := s.holders[h];
        if x.refs <= 0 then s.(fault := Panic)
        else Put(s, h, x.(refs := x.refs - 1)).(leases := s.leases[l := s.leases[l].(state := Done)])
    case OpenTunnel(l, r) =>
      if l >= |s.leases| || !s.leases[l].state.Held? || s.leases[l].set_ >= |s.holders| then s
      else
        var built := s.holders[s.leases[l].set_].built;
        if r >= |built| || !built[r].key.Transport? then s
        else if !Binds(s.table, built[r]) then s.(fault := TunnelRefused)
        else s.(table := Acquire(s.table, built[r].key).0, liveTunnels := s.liveTunnels + 1,
                holders := s.holders + [Holder(TunnelHeld, [built[r]], [built[r]], 0)])
    case WinTunnelRelease(h) =>
      if h >= |s.holders| || s.holders[h].stage != TunnelHeld then s else SetStage(s, h, TunnelReleasing)
    case FinishTunnelRelease(h) =>
      if h >= |s.holders| || s.holders[h].stage != TunnelReleasing || |s.holders[h].built| != 1 then s
      else if !Binds(s.table, s.holders[h].built[0]) || s.liveTunnels <= 0 then s.(fault := Panic)
      else GiveUp(s, h, TunnelDone).(liveTunnels := s.liveTunnels - 1)
    case _ => s
  }

  /** The reaper finalizes one registered set whose count it has read as zero. */
  function ReapStep(s: State, i: nat): State {
    if i >= |s.retired| || s.retired[i] >= |s.holders| || s.holders[s.retired[i]].refs != 0 then s
    else GiveUp(s.(retired := Drop(s.retired, i)), s.retired[i], Finalized)
  }

  predicate ApplyAction(a: Action) {
    || a.StartApply? || a.Prepare? || a.BuildFails? || a.FinishRollback? || a.WinCommit? || a.FinishCommit? || a.Swap?
    || a.WinRetire? || a.RegisterRetired? || a.ReleaseOwner? || a.Close?
  }

  function Step(s: State, a: Action): State {
    if s.fault != NoFault then s
    else if ApplyAction(a) then ApplyStep(s, a)
    else if a.CloseRegistry? then s.(registryClosed := true)
    else if a.Reap? then ReapStep(s, a.i)
    else RequestStep(s, a)
  }

  function Run(s: State, actions: seq<Action>): State {
    if actions == [] then s
    else Step(Run(s, actions[..|actions| - 1]), actions[|actions| - 1])
  }

  // ----- what every state satisfies

  /** Everything owned by anybody. */
  function Total(holders: seq<Holder>): multiset<Ref> {
    if holders == [] then multiset{}
    else Total(holders[..|holders| - 1]) + multiset(holders[|holders| - 1].owned)
  }

  /** Reference conservation. */
  ghost predicate Conserved(table: Table, holders: seq<Holder>) {
    Counts(table, Total(holders))
  }

  /** Stages in which a holder has given back what it was created with. */
  predicate Ended(stage: Stage) {
    stage.Finalized? || stage.RolledBack? || stage.TunnelDone?
  }

  predicate Kept1(x: Holder) {
    x.owned == if Ended(x.stage) then [] else x.built
  }

  /** A holder owns exactly what it was created with until it has ended, and nothing from then on. */
  ghost predicate Kept(holders: seq<Holder>) {
    forall h: nat | h < |holders| :: Kept1(holders[h])
  }

  predicate IsSet(stage: Stage) {
    stage.Active? || stage.Retiring? || stage.Registered? || stage.Dropped?
  }

  function OwnerRef(stage: Stage): nat {
    if stage.Active? || stage.Retiring? || stage.Registered? then 1 else 0
  }

  function On(h: nat): Lease -> bool { (l: Lease) => l.set_ == h && !l.state.Done? }

  /** The count of a set is its owner reference plus its unfinished leases. */
  ghost predicate Held1(x: Holder, h: nat, leases: seq<Lease>) {
    x.refs == OwnerRef(x.stage) + Tally(leases, On(h)) && (!IsSet(x.stage) ==> x.refs == 0)
  }

  ghost predicate Leased(holders: seq<Holder>, leases: seq<Lease>) {
    && (forall h: nat | h < |holders| :: Held1(holders[h], h, leases))
    && (forall l | 0 <= l < |leases| :: leases[l].set_ < |holders|)
  }

  /** The holder the apply goroutine works on, and the stage it must be in. */
  function Target(p: Phase): Option<(nat, Stage)> {
    match p
    case Prepared(_, h) => Some((h, Open))
    case Undo(h) => Some((h, Undoing))
    case Commit(_, h) => Some((h, Committing))
    case Publish(_, h) => Some((h, Active))
    case Retire(h) => Some((h, Active))
    case Register(h) => Some((h, Retiring))
    case DropOwner(h) => Some((h, Registered))
    case _ => None
  }

  predicate Settled(stage: Stage) {
    || stage.Dropped? || stage.Finalized? || stage.RolledBack?
    || stage.TunnelHeld? || stage.TunnelReleasing? || stage.TunnelDone?
  }

  predicate Fits(stage: Stage, h: nat, active: Option<Snapshot>, phase: Phase) {
    if Target(phase).Some? && Target(phase).value.0 == h then
      stage == Target(phase).value.1 && !(active.Some? && active.value.set_ == h)
    else if active.Some? && active.value.set_ == h then stage == Active
    else Settled(stage)
  }

  /** Only the published set and the holder in the apply goroutine's hands are between stages. */
  ghost predicate Staged(holders: seq<Holder>, active: Option<Snapshot>, phase: Phase) {
    && (forall h: nat | h < |holders| :: Fits(holders[h].stage, h, active, phase))
    && (Target(phase).Some? ==> Target(phase).value.0 < |holders|)
    && (active.Some? ==> active.value.set_ < |holders|)
  }

  function CountsAsActive(): Holder -> bool { (x: Holder) => x.stage.Active? || x.stage.Retiring? }

  function LiveTunnel(): Holder -> bool { (x: Holder) => x.stage.TunnelHeld? || x.stage.TunnelReleasing? }

  predicate OnList(stage: Stage) { stage.Registered? || stage.Dropped? }

  /** The gauges, and the retired list: the registered sets that are not finalized, once each. */
  ghost predicate Gauged(holders: seq<Holder>, activeSets: int, liveTunnels: int) {
    && activeSets == Tally(holders, CountsAsActive())
    && liveTunnels == Tally(holders, LiveTunnel())
    && (forall h: nat | h < |holders| && LiveTunnel()(holders[h]) ::
          |holders[h].built| == 1 && holders[h].built[0].key.Transport?)
  }

  ghost predicate Listed(holders: seq<Holder>, retired: seq<nat>) {
    && (forall i | 0 <= i < |retired| :: retired[i] < |holders| && OnList(holders[retired[i]].stage))
    && (forall h: nat | h < |holders| && OnList(holders[h].stage) :: h in retired)
    && (forall i, j | 0 <= i < j < |retired| :: retired[i] != retired[j])
  }

  ghost predicate Increasing(s: seq<nat>) {
    forall i, j | 0 <= i < j < |s| :: s[i] < s[j]
  }

  predicate Above(revision: nat, history: seq<nat>) {
    history == [] || history[|history| - 1] < revision
  }

  /** The phases of an apply that has not published yet. */
  predicate Carries(p: Phase) { p.Checked? || p.Prepared? || p.Commit? || p.Publish? }

  /** The last published revision is the active one, and the revision being applied is above it. */
  ghost predicate Published(active: Option<Snapshot>, closed: bool, phase: Phase, history: seq<nat>) {
    && Increasing(history)
    && (active.Some? ==> !closed && history != [] && history[|history| - 1] == active.value.revision)
    && (active.None? ==> closed || history == [])
    && (Carries(phase) ==> !closed && Above(phase.revision, history))
  }

  /** Room is kept for the set that the current apply will retire; close may go one beyond. */
  predicate Limited(n: nat, maxRetired: nat, closed: bool, phase: Phase) {
    n + (if phase.Prepared? || phase.Commit? || phase.Publish? || phase.Retire? || phase.Register? then 1 else 0)
    <= maxRetired + if closed then 1 else 0
  }

  /** A count that has reached zero: reaped, or about to be. */
  predicate Dead(x: Holder) {
    x.stage.Finalized? || (x.stage.Dropped? && x.refs == 0)
  }

  ghost predicate Threads(holders: seq<Holder>, acquirers: seq<Acquirer>) {
    forall a | 0 <= a < |acquirers| && !acquirers[a].Returned? ::
      && acquirers[a].set_ < |holders|
      && (IsSet(holders[acquirers[a].set_].stage) || holders[acquirers[a].set_].stage.Finalized?)
      && (acquirers[a].Refused? ==> Dead(holders[acquirers[a].set_]))
  }

  ghost predicate Inv(s: State) {
    && Conserved(s.table, s.holders)
    && Kept(s.holders)
    && Leased(s.holders, s.leases)
    && Staged(s.holders, s.active, s.phase)
    && Gauged(s.holders, s.activeSets, s.liveTunnels)
    && Listed(s.holders, s.retired)
    && Published(s.active, s.closed, s.phase, s.history)
    && Limited(|s.retired|, s.maxRetired, s.closed, s.phase)
    && Threads(s.holders, s.acquirers)
    && s.fault == NoFault
  }
}
