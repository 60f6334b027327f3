/**
 Ownership of upgraded connections (internal/tunnel/registry.go).

 Each mutex section and each callback is one step.  The goroutine that ends a registration
 owes it one call of `finish`, which is a separate, later step.
 */
module TunnelRegistry {
  import opened Counting

  datatype Status = Pending | Active | Done

  /** What some goroutine still has to do for a registration outside the mutex. */
  datatype Debt = Nothing | ForceThenFinish | Finish(active: bool)

  /** `opens`, `closes` and `releases` count the callbacks made; `cleaned` is the once-flag of the cleanup. */
  datatype Registration = Registration(
    status: Status, listed: bool, debt: Debt, opening: bool, running: bool, marked: bool, forced: bool,
    cleaned: bool, opens: nat, closes: nat, releases: nat)

  datatype State = State(regs: seq<Registration>, admissionClosed: bool, wait: int, panicked: bool)

  datatype Action =
    | Register
    | CloseAdmission
    | Activate(i: nat)
    | NotifyOpened(i: nat)
    | SessionEnds(i: nat)
    | Rollback(i: nat)
    | DrainPass
    | ForceClose(i: nat)
    | RunFinish(i: nat)

  const FRESH := Registration(Pending, true, Nothing, false, false, false, false, false, 0, 0, 0)

  const INIT := State([], false, 0, false)

  // ----- steps

  /** What the deadline pass does to one registration while it holds the mutex. */
  function Drained(r: Registration): Registration {
    if !r.listed then r
    else match r.status
      case Pending => r.(status := Done, listed := false, debt := ForceThenFinish, marked := true)
      case Active => r.(marked := true)
      case Done => r
  }

  /** One step on one registration; it stays as it is when the step is not enabled. */
  function RegStep(r: Registration, a: Action): Registration {
    match a
    case Activate(_) => if r.status.Pending? then r.(status := Active, opening := true) else r
    case NotifyOpened(_) => if r.opening then r.(opening := false, running := true, opens := r.opens + 1) else r
    case SessionEnds(_) =>
      if !r.running then r
      else if r.status.Active? then r.(status := Done, listed := false, running := false, debt := Finish(true))
      else r.(running := false)
    case Rollback(_) => if r.status.Pending? then r.(status := Done, listed := false, debt := Finish(false)) else r
    case ForceClose(_) =>
      if !r.marked then r
      else r.(marked := false, forced := true, debt := if r.debt.ForceThenFinish? then Finish(false) else r.debt)
    case RunFinish(_) =>
      if !r.debt.Finish? then r
      else if r.cleaned then r.(debt := Nothing)
      else r.(debt := Nothing, cleaned := true, releases := r.releases + 1,
              closes := r.closes + if r.debt.active then 1 else 0)
    case _ => r
  }

  predicate OnOne(a: Action) {
    a.Activate? || a.NotifyOpened? || a.SessionEnds? || a.Rollback? || a.ForceClose? || a.RunFinish?
  }

  function Step(s: State, a: Action): State {
    if a.Register? then
      if s.admissionClosed then s else s.(regs := s.regs + [FRESH], wait := s.wait + 1)
    else if a.CloseAdmission? then s.(admissionClosed := true)
    else if a.DrainPass? then
      s.(regs := seq(|s.regs|, i requires 0 <= i < |s.regs| => Drained(s.regs[i])), admissionClosed := true)
    else if OnOne(a) && a.i < |s.regs| then
      var r := RegStep(s.regs[a.i], a);
      var finished := r.cleaned && !s.regs[a.i].cleaned;
      if finished && s.wait <= 0 then s.(panicked := true)
      else s.(regs := s.regs[a.i := r], wait := s.wait - if finished then 1 else 0)
    else s
  }

  function Run(s: State, actions: seq<Action>): State {
    if actions == [] then s
    else Step(Run(s, actions[..|actions| - 1]), actions[|actions| - 1])
  }

  // ----- the invariant

  /** The life of one registration: pending, then active or not, then finished once. */
  ghost predicate Sound(r: Registration) {
    && (r.listed <==> !r.status.Done?)
    && (r.cleaned <==> r.releases == 1) && r.releases <= 1
    && match r.status
       case Pending => r.debt.Nothing? && !r.opening && !r.running && !r.cleaned && r.opens == 0 && r.closes == 0
       case Active => r.debt.Nothing? && r.opening == !r.running && !r.cleaned && r.closes == 0
                      && r.opens == if r.running then 1 else 0
       case Done =>
         && !r.opening && !r.running
         && (r.debt.Nothing? <==> r.cleaned)
         && (r.debt.ForceThenFinish? ==> r.marked)
         && (if r.cleaned then r.closes == r.opens <= 1
             else r.closes == 0 && r.opens == if r.debt == Finish(true) then 1 else 0)
  }

  function Unfinished(): Registration -> bool { (r: Registration) => !r.cleaned }

  ghost predicate Inv(s: State) {
    && (forall i | 0 <= i < |s.regs| :: Sound(s.regs[i]))
    && s.wait == Tally(s.regs, Unfinished())
    && !s.panicked
  }

  lemma RegStepSound(r: Registration, a: Action)
    requires Sound(r)
    ensures Sound(RegStep(r, a)) && (r.cleaned ==> RegStep(r, a).cleaned)
    ensures RegStep(r, a).cleaned && !r.cleaned ==> a.RunFinish?
  {
  }

  lemma {:induction false} TallyMapped(s: seq<Registration>, t: seq<Registration>)
    requires |s| == |t| && forall i | 0 <= i < |s| :: s[i].cleaned == t[i].cleaned
    ensures Tally(s, Unfinished()) == Tally(t, Unfinished())
  {
    if s != [] { TallyMapped(s[..|s| - 1], t[..|t| - 1]); }
  }

  lemma StepInv(s: State, a: Action)
    requires Inv(s)
    ensures Inv(Step(s, a))
  {
    hide Tally, Sound;
    if a.Register? {
      assert Sound(FRESH) by { FreshSound(); }
      TallySnoc(s.regs, FRESH, Unfinished());
    } else if a.DrainPass? {
      forall i | 0 <= i < |s.regs| ensures Sound(Drained(s.regs[i])) { DrainedSound(s.regs[i]); }
      TallyMapped(s.regs, Step(s, a).regs);
    } else if OnOne(a) && a.i < |s.regs| {
      var r := RegStep(s.regs[a.i], a);
      RegStepSound(s.regs[a.i], a);
      TallyUpdate(s.regs, a.i, r, Unfinished());
      if !s.regs[a.i].cleaned { TallyPositive(s.regs, a.i, Unfinished()); }
    }
  }

  lemma FreshSound()
    ensures Sound(FRESH)
  {
  }

  lemma DrainedSound(r: Registration)
    requires Sound(r)
    ensures Sound(Drained(r)) && Drained(r).cleaned == r.cleaned
  {
  }

  lemma {:induction false} RunInv(actions: seq<Action>)
    ensures Inv(Run(INIT, actions))
  {
    hide Inv, Step;
    if actions == [] {
      InitInv();
    } else {
      RunInv(actions[..|actions| - 1]);
      StepInv(Run(INIT, actions[..|actions| - 1]), actions[|actions| - 1]);
    }
  }

  lemma InitInv()
    ensures Inv(INIT)
  {
  }

  // ----- theorems about every run

  /**
   Exactly once: the wait count is the number of unfinished registrations and never underflows; a registration
   is released at most once, exactly when it is finished; and one whose goroutines owe nothing more is finished.
   */
  lemma {:induction false} FinishedExactlyOnce(actions: seq<Action>)
    ensures var s := Run(INIT, actions);
            && !s.panicked && s.wait == Tally(s.regs, Unfinished())
            && forall i | 0 <= i < |s.regs| ::
                 && s.regs[i].releases == (if s.regs[i].cleaned then 1 else 0)
                 && (s.regs[i].status.Done? && s.regs[i].debt.Nothing? <==> s.regs[i].cleaned)
                 && (s.regs[i].listed <==> !s.regs[i].status.Done?)
  {
    hide Tally;
    RunInv(actions);
    var s := Run(INIT, actions);
    forall i | 0 <= i < |s.regs|
      ensures s.regs[i].releases == (if s.regs[i].cleaned then 1 else 0)
              && (s.regs[i].status.Done? && s.regs[i].debt.Nothing? <==> s.regs[i].cleaned)
              && (s.regs[i].listed <==> !s.regs[i].status.Done?)
    {
      assert Sound(s.regs[i]);
    }
  }

  /** A close is never reported before its open, nor twice, and a finished registration has both or neither. */
  lemma {:induction false} NotificationsPair(actions: seq<Action>, i: nat)
    requires i < |Run(INIT, actions).regs|
    ensures var r := Run(INIT, actions).regs[i];
            r.closes <= r.opens <= 1 && (r.cleaned ==> r.closes == r.opens) && (!r.cleaned ==> r.closes == 0)
  {
    hide Tally;
    RunInv(actions);
    assert Sound(Run(INIT, actions).regs[i]);
  }

  /** Once admission is closed no registration succeeds, so a wait count of zero is final. */
  lemma {:induction false} AdmissionStaysClosed(before: seq<Action>, after: seq<Action>)
    requires Run(INIT, before).admissionClosed
    ensures var s, u := Run(INIT, before), Run(INIT, before + after);
            u.admissionClosed && |u.regs| == |s.regs| && u.wait <= s.wait && (s.wait == 0 ==> u.wait == 0)
    decreases |after|
  {
    hide Inv;
    if after == [] {
      assert before + after == before;
    } else {
      var init := after[..|after| - 1];
      AdmissionStaysClosed(before, init);
      assert (before + after)[..|before + after| - 1] == before + init;
      RunInv(before + after);
      WaitIsNat(Run(INIT, before + after));
    }
  }

  lemma WaitIsNat(s: State)
    requires Inv(s)
    ensures s.wait >= 0
  {
  }

  /**
   What a drain that returns has achieved: once admission is closed and the wait count is zero, every registration
   has been released, exactly once, and none is left registered, for the rest of the run.
   */
  lemma {:induction false} DrainedMeansReleased(before: seq<Action>, after: seq<Action>, i: nat)
    requires Run(INIT, before).admissionClosed && Run(INIT, before).wait == 0
    requires i < |Run(INIT, before + after).regs|
    ensures i < |Run(INIT, before).regs|
    ensures var r := Run(INIT, before + after).regs[i]; r.cleaned && r.releases == 1 && !r.listed && r.closes == r.opens
  {
    AdmissionStaysClosed(before, after);
    RunInv(before + after);
    hide Run, Tally;
    var u := Run(INIT, before + after);
    assert Sound(u.regs[i]);
    if !u.regs[i].cleaned { TallyPositive(u.regs, i, Unfinished()); }
  }

  lemma MarkKept(s: State, a: Action, i: nat)
    requires i < |s.regs|
    ensures var u := Step(s, a);
            && i < |u.regs|
            && (s.regs[i].marked || s.regs[i].forced ==> u.regs[i].marked || u.regs[i].forced)
            && (!s.regs[i].status.Pending? ==> !u.regs[i].status.Pending?)
  {
  }

  /** A marked tunnel stays marked until it has been force-closed, whatever else happens. */
  lemma {:induction false} MarkedUntilForced(s: State, actions: seq<Action>, i: nat)
    requires i < |s.regs| && (s.regs[i].marked || s.regs[i].forced)
    ensures var u := Run(s, actions); i < |u.regs| && (u.regs[i].marked || u.regs[i].forced)
  {
    hide Step;
    if actions != [] {
      MarkedUntilForced(s, actions[..|actions| - 1], i);
      MarkKept(Run(s, actions[..|actions| - 1]), actions[|actions| - 1], i);
    }
  }

  /**
   After the deadline pass nothing is pending any more: what is still registered is an active tunnel
   due to be closed.
   */
  lemma {:induction false} NothingPendingAfterPass(before: seq<Action>, after: seq<Action>, i: nat)
    requires i < |Run(Step(Run(INIT, before), DrainPass), after).regs|
    ensures var u := Run(Step(Run(INIT, before), DrainPass), after);
            && |u.regs| == |Run(INIT, before).regs| && u.admissionClosed
            && !u.regs[i].status.Pending?
            && (Run(INIT, before).regs[i].listed ==> u.regs[i].marked || u.regs[i].forced)
  {
    hide Step;
    var s := Step(Run(INIT, before), DrainPass);
    PassFacts(Run(INIT, before));
    if after == [] {
      RunInv(before);
      PassMarks(Run(INIT, before), i);
    } else {
      SizeKept(s, after[..|after| - 1]);
      SizeKept(s, after);
      NothingPendingAfterPass(before, after[..|after| - 1], i);
      MarkKept(Run(s, after[..|after| - 1]), after[|after| - 1], i);
    }
  }

  lemma PassFacts(s: State)
    ensures Step(s, DrainPass).admissionClosed && |Step(s, DrainPass).regs| == |s.regs|
  {
  }

  lemma PassMarks(s: State, i: nat)
    requires Inv(s) && i < |s.regs|
    ensures var u := Step(s, DrainPass);
            i < |u.regs| && !u.regs[i].status.Pending? && (s.regs[i].listed ==> u.regs[i].marked)
  {
    hide Tally;
    assert Sound(s.regs[i]);
  }

  lemma {:induction false} SizeKept(s: State, actions: seq<Action>)
    requires s.admissionClosed
    ensures |Run(s, actions).regs| == |s.regs| && Run(s, actions).admissionClosed
  {
    if actions != [] { SizeKept(s, actions[..|actions| - 1]); }
  }

  // ----- what the steps achieve

  /** A registration is added exactly while admission is open, and starts out pending. */
  lemma RegisterMeaning(s: State)
    ensures var u := Step(s, Register);
            if s.admissionClosed then u == s
            else u.regs == s.regs + [FRESH] && u.wait == s.wait + 1 && u == s.(regs := u.regs, wait := u.wait)
  {
  }

  /** What an action makes of registration `i`, in a state that a run reaches. */
  lemma {:induction false} OnReg(actions: seq<Action>, a: Action, i: nat)
    requires OnOne(a) && a.i == i < |Run(INIT, actions).regs|
    ensures var s := Run(INIT, actions);
            Step(s, a).regs == s.regs[i := RegStep(s.regs[i], a)]
  {
    hide Tally, Sound;
    var s := Run(INIT, actions);
    RunInv(actions);
    RegStepCleans(s.regs[i], a);
    if !s.regs[i].cleaned { TallyPositive(s.regs, i, Unfinished()); }
  }

  lemma RegStepCleans(r: Registration, a: Action)
    ensures r.cleaned ==> RegStep(r, a).cleaned
  {
  }

  /** Only a pending registration can be activated or rolled back, and one of the two happens to it. */
  lemma {:induction false} PendingEnds(actions: seq<Action>, i: nat)
    requires i < |Run(INIT, actions).regs|
    ensures var s := Run(INIT, actions);
            var p := s.regs[i].status == Pending;
            && (Step(s, Activate(i)).regs[i].status == Active <==> p || s.regs[i].status == Active)
            && (p ==> Step(s, Rollback(i)).regs[i] ==
                      s.regs[i].(status := Done, listed := false, debt := Finish(false)))
            && (!p ==> Step(s, Activate(i)).regs[i] == s.regs[i] && Step(s, Rollback(i)).regs[i] == s.regs[i])
  {
    OnReg(actions, Activate(i), i);
    OnReg(actions, Rollback(i), i);
    hide Run, Step;
  }

  /** The steps of one registration, one after the other. */
  function Life(r: Registration, actions: seq<Action>): Registration {
    if actions == [] then r else RegStep(Life(r, actions[..|actions| - 1]), actions[|actions| - 1])
  }

  /** A run that only touches registration `i` takes it through those steps. */
  lemma {:induction false} LifeOf(before: seq<Action>, actions: seq<Action>, i: nat)
    requires i < |Run(INIT, before).regs| && forall a | a in actions :: OnOne(a) && a.i == i
    ensures var s, u := Run(INIT, before), Run(INIT, before + actions);
            u.regs == s.regs[i := Life(s.regs[i], actions)] && u.admissionClosed == s.admissionClosed
    decreases |actions|
  {
    if actions == [] {
      assert before + actions == before;
    } else {
      var init, last := actions[..|actions| - 1], actions[|actions| - 1];
      assert forall a | a in init :: a in actions;
      LifeOf(before, init, i);
      assert last in actions;
      assert (before + actions)[..|before + actions| - 1] == before + init;
      assert Run(INIT, before + actions) == Step(Run(INIT, before + init), last);
      OnReg(before + init, last, i);
      KeepsAdmission(Run(INIT, before + init), last);
    }
  }

  lemma KeepsAdmission(s: State, a: Action)
    requires OnOne(a)
    ensures Step(s, a).admissionClosed == s.admissionClosed
  {
  }

  lemma {:induction false} LifeTwo(r: Registration, a: Action, b: Action)
    ensures Life(r, [a, b]) == RegStep(RegStep(r, a), b)
  {
    assert [a, b][..1] == [a] && [a][..0] == [];
    assert Life(r, []) == r;
    assert Life(r, [a]) == RegStep(r, a);
  }

  lemma {:induction false} LifeFour(r: Registration, a: Action, b: Action, c: Action, d: Action)
    ensures Life(r, [a, b, c, d]) == RegStep(RegStep(RegStep(RegStep(r, a), b), c), d)
  {
    LifeThree(r, a, b, c);
    assert [a, b, c, d][..3] == [a, b, c];
  }

  /** A pending registration that is activated and runs is opened, closed and released, once each. */
  lemma {:induction false} ActivatedLife(before: seq<Action>, i: nat)
    requires i < |Run(INIT, before).regs| && Run(INIT, before).regs[i].status == Pending
    ensures var r := Run(INIT, before + [Activate(i), NotifyOpened(i), SessionEnds(i), RunFinish(i)]);
            i < |r.regs| && r.regs[i].cleaned && !r.regs[i].listed
            && r.regs[i].opens == 1 && r.regs[i].closes == 1 && r.regs[i].releases == 1
  {
    var actions := [Activate(i), NotifyOpened(i), SessionEnds(i), RunFinish(i)];
    RunInv(before);
    var r := Run(INIT, before).regs[i];
    assert Sound(r);
    LifeOf(before, actions, i);
    LifeFour(r, Activate(i), NotifyOpened(i), SessionEnds(i), RunFinish(i));
  }

  /** A pending registration that is rolled back is released once, without ever being opened. */
  lemma {:induction false} RolledBackLife(before: seq<Action>, i: nat)
    requires i < |Run(INIT, before).regs| && Run(INIT, before).regs[i].status == Pending
    ensures var r := Run(INIT, before + [Rollback(i), RunFinish(i)]);
            i < |r.regs| && r.regs[i].cleaned && !r.regs[i].listed
            && r.regs[i].opens == 0 && r.regs[i].closes == 0 && r.regs[i].releases == 1
  {
    RunInv(before);
    var r := Run(INIT, before).regs[i];
    assert Sound(r);
    LifeOf(before, [Rollback(i), RunFinish(i)], i);
    LifeTwo(r, Rollback(i), RunFinish(i));
  }

  lemma DrainedSteps(r: Registration, i: nat)
    requires Sound(r) && (r.status == Pending || r.running)
    ensures var u := RegStep(RegStep(RegStep(Drained(r), ForceClose(i)), SessionEnds(i)), RunFinish(i));
            u.cleaned && u.forced && u.releases == 1
  {
  }

  lemma {:induction false} LifeThree(r: Registration, a: Action, b: Action, c: Action)
    ensures Life(r, [a, b, c]) == RegStep(RegStep(RegStep(r, a), b), c)
  {
    LifeTwo(r, a, b);
    assert [a, b, c][..2] == [a, b];
  }

  lemma {:induction false} PassFirst(before: seq<Action>, i: nat)
    requires i < |Run(INIT, before).regs|
    ensures var u := Run(INIT, before + [DrainPass]);
            i < |u.regs| && u.regs[i] == Drained(Run(INIT, before).regs[i]) && u.admissionClosed
  {
    assert (before + [DrainPass])[..|before|] == before;
  }

  lemma {:induction false} SoundReached(before: seq<Action>, i: nat)
    requires i < |Run(INIT, before).regs|
    ensures Sound(Run(INIT, before).regs[i])
  {
    hide Tally;
    RunInv(before);
  }

  /** What the deadline pass starts can be finished: what was pending at once, what runs by ending its session. */
  lemma {:induction false} DrainedLife(before: seq<Action>, i: nat)
    requires i < |Run(INIT, before).regs|
    requires var r := Run(INIT, before).regs[i]; r.status == Pending || r.running
    ensures var passed := before + [DrainPass];
            var r := Run(INIT, passed + [ForceClose(i), SessionEnds(i), RunFinish(i)]);
            i < |r.regs| && r.admissionClosed && r.regs[i].cleaned && r.regs[i].forced && r.regs[i].releases == 1
  {
    hide *;
    var r := Run(INIT, before).regs[i];
    SoundReached(before, i);
    PassFirst(before, i);
    AreOn(i);
    LifeOf(before + [DrainPass], [ForceClose(i), SessionEnds(i), RunFinish(i)], i);
    LifeThree(Drained(r), ForceClose(i), SessionEnds(i), RunFinish(i));
    DrainedSteps(r, i);
  }

  lemma AreOn(i: nat)
    ensures OnOne(ForceClose(i)) && OnOne(SessionEnds(i)) && OnOne(RunFinish(i))
  {
  }
}
