/**
 The active-health scheduler (internal/upstream/health_scheduler.go).

 A probe work item is a token.  It moves between the time-ordered heap, the ready
 queue and the goroutines that are handling it.  Each check of a flag, each mutex
 section and each channel operation is one step of one goroutine.
 */
module ProbeScheduler {
  import opened Counting

  /** A registration; `probed` says that its policy type is one of the two that have a prober. */
  datatype Registration = Registration(activated: bool, retired: bool, probed: bool)

  datatype Item = Item(due: int, sequence: nat, reg: nat)

  /** What a goroutine is about to do for registration `reg`. */
  datatype Hand =
    | Activating(reg: nat)   // checks passed, before the compare-and-swap
    | Scheduling(reg: nat)   // entering schedule, before its flag checks
    | Pushing(reg: nat)      // flag checks passed, before the push
    | Popped(reg: nat)       // popped by the scheduler, before the retired check
    | Sending(reg: nat)      // before the non-blocking send
    | Processing(reg: nat)   // received by a worker, before its checks
    | Probing(reg: nat)      // probing
    | Returned(reg: nat)     // probe returned or panicked, before the last checks

  datatype State = State(
    regs: seq<Registration>, heap: seq<Item>, ready: seq<nat>, hands: seq<Hand>,
    capacity: nat, sequence: nat, stopped: bool)

  datatype Action =
    | Register(probed: bool)
    | CallActivate(reg: nat)
    | Retire(reg: nat)
    | Stop
    | DiscardHead(i: nat)
    | PopDue(i: nat, now: int)
    | Receive
    | Go(h: nat, due: int)

  function Init(capacity: nat): State {
    State([], [], [], [], capacity, 0, false)
  }

  // ----- steps

  predicate Precedes(a: Item, b: Item) {
    a.due < b.due || (a.due == b.due && a.sequence < b.sequence)
  }

  /** The head of the heap: no item is ordered before it. */
  predicate IsHead(heap: seq<Item>, i: nat) {
    i < |heap| && forall j | 0 <= j < |heap| :: !Precedes(heap[j], heap[i])
  }

  function Step(s: State, a: Action): State {
    match a
    case Register(probed) => s.(regs := s.regs + [Registration(false, false, probed)])
    case CallActivate(r) =>
      if r < |s.regs| && !s.regs[r].retired && !s.stopped then s.(hands := s.hands + [Activating(r)]) else s
    case Retire(r) => if r < |s.regs| then s.(regs := s.regs[r := s.regs[r].(retired := true)]) else s
    case Stop => s.(stopped := true)
    case DiscardHead(i) =>
      if IsHead(s.heap, i) && s.heap[i].reg < |s.regs| && s.regs[s.heap[i].reg].retired
      then s.(heap := Drop(s.heap, i)) else s
    case PopDue(i, now) =>
      if IsHead(s.heap, i) && s.heap[i].due <= now
      then s.(heap := Drop(s.heap, i), hands := s.hands + [Popped(s.heap[i].reg)]) else s
    case Receive =>
      if s.ready != [] then s.(ready := Drop(s.ready, 0), hands := s.hands + [Processing(s.ready[0])]) else s
    case Go(h, due) =>
      if h < |s.hands| && s.hands[h].reg < |s.regs| then Advance(s, h, due) else s
  }

  function Move(s: State, h: nat, to: Hand): State
    requires h < |s.hands|
  {
    s.(hands := s.hands[h := to])
  }

  function Leave(s: State, h: nat): State
    requires h < |s.hands|
  {
    s.(hands := Drop(s.hands, h))
  }

  /** One goroutine takes its next step. */
  function Advance(s: State, h: nat, due: int): State
    requires h < |s.hands| && s.hands[h].reg < |s.regs|
  {
    var r := s.hands[h].reg;
    var reg := s.regs[r];
    match s.hands[h]
    case Activating(_) =>
      if reg.activated then Leave(s, h)
      else Move(s.(regs := s.regs[r := reg.(activated := true)]), h, Scheduling(r))
    case Scheduling(_) => if s.stopped || reg.retired then Leave(s, h) else Move(s, h, Pushing(r))
    case Pushing(_) => Leave(s.(heap := s.heap + [Item(due, s.sequence + 1, r)], sequence := s.sequence + 1), h)
    case Popped(_) => if reg.retired then Leave(s, h) else Move(s, h, Sending(r))
    case Sending(_) =>
      if |s.ready| < s.capacity then Leave(s.(ready := s.ready + [r]), h) else Move(s, h, Scheduling(r))
    case Processing(_) =>
      if reg.retired || s.stopped || !reg.probed then Leave(s, h) else Move(s, h, Probing(r))
    case Probing(_) => Move(s, h, Returned(r))
    case Returned(_) => if s.stopped || reg.retired then Leave(s, h) else Move(s, h, Scheduling(r))
  }

  function Run(s: State, actions: seq<Action>): State {
    if actions == [] then s
    else Step(Run(s, actions[..|actions| - 1]), actions[|actions| - 1])
  }

  // ----- tokens

  predicate HandToken(h: Hand, r: nat) { h.reg == r && !h.Activating? }

  function InHeap(r: nat): Item -> bool { (x: Item) => x.reg == r }

  function InQueue(r: nat): nat -> bool { (x: nat) => x == r }

  function InHands(r: nat): Hand -> bool { (x: Hand) => HandToken(x, r) }

  /** The work items of registration `r`, wherever they are. */
  function Tokens(s: State, r: nat): nat {
    Tally(s.heap, InHeap(r)) + Tally(s.ready, InQueue(r)) + Tally(s.hands, InHands(r))
  }

  /** Activated, not retired, of a probed type: such a registration must keep its token. */
  predicate MustProbe(s: State, reg: Registration) {
    reg.activated && !reg.retired && reg.probed && !s.stopped
  }

  ghost predicate RegInv(s: State, r: nat)
    requires r < |s.regs|
  {
    && Tokens(s, r) <= (if s.regs[r].activated then 1 else 0)
    && (MustProbe(s, s.regs[r]) ==> Tokens(s, r) == 1)
  }

  /** Every item names a registration, and every registration has the right number of tokens. */
  ghost predicate Inv(s: State) {
    && (forall i | 0 <= i < |s.heap| :: s.heap[i].reg < |s.regs|)
    && (forall i | 0 <= i < |s.ready| :: s.ready[i] < |s.regs|)
    && (forall i | 0 <= i < |s.hands| :: s.hands[i].reg < |s.regs|)
    && (forall r | 0 <= r < |s.regs| :: RegInv(s, r))
    && |s.ready| <= s.capacity
  }

  lemma InitInv(capacity: nat)
    ensures Inv(Init(capacity))
  {
  }

  /** A new registration has no items yet. */
  lemma UnknownHasNone(s: State, r: nat)
    requires Inv(s) && r >= |s.regs|
    ensures Tokens(s, r) == 0
  {
    hide Tally;
    forall x | x in s.heap ensures !InHeap(r)(x) {}
    forall x | x in s.ready ensures !InQueue(r)(x) {}
    forall x | x in s.hands ensures !InHands(r)(x) {}
    TallyNone(s.heap, InHeap(r));
    TallyNone(s.ready, InQueue(r));
    TallyNone(s.hands, InHands(r));
  }

  /** Items move but their number stays: nothing else needs to be checked. */
  lemma TokensKept(s: State, u: State)
    requires Inv(s) && u.regs == s.regs && u.stopped == s.stopped && u.capacity == s.capacity && |u.ready| <= u.capacity
    requires (forall i | 0 <= i < |u.heap| :: u.heap[i].reg < |u.regs|)
    requires (forall i | 0 <= i < |u.ready| :: u.ready[i] < |u.regs|)
    requires (forall i | 0 <= i < |u.hands| :: u.hands[i].reg < |u.regs|)
    requires forall r | 0 <= r < |s.regs| :: Tokens(u, r) == Tokens(s, r)
    ensures Inv(u)
  {
    hide Tally, Tokens;
    forall r | 0 <= r < |u.regs| ensures RegInv(u, r) { assert RegInv(s, r); }
  }

  /** The item of one registration is dropped, which is allowed once it need not be probed. */
  lemma TokenDropped(s: State, u: State, d: nat)
    requires Inv(s) && u.regs == s.regs && u.stopped == s.stopped && u.capacity == s.capacity && |u.ready| <= u.capacity
    requires (forall i | 0 <= i < |u.heap| :: u.heap[i].reg < |u.regs|)
    requires (forall i | 0 <= i < |u.ready| :: u.ready[i] < |u.regs|)
    requires (forall i | 0 <= i < |u.hands| :: u.hands[i].reg < |u.regs|)
    requires d < |s.regs| && !MustProbe(s, s.regs[d])
    requires forall r | 0 <= r < |s.regs| :: Tokens(u, r) == Tokens(s, r) - (if r == d then 1 else 0)
    ensures Inv(u)
  {
    hide Tally, Tokens;
    forall r | 0 <= r < |u.regs| ensures RegInv(u, r) { assert RegInv(s, r); }
  }

  // ----- every step keeps the invariant

  lemma MoveInv(s: State, h: nat, to: Hand)
    requires Inv(s) && h < |s.hands| && to.reg == s.hands[h].reg && !to.Activating? && !s.hands[h].Activating?
    ensures Inv(Move(s, h, to))
  {
    hide Tally;
    forall r | 0 <= r < |s.regs| ensures Tokens(Move(s, h, to), r) == Tokens(s, r) {
      TallyUpdate(s.hands, h, to, InHands(r));
    }
    TokensKept(s, Move(s, h, to));
  }

  lemma DropInv(s: State, h: nat)
    requires Inv(s) && h < |s.hands|
    requires s.hands[h].Activating? || !MustProbe(s, s.regs[s.hands[h].reg])
    ensures Inv(Leave(s, h))
  {
    hide Tally;
    var d, u := s.hands[h].reg, Leave(s, h);
    forall r | 0 <= r < |s.regs|
      ensures Tokens(u, r) == Tokens(s, r) - (if r == d && !s.hands[h].Activating? then 1 else 0)
    {
      TallyDrop(s.hands, h, InHands(r));
    }
    if s.hands[h].Activating? { TokensKept(s, u); } else { TokenDropped(s, u, d); }
  }

  lemma ActivateInv(s: State, h: nat)
    requires Inv(s) && h < |s.hands| && s.hands[h].Activating? && !s.regs[s.hands[h].reg].activated
    ensures Inv(Advance(s, h, 0))
  {
    hide Tally;
    var d, u := s.hands[h].reg, Advance(s, h, 0);
    forall r | 0 <= r < |s.regs| ensures RegInv(u, r) {
      assert RegInv(s, r);
      TallyUpdate(s.hands, h, Scheduling(d), InHands(r));
    }
  }

  lemma PushInv(s: State, h: nat, due: int)
    requires Inv(s) && h < |s.hands| && s.hands[h].Pushing?
    ensures Inv(Advance(s, h, due))
  {
    hide Tally;
    var d, u := s.hands[h].reg, Advance(s, h, due);
    forall r | 0 <= r < |s.regs| ensures Tokens(u, r) == Tokens(s, r) {
      TallyDrop(s.hands, h, InHands(r));
      TallySnoc(s.heap, Item(due, s.sequence + 1, d), InHeap(r));
    }
    TokensKept(s, u);
  }

  lemma SendInv(s: State, h: nat)
    requires Inv(s) && h < |s.hands| && s.hands[h].Sending? && |s.ready| < s.capacity
    ensures Inv(Advance(s, h, 0))
  {
    hide Tally;
    var d, u := s.hands[h].reg, Advance(s, h, 0);
    forall r | 0 <= r < |s.regs| ensures Tokens(u, r) == Tokens(s, r) {
      TallyDrop(s.hands, h, InHands(r));
      TallySnoc(s.ready, d, InQueue(r));
    }
    TokensKept(s, u);
  }

  lemma PopInv(s: State, i: nat)
    requires Inv(s) && i < |s.heap|
    ensures Inv(s.(heap := Drop(s.heap, i), hands := s.hands + [Popped(s.heap[i].reg)]))
  {
    hide Tally;
    var u := s.(heap := Drop(s.heap, i), hands := s.hands + [Popped(s.heap[i].reg)]);
    forall r | 0 <= r < |s.regs| ensures Tokens(u, r) == Tokens(s, r) {
      TallyDrop(s.heap, i, InHeap(r));
      TallySnoc(s.hands, Popped(s.heap[i].reg), InHands(r));
    }
    TokensKept(s, u);
  }

  lemma DiscardInv(s: State, i: nat)
    requires Inv(s) && i < |s.heap| && s.regs[s.heap[i].reg].retired
    ensures Inv(s.(heap := Drop(s.heap, i)))
  {
    hide Tally;
    var u, d := s.(heap := Drop(s.heap, i)), s.heap[i].reg;
    forall r | 0 <= r < |s.regs| ensures Tokens(u, r) == Tokens(s, r) - (if r == d then 1 else 0) {
      TallyDrop(s.heap, i, InHeap(r));
    }
    TokenDropped(s, u, d);
  }

  lemma ReceiveInv(s: State)
    requires Inv(s) && s.ready != []
    ensures Inv(Step(s, Receive))
  {
    hide Tally;
    var u := Step(s, Receive);
    forall r | 0 <= r < |s.regs| ensures Tokens(u, r) == Tokens(s, r) {
      TallyDrop(s.ready, 0, InQueue(r));
      TallySnoc(s.hands, Processing(s.ready[0]), InHands(r));
    }
    TokensKept(s, u);
  }

  lemma CallInv(s: State, r: nat)
    requires Inv(s) && r < |s.regs|
    ensures Inv(s.(hands := s.hands + [Activating(r)]))
  {
    hide Tally;
    var u := s.(hands := s.hands + [Activating(r)]);
    forall q | 0 <= q < |s.regs| ensures Tokens(u, q) == Tokens(s, q) {
      TallySnoc(s.hands, Activating(r), InHands(q));
    }
    TokensKept(s, u);
  }

  lemma RegisterInv(s: State, probed: bool)
    requires Inv(s)
    ensures Inv(Step(s, Register(probed)))
  {
    hide Tally;
    var u := Step(s, Register(probed));
    UnknownHasNone(s, |s.regs|);
    forall r | 0 <= r < |u.regs| ensures RegInv(u, r) {
      assert Tokens(u, r) == Tokens(s, r);
      assert r < |s.regs| ==> RegInv(s, r);
    }
  }

  /** Retiring and stopping only lift obligations. */
  lemma FlagInv(s: State, u: State)
    requires Inv(s) && u.heap == s.heap && u.ready == s.ready && u.hands == s.hands && u.capacity == s.capacity
    requires |u.regs| == |s.regs| && (s.stopped ==> u.stopped)
    requires forall r | 0 <= r < |s.regs| ::
               u.regs[r].activated == s.regs[r].activated && u.regs[r].probed == s.regs[r].probed
               && (s.regs[r].retired ==> u.regs[r].retired)
    ensures Inv(u)
  {
    hide Tally;
    forall r | 0 <= r < |u.regs| ensures RegInv(u, r) {
      assert RegInv(s, r);
      assert Tokens(u, r) == Tokens(s, r);
    }
  }

  lemma AdvanceInv(s: State, h: nat, due: int)
    requires Inv(s) && h < |s.hands|
    ensures Inv(Advance(s, h, due))
  {
    hide Tally, Tokens, RegInv;
    var r := s.hands[h].reg;
    var reg := s.regs[r];
    match s.hands[h] {
      case Activating(_) => if reg.activated { DropInv(s, h); } else { ActivateInv(s, h); }
      case Scheduling(_) => if s.stopped || reg.retired { DropInv(s, h); } else { MoveInv(s, h, Pushing(r)); }
      case Pushing(_) => PushInv(s, h, due);
      case Popped(_) => if reg.retired { DropInv(s, h); } else { MoveInv(s, h, Sending(r)); }
      case Sending(_) => if |s.ready| < s.capacity { SendInv(s, h); } else { MoveInv(s, h, Scheduling(r)); }
      case Processing(_) =>
        if reg.retired || s.stopped || !reg.probed { DropInv(s, h); } else { MoveInv(s, h, Probing(r)); }
      case Probing(_) => MoveInv(s, h, Returned(r));
      case Returned(_) => if s.stopped || reg.retired { DropInv(s, h); } else { MoveInv(s, h, Scheduling(r)); }
    }
  }

  lemma StepInv(s: State, a: Action)
    requires Inv(s)
    ensures Inv(Step(s, a))
  {
    hide Tally, Tokens, RegInv, Advance;
    match a {
      case Register(probed) => RegisterInv(s, probed);
      case CallActivate(r) => if r < |s.regs| { CallInv(s, r); }
      case Retire(r) => FlagInv(s, Step(s, a));
      case Stop => FlagInv(s, Step(s, a));
      case DiscardHead(i) => if i < |s.heap| && s.regs[s.heap[i].reg].retired { DiscardInv(s, i); }
      case PopDue(i, _) => if i < |s.heap| { PopInv(s, i); }
      case Receive => if s.ready != [] { ReceiveInv(s); }
      case Go(h, due) => if h < |s.hands| { AdvanceInv(s, h, due); }
    }
  }

  lemma {:induction false} RunInv(capacity: nat, actions: seq<Action>)
    ensures Inv(Run(Init(capacity), actions))
  {
    hide Inv, Step;
    if actions == [] {
      InitInv(capacity);
    } else {
      RunInv(capacity, actions[..|actions| - 1]);
      StepInv(Run(Init(capacity), actions[..|actions| - 1]), actions[|actions| - 1]);
    }
  }

  // ----- what every run guarantees

  /** No work item is lost or duplicated: an activated, unretired registration has exactly one until the stop. */
  lemma {:induction false} ProbeTokenConserved(capacity: nat, actions: seq<Action>, r: nat)
    requires r < |Run(Init(capacity), actions).regs|
    ensures var s := Run(Init(capacity), actions);
            && Tokens(s, r) <= 1
            && (!s.regs[r].activated ==> Tokens(s, r) == 0)
            && (MustProbe(s, s.regs[r]) ==> Tokens(s, r) == 1)
  {
    hide Tokens;
    RunInv(capacity, actions);
    assert RegInv(Run(Init(capacity), actions), r);
  }

  /** Two probes of one registration never overlap. */
  lemma {:induction false} ProbesNeverOverlap(capacity: nat, actions: seq<Action>, i: nat, j: nat)
    requires i < j < |Run(Init(capacity), actions).hands|
    requires var s := Run(Init(capacity), actions); s.hands[i].Probing? && s.hands[j].Probing?
    ensures var s := Run(Init(capacity), actions); s.hands[i].reg != s.hands[j].reg
  {
    hide Tally;
    var s := Run(Init(capacity), actions);
    RunInv(capacity, actions);
    assert RegInv(s, s.hands[i].reg);
    if s.hands[i].reg == s.hands[j].reg {
      TallyTwo(s.hands, i, j, InHands(s.hands[i].reg));
    }
  }

  /** While a registration's item is in the heap or the ready queue, no probe of it is running. */
  lemma {:induction false} QueuedMeansNotProbing(capacity: nat, actions: seq<Action>, r: nat, h: nat)
    requires var s := Run(Init(capacity), actions);
             && h < |s.hands| && s.hands[h].Probing?
             && (r in s.ready || exists i :: 0 <= i < |s.heap| && s.heap[i].reg == r)
    ensures Run(Init(capacity), actions).hands[h].reg != r
  {
    hide Tally;
    var s := Run(Init(capacity), actions);
    RunInv(capacity, actions);
    assert RegInv(s, s.hands[h].reg);
    TallyPositive(s.hands, h, InHands(s.hands[h].reg));
    if r in s.ready {
      var i: nat :| i < |s.ready| && s.ready[i] == r;
      TallyPositive(s.ready, i, InQueue(r));
    } else {
      var i: nat :| i < |s.heap| && s.heap[i].reg == r;
      TallyPositive(s.heap, i, InHeap(r));
    }
  }

  // ----- what the steps achieve

  /** An item is popped exactly when it is due and nothing in the heap is due earlier, or as early and pushed before. */
  lemma PopMeaning(s: State, i: nat, now: int)
    requires i < |s.heap|
    ensures var u := Step(s, PopDue(i, now));
            var first := forall j | 0 <= j < |s.heap| ::
                           s.heap[i].due < s.heap[j].due
                           || (s.heap[i].due == s.heap[j].due && s.heap[i].sequence <= s.heap[j].sequence);
            if s.heap[i].due <= now && first
            then u == s.(heap := s.heap[..i] + s.heap[i + 1..], hands := s.hands + [Popped(s.heap[i].reg)])
            else u == s
  {
  }

  /** A heap with items has a first one. */
  lemma {:induction false} HeadExists(heap: seq<Item>)
    requires heap != []
    ensures exists i: nat :: IsHead(heap, i)
  {
    var i := FirstOf(heap, |heap|);
    assert IsHead(heap, i);
  }

  lemma {:induction false} FirstOf(heap: seq<Item>, n: nat) returns (i: nat)
    requires 0 < n <= |heap|
    ensures i < n && forall j | 0 <= j < n :: !Precedes(heap[j], heap[i])
    decreases n
  {
    if n == 1 { return 0; }
    i := FirstOf(heap, n - 1);
    if Precedes(heap[n - 1], heap[i]) { i := n - 1; }
  }

  /** The registration is unretired and of a probed type, and the scheduler has not been stopped. */
  predicate Probed(s: State, r: nat) {
    r < |s.regs| && !s.regs[r].retired && s.regs[r].probed && !s.stopped
  }

  /** The last hand takes a step. */
  function GoLast(s: State, due: int): State {
    if s.hands == [] then s else Step(s, Go(|s.hands| - 1, due))
  }

  lemma LastHand(s: State, x: Hand, due: int)
    requires x.reg < |s.regs|
    ensures var t := s.(hands := s.hands + [x]);
            GoLast(t, due) == Advance(t, |s.hands|, due)
  {
  }

  lemma DropLast(s: State, x: Hand)
    ensures Drop(s.hands + [x], |s.hands|) == s.hands
    ensures forall y :: (s.hands + [x])[|s.hands| := y] == s.hands + [y]
  {
  }

  /** Activating a fresh registration puts its first item into the heap, at the given time and after all others. */
  lemma ActivationSchedules(s: State, r: nat, due: int)
    requires Probed(s, r) && !s.regs[r].activated
    ensures var u := GoLast(GoLast(GoLast(Step(s, CallActivate(r)), due), due), due);
            && u.regs == s.regs[r := s.regs[r].(activated := true)]
            && u.heap == s.heap + [Item(due, s.sequence + 1, r)] && u.hands == s.hands && u.sequence == s.sequence + 1
  {
    var t := s.(regs := s.regs[r := s.regs[r].(activated := true)]);
    DropLast(s, Activating(r));
    DropLast(s, Scheduling(r));
    DropLast(s, Pushing(r));
    LastHand(s, Activating(r), due);
    LastHand(t, Scheduling(r), due);
    LastHand(t, Pushing(r), due);
    assert GoLast(Step(s, CallActivate(r)), due) == t.(hands := s.hands + [Scheduling(r)]);
    assert GoLast(t.(hands := s.hands + [Scheduling(r)]), due) == t.(hands := s.hands + [Pushing(r)]);
  }

  /** A due item of an unretired registration reaches a worker when the queue is empty, and is then probed. */
  lemma DueIsProbed(s: State, i: nat, now: int, due: int)
    requires IsHead(s.heap, i) && s.heap[i].due <= now && Probed(s, s.heap[i].reg)
    requires s.ready == [] && s.capacity > 0
    ensures var r := s.heap[i].reg;
            var queued := GoLast(GoLast(Step(s, PopDue(i, now)), due), due);
            && queued == s.(heap := Drop(s.heap, i), ready := [r])
            && GoLast(Step(queued, Receive), due) == s.(heap := Drop(s.heap, i), hands := s.hands + [Probing(r)])
  {
    var r, t := s.heap[i].reg, s.(heap := Drop(s.heap, i));
    hide IsHead;
    DropLast(s, Popped(r));
    DropLast(s, Sending(r));
    DropLast(s, Processing(r));
    LastHand(t, Popped(r), due);
    LastHand(t, Sending(r), due);
    LastHand(t, Processing(r), due);
    assert GoLast(t.(hands := s.hands + [Popped(r)]), due) == t.(hands := s.hands + [Sending(r)]);
    assert Drop([r], 0) == [];
  }

  /** After its probe an unretired registration is scheduled again. */
  lemma ProbedIsRescheduled(s: State, r: nat, due: int)
    requires Probed(s, r)
    ensures var t := s.(hands := s.hands + [Probing(r)]);
            var u := GoLast(GoLast(GoLast(GoLast(t, due), due), due), due);
            u == s.(heap := s.heap + [Item(due, s.sequence + 1, r)], sequence := s.sequence + 1)
  {
    DropLast(s, Probing(r));
    DropLast(s, Returned(r));
    DropLast(s, Scheduling(r));
    DropLast(s, Pushing(r));
    LastHand(s, Probing(r), due);
    LastHand(s, Returned(r), due);
    LastHand(s, Scheduling(r), due);
    LastHand(s, Pushing(r), due);
  }

  /** An item that meets a full queue is scheduled again, and not lost. */
  lemma FullQueueReschedules(s: State, r: nat, due: int)
    requires Probed(s, r) && |s.ready| >= s.capacity
    ensures var t := s.(hands := s.hands + [Sending(r)]);
            var u := GoLast(GoLast(GoLast(t, due), due), due);
            u == s.(heap := s.heap + [Item(due, s.sequence + 1, r)], sequence := s.sequence + 1)
  {
    DropLast(s, Sending(r));
    DropLast(s, Scheduling(r));
    DropLast(s, Pushing(r));
    LastHand(s, Sending(r), due);
    LastHand(s, Scheduling(r), due);
    LastHand(s, Pushing(r), due);
  }

  /** The item of a retired registration goes no further, wherever it is handled. */
  lemma RetiredGoesNoFurther(s: State, x: Hand, due: int)
    requires x.reg < |s.regs| && s.regs[x.reg].retired
    requires x.Scheduling? || x.Popped? || x.Processing? || x.Returned?
    ensures GoLast(s.(hands := s.hands + [x]), due) == s
  {
    DropLast(s, x);
    LastHand(s, x, due);
  }
}
