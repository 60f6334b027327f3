/**
 Arbitration between cancelling an upgrade and committing its 101 response
 (internal/proxy/websocket_commit.go, internal/proxy/websocket.go).

 A time is an integer; the zero time of the source is None.
 */
module WebSocketCommit {
  import opened Wrappers

  type Time = Option<int>

  /** The connection's write deadline and the tunnel context are part of the state the controller acts on. */
  datatype Arbiter = Arbiter(
    totalDeadline: Time, canceledAt: Time, pending: bool, committed: bool, writeDeadline: Time, tunnelCanceled: bool)

  predicate Before(t: int, limit: Time) {
    limit.None? || t < limit.value
  }

  function Earlier(t: int, limit: Time): int {
    if limit.Some? && limit.value < t then limit.value else t
  }

  function CancelAt(s: Arbiter, at: int): Arbiter {
    if s.committed then s
    else
      var t := if s.canceledAt.None? then s.(canceledAt := Some(at)) else s;
      if s.pending then t.(writeDeadline := Some(Earlier(at, s.totalDeadline)))
      else t.(tunnelCanceled := true)
  }

  /**
   What the handler sees when it calls: the time, whether either context has ended, whether the
   connection refuses.
   */
  datatype View = View(now: int, tunnelEnded: bool, requestEnded: bool, refuses: bool)

  predicate CanContinue(s: Arbiter, v: View) {
    s.canceledAt.None? && !s.tunnelCanceled && !v.tunnelEnded && !v.requestEnded && Before(v.now, s.totalDeadline)
  }

  predicate Pends(s: Arbiter, v: View) {
    CanContinue(s, v) && !(s.totalDeadline.Some? && v.refuses)
  }

  function SetPending(s: Arbiter, v: View): Arbiter {
    if !Pends(s, v) then s
    else s.(pending := true, writeDeadline := if s.totalDeadline.Some? then s.totalDeadline else s.writeDeadline)
  }

  predicate Commits(s: Arbiter, flushedAt: int) {
    Before(flushedAt, s.totalDeadline) && Before(flushedAt, s.canceledAt)
  }

  function FinishCommit(s: Arbiter, flushedAt: int): Arbiter {
    if !Commits(s, flushedAt) then s
    else s.(committed := true, pending := false, writeDeadline := if s.pending then None else s.writeDeadline)
  }

  // ----- the controller as the source keeps it

  class Controller {
    const totalDeadline: Time
    var canceledAt: Time
    var pending: bool
    var committed: bool
    /** The write deadline of the pending connection, and whether the controller has cancelled the tunnel. */
    var writeDeadline: Time
    var tunnelCanceled: bool

    ghost function Model(): Arbiter
      reads this
    {
      Arbiter(totalDeadline, canceledAt, pending, committed, writeDeadline, tunnelCanceled)
    }

    constructor (deadline: Time)
      ensures Model() == Start(deadline)
    {
      totalDeadline, canceledAt, pending, committed := deadline, None, false, false;
      writeDeadline, tunnelCanceled := None, false;
    }

    method Cancel(at: int)
      modifies this
      ensures Model() == CancelAt(old(Model()), at)
    {
      if committed { return; }
      if canceledAt.None? { canceledAt := Some(at); }
      if pending {
        var deadline := at;
        if totalDeadline.Some? && totalDeadline.value < deadline { deadline := totalDeadline.value; }
        writeDeadline := Some(deadline);
        return;
      }
      tunnelCanceled := true;
    }

    /** Returns whether the connection is pending now, and whether it refused the deadline. */
    method Pend(v: View) returns (ok: bool, failed: bool)
      modifies this
      ensures Model() == SetPending(old(Model()), v)
      ensures ok == Pends(old(Model()), v)
      ensures failed == (CanContinue(old(Model()), v) && totalDeadline.Some? && v.refuses)
    {
      if canceledAt.Some? || tunnelCanceled || v.tunnelEnded || v.requestEnded ||
         (totalDeadline.Some? && !(v.now < totalDeadline.value)) {
        return false, false;
      }
      if totalDeadline.Some? {
        if v.refuses { return false, true; }
        writeDeadline := totalDeadline;
      }
      pending := true;
      return true, false;
    }

    method Finish(flushedAt: int) returns (ok: bool)
      modifies this
      ensures Model() == FinishCommit(old(Model()), flushedAt)
      ensures ok == Commits(old(Model()), flushedAt)
    {
      if (totalDeadline.Some? && !(flushedAt < totalDeadline.value)) ||
         (canceledAt.Some? && !(flushedAt < canceledAt.value)) {
        return false;
      }
      committed := true;
      if pending {
        writeDeadline := None;
        pending := false;
      }
      return true;
    }
  }

  function Start(deadline: Time): Arbiter {
    Arbiter(deadline, None, false, false, None, false)
  }

  // ----- every interleaving of cancellations with the handler

  /** Cancellations come from any goroutine; the handler pends once and then finishes once. */
  datatype Action = Cancel(at: int) | Pend(view: View) | Finish(flushedAt: int)

  datatype Handler = Building | Stopped | Flushing | Ended(flushedAt: int)

  /** `cancels` lists the cancellations in the order in which they took the mutex before the decision. */
  datatype Race = Race(s: Arbiter, handler: Handler, cancels: seq<int>)

  function Step(r: Race, a: Action): Race {
    match a
    case Cancel(at) =>
      r.(s := CancelAt(r.s, at), cancels := if r.handler.Ended? then r.cancels else r.cancels + [at])
    case Pend(v) =>
      if !r.handler.Building? then r
      else r.(s := SetPending(r.s, v), handler := if Pends(r.s, v) then Flushing else Stopped)
    case Finish(t) =>
      if !r.handler.Flushing? then r else r.(s := FinishCommit(r.s, t), handler := Ended(t))
  }

  function Run(deadline: Time, actions: seq<Action>): Race {
    if actions == [] then Race(Start(deadline), Building, [])
    else Step(Run(deadline, actions[..|actions| - 1]), actions[|actions| - 1])
  }

  /** The reference: the flush precedes the total deadline and the first recorded cancellation. */
  predicate FlushWins(deadline: Time, cancels: seq<int>, flushedAt: int) {
    Before(flushedAt, deadline) && (cancels == [] || flushedAt < cancels[0])
  }

  ghost predicate Inv(deadline: Time, r: Race) {
    && r.s.totalDeadline == deadline
    && match r.handler
       case Ended(t) =>
         && (r.s.committed <==> FlushWins(deadline, r.cancels, t))
         && (r.s.committed ==> !r.s.tunnelCanceled && r.s.writeDeadline.None? && !r.s.pending)
         && (!r.s.committed ==> r.s.pending)
       case Flushing =>
         && !r.s.committed && r.s.pending && !r.s.tunnelCanceled
         && r.s.canceledAt == (if r.cancels == [] then None else Some(r.cancels[0]))
         && r.s.writeDeadline == (if r.cancels == [] then deadline
                                  else Some(Earlier(r.cancels[|r.cancels| - 1], deadline)))
       case _ =>
         && !r.s.committed && !r.s.pending && r.s.writeDeadline.None?
         && r.s.canceledAt == (if r.cancels == [] then None else Some(r.cancels[0]))
         && (r.s.tunnelCanceled <==> r.cancels != [])
  }

  lemma StepInv(deadline: Time, r: Race, a: Action)
    requires Inv(deadline, r)
    ensures Inv(deadline, Step(r, a))
  {
  }

  lemma {:induction false} RunInv(deadline: Time, actions: seq<Action>)
    ensures Inv(deadline, Run(deadline, actions))
  {
    hide Inv, Step;
    if actions == [] {
      StartInv(deadline);
    } else {
      RunInv(deadline, actions[..|actions| - 1]);
      StepInv(deadline, Run(deadline, actions[..|actions| - 1]), actions[|actions| - 1]);
    }
  }

  lemma StartInv(deadline: Time)
    ensures Inv(deadline, Race(Start(deadline), Building, []))
  {
  }

  /** The response is committed exactly when the flush comes before the deadline and the first cancellation. */
  lemma {:induction false} CommitIffFlushFirst(deadline: Time, actions: seq<Action>)
    ensures var r := Run(deadline, actions);
            && (r.handler.Ended? ==>
                  (r.s.committed <==>
                   && (deadline.Some? ==> r.handler.flushedAt < deadline.value)
                   && (r.cancels != [] ==> r.handler.flushedAt < r.cancels[0])))
            && (!r.handler.Ended? ==> !r.s.committed)
  {
    RunInv(deadline, actions);
  }

  /** In a committing run the controller never cancels the tunnel, and no write deadline is left behind. */
  lemma {:induction false} CommittedIsUntouched(deadline: Time, before: seq<Action>, after: seq<Action>)
    requires Run(deadline, before).s.committed
    ensures Run(deadline, before + after).s == Run(deadline, before).s
    ensures var s := Run(deadline, before).s; !s.tunnelCanceled && s.writeDeadline.None? && !s.pending
    decreases |after|
  {
    RunInv(deadline, before);
    if after == [] {
      assert before + after == before;
    } else {
      var init := after[..|after| - 1];
      CommittedIsUntouched(deadline, before, init);
      assert (before + after)[..|before + after| - 1] == before + init;
      RunInv(deadline, before + init);
    }
  }

  /** The handler goes on to flush exactly when nothing has ended yet and the connection takes its deadline. */
  lemma {:induction false} PendMeaning(deadline: Time, actions: seq<Action>, v: View)
    requires Run(deadline, actions).handler.Building?
    ensures var r := Run(deadline, actions);
            var u := Step(r, Pend(v));
            && (u.handler == Flushing <==>
                  && r.cancels == [] && !v.tunnelEnded && !v.requestEnded
                  && (deadline.Some? ==> v.now < deadline.value && !v.refuses))
            && (u.handler != Flushing ==> u.handler == Stopped && u.s == r.s)
  {
    RunInv(deadline, actions);
  }

  /** A handler that flushes comes to its decision when the flush is done. */
  lemma {:induction false} FlushDecides(deadline: Time, actions: seq<Action>, flushedAt: int)
    requires Run(deadline, actions).handler.Flushing?
    ensures var r := Run(deadline, actions);
            var u := Step(r, Finish(flushedAt));
            && u.handler == Ended(flushedAt) && u.cancels == r.cancels
            && (u.s.committed <==> (deadline.Some? ==> flushedAt < deadline.value)
                                   && (r.cancels != [] ==> flushedAt < r.cancels[0]))
            && (u.s.committed ==> u.s.writeDeadline == None)
  {
    RunInv(deadline, actions);
  }

  /** A cancellation before the decision is recorded, and does one thing: it ends the tunnel or the flush. */
  lemma {:induction false} CancelMeaning(deadline: Time, actions: seq<Action>, at: int)
    requires !Run(deadline, actions).handler.Ended?
    ensures var r := Run(deadline, actions);
            var u := Step(r, Cancel(at));
            && u.cancels == r.cancels + [at] && u.handler == r.handler
            && (r.handler.Flushing? ==> !u.s.tunnelCanceled && u.s.writeDeadline.Some? && u.s.writeDeadline.value <= at)
            && (!r.handler.Flushing? ==> u.s.tunnelCanceled && u.s.writeDeadline == None)
  {
    RunInv(deadline, actions);
  }

  /** A cancellation recorded before the connection is pending stops the handler for good. */
  lemma {:induction false} EarlyCancelStops(deadline: Time, actions: seq<Action>, view: View)
    requires var r := Run(deadline, actions); r.handler.Building? && r.cancels != []
    ensures Step(Run(deadline, actions), Pend(view)).handler == Stopped
    ensures Run(deadline, actions).s.tunnelCanceled
  {
    RunInv(deadline, actions);
  }

  /** While the handler flushes, the write deadline is the tighter of the last cancellation and the total deadline. */
  lemma {:induction false} FlushIsBounded(deadline: Time, actions: seq<Action>)
    requires Run(deadline, actions).handler.Flushing?
    ensures var r := Run(deadline, actions);
            && !r.s.tunnelCanceled
            && (r.cancels == [] ==> r.s.writeDeadline == deadline)
            && (r.cancels != [] ==>
                  var last := r.cancels[|r.cancels| - 1];
                  r.s.writeDeadline == Some(if deadline.Some? && deadline.value < last then deadline.value else last))
  {
    RunInv(deadline, actions);
  }
}
