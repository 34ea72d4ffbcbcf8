/** What `dispose()` guarantees (src/async-api.ts:117-152, 204-213). */
module Disposal {
  import opened Wire
  import opened Worker
  import opened Counting
  import opened Protocol
  import opened Invariant
  import opened Guarantees

  /** The worker steps and deliveries still to come. */
  function Measure(s: State): nat {
    2 * |s.inbox| + |s.outbox|
  }

  predicate IsHop(e: Event) { e.WorkerRuns? || e.Delivery? }

  function Hops(es: seq<Event>): nat {
    if es == [] then 0 else (if IsHop(es[0]) then 1 else 0) + Hops(es[1..])
  }

  lemma DrainingStep(s: State, e: Event)
    requires Inv(s, 0) && Enabled(s, e) && s.StartedToDispose()
    ensures var t := Step(s, e);
            && t.StartedToDispose() && |t.calls| == |s.calls|
            && Measure(t) == Measure(s) - (if IsHop(e) then 1 else 0)
            && t.lock <= s.lock
  {
    hide PostsOk, RepliesOk, CallsOk, LastError, PostedIds, Count;
    if e.Delivery? && !s.IsDisposed() && s.queue != [] {
      ScriptOnlyAddsCalls(Answered(s), e.script);
    }
  }

  /** Once disposing has started no call is accepted any more, not even from inside callbacks,
      and every worker step or delivery brings the drain one hop closer: a run makes exactly as
      many hops as the measure drops by. The lock never rises again. */
  lemma {:induction false} DrainRun(s: State, es: seq<Event>)
    requires Inv(s, 0) && ValidRun(s, es) && s.StartedToDispose()
    ensures var t := Run(s, es);
            && Inv(t, 0) && t.StartedToDispose() && |t.calls| == |s.calls|
            && Measure(t) == Measure(s) - Hops(es)
            && 0 <= t.lock <= s.lock
    decreases es
  {
    assert Inv(s, 0) ==> s.lock >= 0;
    hide Inv, Step;
    if es != [] {
      StepInv(s, es[0]);
      DrainingStep(s, es[0]);
      DrainRun(Step(s, es[0]), es[1..]);
    }
  }

  /** The drain cannot get stuck: while messages or replies are under way a hop is possible. */
  lemma DrainProgress(s: State)
    requires Reachable(s) && Measure(s) > 0
    ensures (forall native :: Enabled(s, WorkerRuns(native))) || (forall script :: Enabled(s, Delivery(script)))
  {
    ReachableInv(s);
    PostedIdsBounds(s.calls);
  }

  /** With nothing under way, the callbacks still queued are as many as the posts that threw, and
      the lock is the number of those whose timeout has not fired. So the drain condition holds
      exactly when every call left in the queue has timed out; without throws it always holds. */
  lemma Quiescent(s: State)
    requires Reachable(s) && !s.IsDisposed() && Measure(s) == 0
    ensures |s.queue| == Count(s.calls, Failed)
    ensures forall i :: 0 <= i < |s.queue| ==> s.queue[i] < |s.calls|
    ensures s.lock == 0 <==> forall i :: 0 <= i < |s.queue| ==> s.calls[s.queue[i]].rejected
    ensures NoThrow(s.calls) ==> s.queue == [] && s.lock == 0
  {
    ReachableInv(s);
    PostedIdsBounds(s.calls);
    CountZero(s.calls, Failed);
    CountZero(s.calls, Unreleased);
    forall i | 0 <= i < |s.calls|
      ensures i < s.delivered ==> !Unreleased(s.calls[i])
      ensures i >= s.delivered ==> (Unreleased(s.calls[i]) <==> !s.calls[i].rejected)
    {
      assert CallOk(s.calls[i], ResultAt(s.taken, s.delivered, i));
    }
    if s.lock != 0 {
      var i :| 0 <= i < |s.calls| && Unreleased(s.calls[i]);
      assert s.queue[i - s.delivered] == i;
    }
  }

  lemma IdleWithoutThrows(t: State)
    requires Inv(t, 0) && NoThrow(t.calls) && Measure(t) == 0
    ensures t.lock == 0
  {
    PostedIdsBounds(t.calls);
    CountZero(t.calls, Failed);
    CountZero(t.calls, Unreleased);
    forall i | 0 <= i < |t.calls| && !t.IsDisposed() ensures !Unreleased(t.calls[i]) {
      assert CallOk(t.calls[i], ResultAt(t.taken, t.delivered, i));
    }
  }

  /** Drain termination: from the moment disposing starts, without throws, after as many hops as
      the measure the lock is zero, and it is zero in every later state. */
  lemma DrainTerminates(s: State, es: seq<Event>, later: seq<Event>)
    requires Reachable(s) && s.StartedToDispose() && NoThrow(s.calls)
    requires ValidRun(s, es) && Hops(es) == Measure(s)
    requires ValidRun(Run(s, es), later)
    ensures Run(s, es).lock == 0 && Run(Run(s, es), later).lock == 0
  {
    ReachableInv(s);
    hide Inv;
    DrainRun(s, es);
    RunEvolves(s, es);
    var t := Run(s, es);
    assert forall j :: 0 <= j < |t.calls| ==> Evolves(s.calls[j], t.calls[j]);
    IdleWithoutThrows(t);
    DrainRun(t, later);
  }

  // ----- the end of the drain

  /** What is left to do once the lock is free. */
  function Ending(phase: Phase): seq<Event> {
    match phase
    case Draining => [SeesDrained, FinishDispose]
    case Drained => [FinishDispose]
    case _ => []
  }

  /** A drain sees its condition exactly when the lock is free, and then it runs to its end: the worker is
      dropped and the queue emptied. */
  lemma DrainEnds(s: State)
    requires Reachable(s) && s.phase.Draining?
    ensures Enabled(s, SeesDrained) <==> s.lock == 0
    ensures s.lock == 0 ==>
              && ValidRun(s, [SeesDrained, FinishDispose])
              && var t := Run(s, [SeesDrained, FinishDispose]);
                 t.IsDisposed() && t.queue == [] && t.calls == s.calls && t.lock == 0
  {
    ReachableInv(s);
    LockCounts(s);
    hide Inv, Reachable;
    if s.lock == 0 {
      EndingRuns(s);
    }
  }

  lemma EndingRuns(s: State)
    requires s.StartedToDispose() && s.lock == 0
    ensures ValidRun(s, Ending(s.phase))
    ensures var t := Run(s, Ending(s.phase));
            t.IsDisposed() && t.calls == s.calls && t.lock == 0 && (!s.IsDisposed() ==> t.queue == [])
  {
    var t := s.(phase := Drained);
    assert ValidRun(Finish(s), []) && Run(Finish(s), []) == Finish(s);
    assert Finish(t) == Finish(s) && [FinishDispose][1..] == [];
    if s.phase.Draining? {
      assert [SeesDrained, FinishDispose][1..] == [FinishDispose];
      assert Step(s, SeesDrained) == t;
    }
  }

  lemma {:induction false} RunJoin(s: State, es: seq<Event>, fs: seq<Event>)
    requires ValidRun(s, es) && ValidRun(Run(s, es), fs)
    ensures ValidRun(s, es + fs) && Run(s, es + fs) == Run(Run(s, es), fs)
    decreases es
  {
    hide Enabled, Step;
    if es == [] {
      assert es + fs == fs;
    } else {
      RunJoin(Step(s, es[0]), es[1..], fs);
      assert (es + fs)[1..] == es[1..] + fs;
    }
  }

  lemma HopEnabled(s: State)
    requires Inv(s, 0) && Measure(s) > 0
    ensures Enabled(s, if s.inbox != [] then WorkerRuns(Returns(Undefined)) else Delivery([]))
  {
    PostedIdsBounds(s.calls);
  }

  /** `dispose` ends: without throws, any run of as many hops as the measure can be continued until the
      worker is dropped. */
  lemma DisposeEnds(s: State, es: seq<Event>)
    requires Reachable(s) && s.StartedToDispose() && NoThrow(s.calls)
    requires ValidRun(s, es) && Hops(es) == Measure(s)
    ensures var t := Run(s, es); ValidRun(t, Ending(t.phase)) && Run(t, Ending(t.phase)).IsDisposed()
  {
    hide Inv, Reachable, Step;
    assert ValidRun(Run(s, es), []);
    DrainTerminates(s, es, []);
    ReachableInv(s);
    DrainRun(s, es);
    EndingRuns(Run(s, es));
  }

  // ----- what is dropped

  /** When the worker reference is cleared, every callback that is dropped without having run
      belongs to a call whose promise had been rejected, by its timeout or by its own post. */
  lemma AbandonsNoLiveCall(s: State, i: nat)
    requires Reachable(s) && s.IsDisposed() && i < |s.calls|
    ensures s.delivered <= |s.taken|
    ensures !s.calls[i].promise.Pending?
    ensures s.delivered <= i ==> s.calls[i].rejected && (s.calls[i].promise.TimedOut? || Failed(s.calls[i]))
    ensures i < s.delivered ==> s.calls[i].got == if s.calls[i].hasCallback then [s.taken[i].result] else []
  {
    ReachableInv(s);
    CountZero(s.calls, Unreleased);
    assert CallOk(s.calls[i], ResultAt(s.taken, s.delivered, i));
  }

  lemma GoneStep(s: State, e: Event)
    requires Inv(s, 0) && Enabled(s, e) && s.IsDisposed()
    ensures var t := Step(s, e);
            t.IsDisposed() && t.calls == s.calls && t.lock == s.lock && t.error == s.error && t.delivered == s.delivered
  {
    NoneArmed(s);
    hide Inv, RunScript, Invoke;
    if e.Main? {
      GoneAct(s, e.action);
    }
  }

  lemma NoneArmed(s: State)
    requires Inv(s, 0) && s.IsDisposed()
    ensures forall i :: 0 <= i < |s.calls| ==> !s.calls[i].armed
  {
    CountZero(s.calls, Unreleased);
    forall i | 0 <= i < |s.calls| ensures !s.calls[i].armed {
      assert CallOk(s.calls[i], ResultAt(s.taken, s.delivered, i));
    }
  }

  lemma GoneAct(s: State, a: Action)
    requires s.IsDisposed()
    ensures Act(s, a) == s
  {
  }

  lemma {:induction false} GoneRun(s: State, es: seq<Event>)
    requires Inv(s, 0) && ValidRun(s, es) && s.IsDisposed()
    ensures var t := Run(s, es);
            t.IsDisposed() && t.calls == s.calls && t.lock == s.lock && t.error == s.error && t.delivered == s.delivered
    decreases es
  {
    hide Inv, Step;
    if es != [] {
      StepInv(s, es[0]);
      GoneStep(s, es[0]);
      GoneRun(Step(s, es[0]), es[1..]);
    }
  }

  /** After the worker reference is cleared nothing moves: no callback runs, no promise settles,
      no timeout is pending, and the lock and the error slot keep their values. */
  lemma FrozenOnceDisposed(s: State, es: seq<Event>)
    requires Reachable(s) && ValidRun(s, es) && s.IsDisposed()
    ensures var t := Run(s, es);
            t.IsDisposed() && t.calls == s.calls && t.lock == s.lock && t.error == s.error && t.delivered == s.delivered
    ensures forall i :: 0 <= i < |s.calls| ==> !s.calls[i].armed
  {
    ReachableInv(s);
    NoneArmed(s);
    hide Inv;
    GoneRun(s, es);
  }
}
