/** When `dispose()` can end, on every reachable handle: a post that has thrown can keep it from ending
    (src/async-api.ts:127-145, 188-189, 213). */
module DisposeEnding {
  import opened Wire
  import opened Worker
  import opened Counting
  import opened Protocol
  import opened Invariant
  import opened Guarantees
  import opened Disposal
  import opened Calls

  /** The last calls, as many as posts have thrown, get no reply any more; each has timed out or still can. */
  ghost predicate Releasable(s: State) {
    forall i :: |PostedIds(s.calls)| <= i < |s.calls| ==> s.calls[i].rejected || s.calls[i].armed
  }

  ghost predicate CanEnd(s: State) {
    exists es :: ValidRun(s, es) && Run(s, es).IsDisposed()
  }

  // ----- a call without reply and timeout keeps the lock

  ghost predicate Stuck(s: State, i: nat) {
    |PostedIds(s.calls)| <= i < |s.calls| && Patient(s.calls[i])
  }

  lemma StuckUnreleased(s: State, i: nat)
    requires Inv(s, 0) && Stuck(s, i)
    ensures Unreleased(s.calls[i]) && !s.IsDisposed()
  {
    PostedIdsBounds(s.calls);
    assert CallOk(s.calls[i], ResultAt(s.taken, s.delivered, i));
    CountZero(s.calls, Unreleased);
  }

  /** Which posts have thrown does not change while disposing. */
  lemma SameIds(s: State, e: Event)
    requires Inv(s, 0) && Enabled(s, e) && s.StartedToDispose()
    ensures |Step(s, e).calls| == |s.calls| && PostedIds(Step(s, e).calls) == PostedIds(s.calls)
    ensures forall i :: 0 <= i < |s.calls| && Patient(s.calls[i]) ==> Patient(Step(s, e).calls[i])
  {
    StepEvolves(s, e);
    DrainingStep(s, e);
    hide Inv, Step, Enabled;
    var t := Step(s, e);
    forall j | 0 <= j < |s.calls| ensures Failed(s.calls[j]) == Failed(t.calls[j]) {
      assert Evolves(s.calls[j], t.calls[j]);
    }
    PostedIdsAgree(s.calls, t.calls);
  }

  lemma StuckStep(s: State, e: Event, i: nat)
    requires Inv(s, 0) && Enabled(s, e) && s.StartedToDispose() && Stuck(s, i)
    ensures Stuck(Step(s, e), i)
  {
    hide Inv, Step, Enabled;
    SameIds(s, e);
  }

  lemma {:induction false} StuckRun(s: State, es: seq<Event>, i: nat)
    requires Inv(s, 0) && ValidRun(s, es) && s.StartedToDispose() && Stuck(s, i)
    ensures !Run(s, es).IsDisposed()
    decreases es
  {
    StuckUnreleased(s, i);
    hide Inv, Step, Stuck;
    if es != [] {
      StepInv(s, es[0]);
      StuckStep(s, es[0], i);
      DrainingStep(s, es[0]);
      StuckRun(Step(s, es[0]), es[1..], i);
    }
  }

  // ----- otherwise the drain can be completed

  lemma ReleasableStep(s: State, e: Event)
    requires Inv(s, 0) && Enabled(s, e) && s.StartedToDispose() && Releasable(s) && (e.WorkerRuns? || e.Delivery?)
    ensures Releasable(Step(s, e)) && |PostedIds(Step(s, e).calls)| == |PostedIds(s.calls)|
  {
    SameIds(s, e);
    PostedIdsBounds(s.calls);
    forall i | |PostedIds(s.calls)| <= i < |s.calls|
      ensures Step(s, e).calls[i].rejected || Step(s, e).calls[i].armed
    {
      StillReleasable(s, e, i);
    }
    hide Inv, Step, Enabled;
  }

  lemma StillReleasable(s: State, e: Event, i: nat)
    requires Inv(s, 0) && Enabled(s, e) && s.StartedToDispose() && (e.WorkerRuns? || e.Delivery?)
    requires |PostedIds(s.calls)| <= i < |s.calls| && (s.calls[i].rejected || s.calls[i].armed)
    ensures i < |Step(s, e).calls| && (Step(s, e).calls[i].rejected || Step(s, e).calls[i].armed)
  {
    SameIds(s, e);
    BeyondReplies(s, e, i);
    TimerStep(s, e, i);
    if s.calls[i].rejected {
      StaysRejected(s, e, i);
    }
    hide Inv, Step;
  }

  lemma StaysRejected(s: State, e: Event, i: nat)
    requires Inv(s, 0) && Enabled(s, e) && s.StartedToDispose() && i < |s.calls| && s.calls[i].rejected
    ensures i < |Step(s, e).calls| && Step(s, e).calls[i].rejected
  {
    hide Inv, RunScript;
    if e.Delivery? && !s.IsDisposed() {
      NextAnswer(s);
      ScriptOnlyAddsCalls(Answered(s), e.script);
    }
  }

  lemma BeyondReplies(s: State, e: Event, i: nat)
    requires Inv(s, 0) && Enabled(s, e) && |PostedIds(s.calls)| <= i
    ensures e.Delivery? && !s.IsDisposed() ==> s.delivered < i
  {
  }

  /** Both channels are emptied, and the calls without reply can still be released. */
  lemma {:induction false} Emptied(s: State) returns (es: seq<Event>)
    requires Inv(s, 0) && s.StartedToDispose() && Releasable(s)
    ensures ValidRun(s, es)
    ensures var t := Run(s, es); Inv(t, 0) && t.StartedToDispose() && Releasable(t) && Measure(t) == 0
    decreases Measure(s)
  {
    es := [];
    if Measure(s) > 0 {
      HopEnabled(s);
      var e := if s.inbox != [] then WorkerRuns(Returns(Undefined)) else Delivery([]);
      StepInv(s, e);
      DrainingStep(s, e);
      ReleasableStep(s, e);
      hide Inv, Step, Enabled, Releasable;
      var rest := Emptied(Step(s, e));
      es := [e] + rest;
      assert es[1..] == rest;
    }
  }

  /** With nothing under way, the calls behind the lock are released by their timeouts. */
  lemma {:induction false} Released(s: State) returns (es: seq<Event>)
    requires Inv(s, 0) && s.StartedToDispose() && Releasable(s) && Measure(s) == 0
    ensures ValidRun(s, es) && Inv(Run(s, es), 0) && Run(s, es).StartedToDispose() && Run(s, es).lock == 0
    decreases Count(s.calls, Unreleased)
  {
    es := [];
    CountZero(s.calls, Unreleased);
    if Count(s.calls, Unreleased) != 0 {
      var i :| 0 <= i < |s.calls| && Unreleased(s.calls[i]);
      WaitingIsArmed(s, i);
      var e := TimeoutFires(i);
      var t := Step(s, e);
      CountUpdate(s.calls, i, t.calls[i], Unreleased);
      StepInv(s, e);
      FiredReleasable(s, i);
      hide Inv, Step, Enabled, Releasable;
      var rest := Released(t);
      es := [e] + rest;
      assert es[1..] == rest;
    }
  }

  lemma WaitingIsArmed(s: State, i: nat)
    requires Inv(s, 0) && Releasable(s) && Measure(s) == 0 && i < |s.calls| && Unreleased(s.calls[i])
    ensures s.calls[i].armed
  {
    PostedIdsBounds(s.calls);
    CountZero(s.calls, Unreleased);
    assert CallOk(s.calls[i], ResultAt(s.taken, s.delivered, i));
  }

  lemma FiredReleasable(s: State, i: nat)
    requires i < |s.calls| && s.calls[i].armed && Releasable(s) && Measure(s) == 0 && s.StartedToDispose()
    ensures var t := Step(s, TimeoutFires(i)); Releasable(t) && Measure(t) == 0 && t.StartedToDispose()
  {
    var t := Step(s, TimeoutFires(i));
    PostedIdsAgree(s.calls, t.calls);
  }

  /** Once disposing has started, `dispose` can end exactly if each of the last calls, as many as posts have
      thrown, has timed out or still can. Without throws there is no such call. */
  lemma DisposeEndsExactly(s: State)
    requires Reachable(s) && s.StartedToDispose()
    ensures CanEnd(s) <==> Releasable(s)
    ensures NoThrow(s.calls) ==> Releasable(s)
  {
    ReachableInv(s);
    if NoThrow(s.calls) {
      IdentityPositions(s.calls);
    }
    if Releasable(s) {
      EndFound(s);
    } else {
      var i :| |PostedIds(s.calls)| <= i < |s.calls| && Patient(s.calls[i]);
      forall es | ValidRun(s, es) ensures !Run(s, es).IsDisposed() {
        StuckRun(s, es, i);
      }
    }
  }

  lemma EndFound(s: State)
    requires Inv(s, 0) && s.StartedToDispose() && Releasable(s)
    ensures CanEnd(s)
  {
    hide Inv, Releasable, Step, Enabled;
    var a := Emptied(s);
    var b := Released(Run(s, a));
    RunJoin(s, a, b);
    var t := Run(s, a + b);
    EndingRuns(t);
    RunJoin(s, a + b, Ending(t.phase));
  }

  /** A chunk is written twice and a socket created, then `dispose` is called: it never ends. */
  lemma DisposeHangs()
    ensures exists s :: Reachable(s) && s.StartedToDispose() && !CanEnd(s)
  {
    var chunk, good := Post(Write, [Num(3), View(0, [1])]), Post(CreateSocket, [Flag(false)]);
    AnswersReached(chunk, good);
    hide Reachable, CanEnd;
    var s := BothAnswered(chunk, good);
    ReachableStep(s, Main(Dispose));
    var t := Step(s, Main(Dispose));
    assert t.calls == s.calls && t.StartedToDispose();
    PostedIdsBounds(t.calls);
    CountZero(t.calls, Failed);
    assert Failed(t.calls[1]);
    DisposeEndsExactly(t);
    assert !(t.calls[2].rejected || t.calls[2].armed);
  }
}
