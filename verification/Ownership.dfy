/** Which ArrayBuffers the main thread has lost, over whole runs: a buffer changes owner with the
    post of a call, and with one call only (src/async-api.ts:185-189, src/async-helpers.ts:35-43). */
module Ownership {
  import opened Wire
  import opened Protocol
  import opened Invariant
  import opened Guarantees

  /** The post of call i transferred buffer b. */
  predicate Moves(calls: seq<Call>, i: nat, b: nat) {
    i < |calls| && !Failed(calls[i]) && b in TransferList(calls[i].post.args)
  }

  ghost predicate OwnershipOk(calls: seq<Call>, detached: set<nat>) {
    && (forall b :: b in detached <==> exists i: nat :: Moves(calls, i, b))
    && (forall i: nat, j: nat, b :: Moves(calls, i, b) && Moves(calls, j, b) ==> i == j)
    && (forall i :: 0 <= i < |calls| && !Failed(calls[i]) ==> Distinct(TransferList(calls[i].post.args)))
  }

  /** Steps that change neither the messages nor which posts failed. */
  lemma SameMoves(a: seq<Call>, b: seq<Call>, detached: set<nat>)
    requires OwnershipOk(a, detached) && |a| == |b|
    requires forall i :: 0 <= i < |a| ==> b[i].post == a[i].post && Failed(b[i]) == Failed(a[i])
    ensures OwnershipOk(b, detached)
  {
    hide TransferList, Distinct;
    assert forall i: nat, x :: Moves(b, i, x) <==> Moves(a, i, x);
  }

  lemma FailedPost(calls: seq<Call>, c: Call, detached: set<nat>)
    requires OwnershipOk(calls, detached) && Failed(c)
    ensures OwnershipOk(calls + [c], detached)
  {
    hide TransferList, Distinct;
    assert forall i: nat, x :: Moves(calls + [c], i, x) <==> Moves(calls, i, x);
  }

  lemma AcceptedPost(calls: seq<Call>, c: Call, detached: set<nat>)
    requires OwnershipOk(calls, detached) && !Failed(c) && !PostThrows(detached, c.post.args)
    ensures OwnershipOk(calls + [c], detached + SetOf(TransferList(c.post.args)))
  {
    hide TransferList, Distinct;
    var n, calls' := |calls|, calls + [c];
    assert forall i: nat, x :: Moves(calls', i, x) <==>
        Moves(calls, i, x) || (i == n && x in TransferList(c.post.args));
    forall b ensures b in detached + SetOf(TransferList(c.post.args)) <==> exists i: nat :: Moves(calls', i, b) {
      if b in TransferList(c.post.args) {
        assert Moves(calls', n, b);
      } else if b in detached {
        var i: nat :| Moves(calls, i, b);
        assert Moves(calls', i, b);
      }
    }
  }

  lemma ActOwned(s: State, a: Action)
    requires OwnershipOk(s.calls, s.detached)
    ensures OwnershipOk(Act(s, a).calls, Act(s, a).detached)
  {
    hide OwnershipOk, TransferList, PostThrows;
    if a.Invocation? && CallOutcome(s, a.post).Promised? {
      var t := Act(s, a);
      var c := t.calls[|s.calls|];
      if Failed(c) {
        FailedPost(s.calls, c, s.detached);
      } else {
        AcceptedPost(s.calls, c, s.detached);
      }
    }
  }

  lemma {:induction false} ScriptOwned(s: State, script: seq<Action>)
    requires OwnershipOk(s.calls, s.detached)
    ensures OwnershipOk(RunScript(s, script).calls, RunScript(s, script).detached)
  {
    hide OwnershipOk, Act;
    if script != [] {
      ScriptOwned(s, script[..|script| - 1]);
      ActOwned(RunScript(s, script[..|script| - 1]), script[|script| - 1]);
    }
  }

  lemma StepOwned(s: State, e: Event)
    requires Enabled(s, e) && OwnershipOk(s.calls, s.detached)
    ensures OwnershipOk(Step(s, e).calls, Step(s, e).detached)
  {
    hide OwnershipOk, Act, RunScript;
    match e
    case Main(a) => ActOwned(s, a);
    case Delivery(script) =>
      if !s.IsDisposed() && s.queue != [] {
        var t := Answered(s);
        SameMoves(s.calls, t.calls, s.detached);
        ScriptOwned(t, script);
      }
    case TimeoutFires(id) => SameMoves(s.calls, Step(s, e).calls, s.detached);
    case _ =>
  }

  lemma {:induction false} RunOwned(s: State, es: seq<Event>)
    requires ValidRun(s, es) && OwnershipOk(s.calls, s.detached)
    ensures OwnershipOk(Run(s, es).calls, Run(s, es).detached)
    decreases es
  {
    hide OwnershipOk, Step, Enabled;
    if es != [] {
      StepOwned(s, es[0]);
      RunOwned(Step(s, es[0]), es[1..]);
    }
  }

  /** In every reachable state the detached buffers are exactly those in the transfer list of a call
      whose post did not throw; each is in one such list, and there once. */
  lemma TransferredOnce(s: State)
    requires Reachable(s)
    ensures forall b :: b in s.detached <==> exists i: nat :: Moves(s.calls, i, b)
    ensures forall i: nat, j: nat, b :: Moves(s.calls, i, b) && Moves(s.calls, j, b) ==> i == j
    ensures forall i :: 0 <= i < |s.calls| && !Failed(s.calls[i]) ==> Distinct(TransferList(s.calls[i].post.args))
  {
    var es :| ValidRun(INIT, es) && Run(INIT, es) == s;
    RunOwned(INIT, es);
  }

  // ----- what a client does to a reachable handle leaves it reachable

  lemma ActReachable(s: State, a: Action)
    requires Reachable(s)
    ensures Reachable(Act(s, a))
  {
    hide Reachable, Act;
    ReachableStep(s, Main(a));
  }

  lemma {:induction false} ScriptReachable(s: State, script: seq<Action>)
    requires Reachable(s)
    ensures Reachable(RunScript(s, script))
  {
    hide Reachable, Act;
    if script != [] {
      ScriptReachable(s, script[..|script| - 1]);
      ActReachable(RunScript(s, script[..|script| - 1]), script[|script| - 1]);
    }
  }
}
