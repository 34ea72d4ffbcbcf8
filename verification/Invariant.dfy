/** The inductive invariant of the call protocol. It holds between event-loop turns with
    `inTurn == 0`, and with `inTurn == 1` while the callback of a call that has just been
    answered is running, when the lock of that call is not released yet. */
module Invariant {
  import opened Wire
  import opened Worker
  import opened Counting
  import opened Protocol

  predicate Failed(c: Call) { c.promise.PostFailed? }
  predicate Unreleased(c: Call) { !c.rejected && !c.answered }
  predicate Unsettled(c: Call) { c.promise.Pending? }
  predicate Leaked(c: Call) { Failed(c) && Unreleased(c) }

  /** The calls whose message was posted, in order: all but those whose `postMessage` threw. */
  function PostedIds(calls: seq<Call>): seq<nat> {
    if calls == [] then []
    else
      var n := |calls| - 1;
      PostedIds(calls[..n]) + (if Failed(calls[n]) then [] else [n])
  }

  /** The first error-free suffix is skipped: the error of the latest failing reply. */
  function LastError(replies: seq<Reply>): Option<string> {
    if replies == [] then None
    else
      var n := |replies| - 1;
      if replies[n].err.Some? then replies[n].err else LastError(replies[..n])
  }

  /** The queue holds, in order, the calls whose reply has not been delivered. */
  ghost predicate QueueOk(phase: Phase, queue: seq<nat>, delivered: nat, calls: nat, taken: nat) {
    && delivered <= calls && delivered <= taken
    && (phase.Gone? ==> queue == [])
    && (!phase.Gone? ==>
          && delivered == taken && |queue| == calls - delivered
          && forall i :: 0 <= i < |queue| ==> queue[i] == delivered + i)
  }

  /** Executed and waiting messages are, in order, those of the calls numbered in `ids`. */
  ghost predicate PostsOk(ids: seq<nat>, calls: seq<Call>, execs: seq<Exec>, inbox: seq<Post>) {
    && |execs| + |inbox| == |ids|
    && (forall k :: 0 <= k < |ids| ==> ids[k] < |calls|)
    && (forall k :: 0 <= k < |execs| ==> execs[k].post == calls[ids[k]].post)
    && (forall k :: |execs| <= k < |ids| ==> inbox[k - |execs|] == calls[ids[k]].post)
  }

  /** Taken and waiting replies are, in order, those to the executed messages. */
  ghost predicate RepliesOk(execs: seq<Exec>, taken: seq<Reply>, outbox: seq<Reply>) {
    && |taken| + |outbox| == |execs|
    && (forall k :: 0 <= k < |taken| ==> taken[k] == ReplyTo(execs[k].post, execs[k].native))
    && (forall k :: |taken| <= k < |execs| ==> outbox[k - |taken|] == ReplyTo(execs[k].post, execs[k].native))
  }

  /** One closure, before (`result` is None) or after the reply at its position was delivered. */
  ghost predicate CallOk(c: Call, result: Option<Value>) {
    && (c.armed ==> Unreleased(c)) && Undefined !in c.post.args
    && (match c.promise
        case Pending => Unreleased(c)
        case Resolved(v) => c.answered && !c.rejected && result == Some(v)
        case TimedOut => c.rejected && !c.answered
        case PostFailed => !(c.rejected && c.answered))
    && (match result
        case None => !c.answered && c.got == []
        case Some(v) => !Unreleased(c) && c.got == if c.hasCallback then [v] else [])
  }

  function ResultAt(taken: seq<Reply>, delivered: nat, i: nat): Option<Value>
    requires delivered <= |taken|
  {
    if i < delivered then Some(taken[i].result) else None
  }

  ghost predicate CallsOk(calls: seq<Call>, taken: seq<Reply>, delivered: nat)
    requires delivered <= |taken|
  {
    forall i :: 0 <= i < |calls| ==> CallOk(calls[i], ResultAt(taken, delivered, i))
  }

  ghost predicate LockOk(phase: Phase, lock: int, calls: seq<Call>, inTurn: nat) {
    && lock == Count(calls, Unreleased) + inTurn
    && (phase.Drained? || phase.Gone? ==> Count(calls, Unreleased) == 0)
  }

  ghost predicate Inv(s: State, inTurn: nat) {
    && QueueOk(s.phase, s.queue, s.delivered, |s.calls|, |s.taken|)
    && PostsOk(PostedIds(s.calls), s.calls, s.execs, s.inbox)
    && RepliesOk(s.execs, s.taken, s.outbox)
    && CallsOk(s.calls, s.taken, s.delivered)
    && LockOk(s.phase, s.lock, s.calls, inTurn)
    && s.error == LastError(s.taken[..s.delivered])
  }

  // ----- positions

  lemma {:induction false} PostedIdsBounds(calls: seq<Call>)
    ensures forall k :: 0 <= k < |PostedIds(calls)| ==> k <= PostedIds(calls)[k] < |calls|
    ensures |PostedIds(calls)| + Count(calls, Failed) == |calls|
  {
    if calls != [] {
      PostedIdsBounds(calls[..|calls| - 1]);
    }
  }

  lemma {:induction false} PostedIdsAgree(a: seq<Call>, b: seq<Call>)
    requires |a| == |b| && forall i :: 0 <= i < |a| ==> Failed(a[i]) == Failed(b[i])
    ensures PostedIds(a) == PostedIds(b)
  {
    if a != [] {
      PostedIdsAgree(a[..|a| - 1], b[..|b| - 1]);
    }
  }

  lemma NoneFailed(calls: seq<Call>, k: nat)
    requires k < |calls| && |PostedIds(calls[..|calls| - 1])| == k && !Failed(calls[|calls| - 1])
    ensures k == |calls| - 1 <==> forall j :: 0 <= j <= k ==> !Failed(calls[j])
  {
    hide PostedIds, Count, Failed;
    var n := |calls| - 1;
    var prefix := calls[..n];
    PostedIdsBounds(prefix);
    if k == n {
      CountZero(prefix, Failed);
      assert forall j :: 0 <= j < n ==> calls[j] == prefix[j];
    } else {
      MoreFailed(prefix, k);
      assert forall j :: 0 <= j < n ==> calls[j] == prefix[j];
    }
  }

  /** Fewer posted messages than calls up to position k: one of these calls failed. */
  lemma MoreFailed(calls: seq<Call>, k: nat)
    requires |PostedIds(calls)| == k < |calls|
    ensures exists j :: 0 <= j <= k && Failed(calls[j])
  {
    hide PostedIds, Failed;
    CountSplit(calls, k + 1, Failed);
    PostedIdsBounds(calls);
    CountAtMost(calls[k + 1..], Failed);
    CountZero(calls[..k + 1], Failed);
    var j :| 0 <= j <= k && Failed(calls[..k + 1][j]);
    assert calls[j] == calls[..k + 1][j];
  }

  /** The k-th posted message is that of call k exactly when no post up to call k threw. */
  lemma {:induction false} PositionExact(calls: seq<Call>, k: nat)
    requires k < |PostedIds(calls)|
    ensures k < |calls|
    ensures PostedIds(calls)[k] == k <==> forall j :: 0 <= j <= k ==> !Failed(calls[j])
  {
    var n := |calls| - 1;
    PostedIdsBounds(calls);
    PostedIdsBounds(calls[..n]);
    if k < |PostedIds(calls[..n])| {
      PositionExact(calls[..n], k);
      assert forall j :: 0 <= j <= k ==> calls[..n][j] == calls[j];
    } else {
      assert PostedIds(calls)[k] == n;
      NoneFailed(calls, k);
    }
  }

  // ----- every step keeps the invariant

  lemma PostsGrow(calls: seq<Call>, c: Call, execs: seq<Exec>, inbox: seq<Post>)
    requires PostsOk(PostedIds(calls), calls, execs, inbox)
    ensures PostsOk(PostedIds(calls + [c]), calls + [c], execs, if Failed(c) then inbox else inbox + [c.post])
  {
    assert (calls + [c])[..|calls|] == calls;
  }

  lemma CallsGrow(calls: seq<Call>, c: Call, taken: seq<Reply>, delivered: nat)
    requires delivered <= |taken| && delivered <= |calls| && CallsOk(calls, taken, delivered) && CallOk(c, None)
    ensures CallsOk(calls + [c], taken, delivered)
  {
  }

  lemma InvokeInv(s: State, post: Post, hasCallback: bool, useTimeout: bool, inTurn: nat)
    requires Inv(s, inTurn)
    ensures Inv(Invoke(s, post, hasCallback, useTimeout), inTurn)
  {
    hide PostsOk, RepliesOk, CallsOk, LastError, PostedIds, PostThrows, TransferList;
    var t := Invoke(s, post, hasCallback, useTimeout);
    if t != s {
      var c := t.calls[|s.calls|];
      assert t.calls[..|s.calls|] == s.calls;
      PostsGrow(s.calls, c, s.execs, s.inbox);
      CallsGrow(s.calls, c, s.taken, s.delivered);
    }
  }

  lemma StartDisposeInv(s: State, inTurn: nat)
    requires Inv(s, inTurn)
    ensures Inv(StartDispose(s), inTurn)
  {
  }

  lemma {:induction false} ScriptInv(s: State, script: seq<Action>, inTurn: nat)
    requires Inv(s, inTurn)
    ensures Inv(RunScript(s, script), inTurn)
  {
    if script != [] {
      var n := |script| - 1;
      ScriptInv(s, script[..n], inTurn);
      ActInv(RunScript(s, script[..n]), script[n], inTurn);
    }
  }

  lemma ActInv(s: State, a: Action, inTurn: nat)
    requires Inv(s, inTurn)
    ensures Inv(Act(s, a), inTurn)
  {
    match a
    case Invocation(post, hasCallback, useTimeout) => InvokeInv(s, post, hasCallback, useTimeout, inTurn);
    case Dispose => StartDisposeInv(s, inTurn);
  }

  lemma PostsMove(ids: seq<nat>, calls: seq<Call>, execs: seq<Exec>, inbox: seq<Post>, native: Native)
    requires PostsOk(ids, calls, execs, inbox) && inbox != []
    ensures PostsOk(ids, calls, execs + [Exec(inbox[0], native)], inbox[1..])
  {
  }

  lemma RepliesGrow(execs: seq<Exec>, taken: seq<Reply>, outbox: seq<Reply>, x: Exec)
    requires RepliesOk(execs, taken, outbox)
    ensures RepliesOk(execs + [x], taken, outbox + [ReplyTo(x.post, x.native)])
  {
  }

  lemma RepliesMove(execs: seq<Exec>, taken: seq<Reply>, outbox: seq<Reply>)
    requires RepliesOk(execs, taken, outbox) && outbox != []
    ensures RepliesOk(execs, taken + [outbox[0]], outbox[1..])
  {
  }

  lemma WorkerStepInv(s: State, native: Native)
    requires Inv(s, 0) && s.inbox != []
    ensures Inv(WorkerStep(s, native), 0)
  {
    PostsMove(PostedIds(s.calls), s.calls, s.execs, s.inbox, native);
    RepliesGrow(s.execs, s.taken, s.outbox, Exec(s.inbox[0], native));
  }

  /** Changing a closure without touching its message or whether its post threw. */
  lemma PostsKept(calls: seq<Call>, i: nat, c: Call, execs: seq<Exec>, inbox: seq<Post>)
    requires i < |calls| && c.post == calls[i].post && Failed(c) == Failed(calls[i])
    requires PostsOk(PostedIds(calls), calls, execs, inbox)
    ensures PostsOk(PostedIds(calls[i := c]), calls[i := c], execs, inbox)
  {
    PostedIdsAgree(calls, calls[i := c]);
  }

  lemma TimeoutInv(s: State, id: nat)
    requires Inv(s, 0) && id < |s.calls| && s.calls[id].armed
    ensures Inv(Timeout(s, id), 0)
  {
    var t := Timeout(s, id);
    PostsKept(s.calls, id, t.calls[id], s.execs, s.inbox);
    CountUpdate(s.calls, id, t.calls[id], Unreleased);
    CountZero(s.calls, Unreleased);
  }

  /** The state in which the user's callback starts to run. */
  function Answered(s: State): State
    requires Enabled(s, Delivery([])) && s.queue != []
  {
    var id := s.queue[0];
    Shift(s).(calls := s.calls[id := Answer(s.calls[id], s.outbox[0].result)])
  }

  lemma CallsAnswered(calls: seq<Call>, taken: seq<Reply>, d: nat, reply: Reply)
    requires d == |taken| < |calls| && CallsOk(calls, taken, d)
    ensures CallsOk(calls[d := Answer(calls[d], reply.result)], taken + [reply], d + 1)
  {
    var calls' := calls[d := Answer(calls[d], reply.result)];
    forall i | 0 <= i < |calls|
      ensures CallOk(calls'[i], ResultAt(taken + [reply], d + 1, i))
    {
      assert CallOk(calls[i], ResultAt(taken, d, i));
    }
  }

  lemma LockAnswered(s: State, d: nat, v: Value)
    requires d < |s.calls| && CallOk(s.calls[d], None) && LockOk(s.phase, s.lock, s.calls, 0)
    ensures LockOk(s.phase, s.lock, s.calls[d := Answer(s.calls[d], v)], if s.calls[d].rejected then 0 else 1)
  {
    CountUpdate(s.calls, d, Answer(s.calls[d], v), Unreleased);
    CountZero(s.calls, Unreleased);
  }

  lemma LastErrorGrow(taken: seq<Reply>, reply: Reply)
    ensures LastError((taken + [reply])[..|taken| + 1]) == if reply.err.Some? then reply.err else LastError(taken)
  {
    assert (taken + [reply])[..|taken| + 1] == taken + [reply];
    assert (taken + [reply])[..|taken|] == taken;
  }

  lemma AnsweredInv(s: State)
    requires Inv(s, 0) && Enabled(s, Delivery([])) && s.queue != []
    ensures s.queue[0] == s.delivered
    ensures Inv(Answered(s), if s.calls[s.delivered].rejected then 0 else 1)
  {
    hide PostsOk, RepliesOk, LastError, PostedIds, Count;
    var d, reply, t := s.delivered, s.outbox[0], Answered(s);
    assert s.taken[..d] == s.taken;
    assert CallOk(s.calls[d], ResultAt(s.taken, d, d));
    CallsAnswered(s.calls, s.taken, d, reply);
    LockAnswered(s, d, reply.result);
    PostsKept(s.calls, d, Answer(s.calls[d], reply.result), s.execs, s.inbox);
    RepliesMove(s.execs, s.taken, s.outbox);
    LastErrorGrow(s.taken, reply);
  }

  lemma DeliverInv(s: State, script: seq<Action>)
    requires Inv(s, 0) && Enabled(s, Delivery(script))
    ensures Inv(Deliver(s, script), 0)
  {
    if s.IsDisposed() {
      RepliesMove(s.execs, s.taken, s.outbox);
      assert Shift(s).taken[..s.delivered] == s.taken[..s.delivered];
      assert CallsOk(s.calls, Shift(s).taken, s.delivered) by {
        assert forall i :: 0 <= i < s.delivered ==> Shift(s).taken[i] == s.taken[i];
        assert forall i :: ResultAt(Shift(s).taken, s.delivered, i) == ResultAt(s.taken, s.delivered, i);
      }
    } else {
      PostedIdsBounds(s.calls);
      assert s.queue != [];
      AnsweredInv(s);
      var inTurn := if s.calls[s.delivered].rejected then 0 else 1;
      if s.calls[s.delivered].hasCallback {
        ScriptInv(Answered(s), script, inTurn);
      }
    }
  }

  lemma StepInv(s: State, e: Event)
    requires Inv(s, 0) && Enabled(s, e)
    ensures Inv(Step(s, e), 0)
  {
    match e
    case Main(a) => ActInv(s, a, 0);
    case WorkerRuns(native) => WorkerStepInv(s, native);
    case Delivery(script) => DeliverInv(s, script);
    case TimeoutFires(id) => TimeoutInv(s, id);
    case SeesDrained =>
    case FinishDispose =>
  }

  lemma {:induction false} RunInv(s: State, es: seq<Event>)
    requires Inv(s, 0) && ValidRun(s, es)
    ensures Inv(Run(s, es), 0)
    decreases es
  {
    if es != [] {
      StepInv(s, es[0]);
      RunInv(Step(s, es[0]), es[1..]);
    }
  }

  lemma InitInv()
    ensures Inv(INIT, 0)
  {
  }
}
