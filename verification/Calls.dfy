/** What one call does to the handle, step by step: its acceptance, its timeout, its callback, and the
    reply of the worker (src/async-api.ts:117-260, src/async-worker.ts:42-80). */
module Calls {
  import opened Wire
  import opened Worker
  import opened Counting
  import opened Protocol
  import opened Invariant
  import opened Guarantees

  // ----- being accepted

  predicate SameBuffer(a: Value, b: Value) {
    a.View? && b.View? && a.buffer == b.buffer
  }

  /** A post throws exactly for a value that cannot be cloned, for a view of a buffer that is detached,
      and for two views of one buffer. */
  lemma PostThrowsExactly(detached: set<nat>, args: seq<Value>)
    ensures PostThrows(detached, args) <==>
            || (exists i :: 0 <= i < |args| && args[i] == Uncloneable)
            || (exists i :: 0 <= i < |args| && args[i].View? && args[i].buffer in detached)
            || (exists i, j :: 0 <= i < j < |args| && SameBuffer(args[i], args[j]))
  {
    var at := TransferListExact(args);
    var list := TransferList(args);
    if i, j :| 0 <= i < j < |args| && SameBuffer(args[i], args[j]) {
      assert i in at && j in at;
      var a :| 0 <= a < |at| && at[a] == i;
      var b :| 0 <= b < |at| && at[b] == j;
      assert list[a] == list[b];
    }
    if !Distinct(list) {
      var a, b :| 0 <= a < b < |list| && list[a] == list[b];
      assert at[a] < at[b] && SameBuffer(args[at[a]], args[at[b]]);
    }
  }

  /** A call is accepted exactly on a live handle and without undefined arguments. It then has its own
      closure, place in the queue and share of the lock, also if its post throws; the message is sent
      and its buffers are lost exactly when the post does not throw. */
  lemma InvocationExact(s: State, post: Post, hasCallback: bool, useTimeout: bool)
    ensures CallOutcome(s, post) ==
            match s.phase
            case Gone => RejectedAsDisposed
            case Live => if Undefined in post.args then ThrewUndefinedArgument else Promised(|s.calls|)
            case _ => ReturnedUndefined
    ensures var t := Step(s, Main(Invocation(post, hasCallback, useTimeout)));
            var threw := PostThrows(s.detached, post.args);
            if !s.phase.Live? || Undefined in post.args then t == s
            else
              && t == s.(lock := s.lock + 1, queue := s.queue + [|s.calls|],
                         calls := t.calls, inbox := t.inbox, detached := t.detached)
              && |t.calls| == |s.calls| + 1 && t.calls[..|s.calls|] == s.calls
              && var c := t.calls[|s.calls|];
                 && c.post == post && c.hasCallback == hasCallback && c.armed == useTimeout
                 && !c.rejected && !c.answered && c.got == []
                 && c.promise == (if threw then PostFailed else Pending)
                 && t.inbox == (if threw then s.inbox else s.inbox + [post])
                 && forall b :: b in t.detached <==>
                      || b in s.detached
                      || (!threw && exists i :: 0 <= i < |post.args| && post.args[i].View? && post.args[i].buffer == b)
  {
    hide PostThrows;
  }

  // ----- the timeout

  /** The timeout of call `id` can fire after a step exactly when it could before, and the step neither
      is its firing nor delivers the call's reply. */
  lemma TimerStep(s: State, e: Event, id: nat)
    requires Inv(s, 0) && Enabled(s, e) && id < |s.calls|
    ensures Enabled(Step(s, e), TimeoutFires(id)) <==>
            && Enabled(s, TimeoutFires(id)) && e != TimeoutFires(id)
            && !(e.Delivery? && !s.IsDisposed() && s.delivered == id)
  {
    hide Inv, RunScript, Act;
    match e
    case Main(a) => ActOnlyAddsCalls(s, a);
    case Delivery(script) =>
      if !s.IsDisposed() {
        NextAnswer(s);
        AnsweredDisarms(s, s.delivered);
        ScriptOnlyAddsCalls(Answered(s), script);
        assert Answered(s).calls[id] == Step(s, e).calls[id];
      }
    case _ =>
  }

  lemma AnsweredDisarms(s: State, d: nat)
    requires Inv(s, 0) && d < |s.calls|
    ensures s.calls[d].rejected ==> !s.calls[d].armed
  {
    assert CallOk(s.calls[d], ResultAt(s.taken, s.delivered, d));
  }

  /** The timeout of call `id` fires, or its reply is delivered, somewhere in a run. */
  ghost predicate SettledIn(s: State, es: seq<Event>, id: nat)
    requires ValidRun(s, es)
    decreases es
  {
    && es != []
    && (|| es[0] == TimeoutFires(id)
        || (es[0].Delivery? && !s.IsDisposed() && s.delivered == id)
        || SettledIn(Step(s, es[0]), es[1..], id))
  }

  lemma {:induction false} TimerRun(s: State, es: seq<Event>, id: nat)
    requires Inv(s, 0) && ValidRun(s, es) && id < |s.calls|
    ensures Enabled(Run(s, es), TimeoutFires(id)) <==> Enabled(s, TimeoutFires(id)) && !SettledIn(s, es, id)
    decreases es
  {
    hide Inv, Step;
    if es != [] {
      StepInv(s, es[0]);
      StepEvolves(s, es[0]);
      TimerStep(s, es[0], id);
      TimerRun(Step(s, es[0]), es[1..], id);
    }
  }

  /** The timeout of an accepted call can fire in exactly those later states before which neither it has
      fired nor the call was answered, if the call asked for one, and in none otherwise. */
  lemma TimeoutPending(s: State, post: Post, hasCallback: bool, useTimeout: bool, es: seq<Event>)
    requires Reachable(s) && s.phase.Live? && Undefined !in post.args
    requires ValidRun(Step(s, Main(Invocation(post, hasCallback, useTimeout))), es)
    ensures var t := Step(s, Main(Invocation(post, hasCallback, useTimeout)));
            Enabled(Run(t, es), TimeoutFires(|s.calls|)) <==> useTimeout && !SettledIn(t, es, |s.calls|)
  {
    var e := Main(Invocation(post, hasCallback, useTimeout));
    ReachableStep(s, e);
    ReachableInv(Step(s, e));
    InvocationExact(s, post, hasCallback, useTimeout);
    hide Inv, Reachable, Step, Run, ValidRun;
    TimerRun(Step(s, e), es, |s.calls|);
  }

  /** The firing rejects the promise, unless the post had rejected it, releases the lock and marks the call;
      everything else stays. */
  lemma TimeoutFiring(s: State, id: nat)
    requires Reachable(s) && Enabled(s, TimeoutFires(id))
    ensures var t, c := Step(s, TimeoutFires(id)), s.calls[id];
            && (c.promise.Pending? || c.promise.PostFailed?) && s.lock > 0
            && t == s.(lock := s.lock - 1, calls := s.calls[id := t.calls[id]])
            && t.calls[id].promise == (if c.promise.Pending? then TimedOut else PostFailed)
            && t.calls[id] == c.(promise := t.calls[id].promise, rejected := true, armed := false)
  {
    ReachableInv(s);
    assert CallOk(s.calls[id], ResultAt(s.taken, s.delivered, id));
    CountZero(s.calls, Unreleased);
  }

  /** `accept` with a timeout and a callback, before the late reply is delivered. */
  function TimedOutCall(post: Post): State {
    INIT.(queue := [0], calls := [Call(post, TimedOut, true, false, true, false, [])],
          outbox := [Reply(Num(7), None)], execs := [Exec(post, Returns(Num(7)))])
  }

  lemma LateReplyReached(post: Post)
    requires post == Post(Accept, [Num(3)])
    ensures Reachable(TimedOutCall(post))
  {
    StartReachable();
    NumPosts(post.args);
    hide Reachable, TransferList;
    var s1 := INIT.(lock := 1, queue := [0], inbox := [post],
                    calls := [Call(post, Pending, true, true, false, false, [])]);
    assert INIT.detached + SetOf([]) == {};
    assert Step(INIT, Main(Invocation(post, true, true))) == s1;
    ReachableStep(INIT, Main(Invocation(post, true, true)));
    var s2 := s1.(lock := 0, calls := [Call(post, TimedOut, true, false, true, false, [])]);
    assert Step(s1, TimeoutFires(0)) == s2;
    ReachableStep(s1, TimeoutFires(0));
    assert Step(s2, WorkerRuns(Returns(Num(7)))) == TimedOutCall(post);
    ReachableStep(s2, WorkerRuns(Returns(Num(7))));
  }

  lemma NumPosts(args: seq<Value>)
    requires args == [Num(3)]
    ensures TransferList(args) == [] && !PostThrows({}, args) && Undefined !in args
  {
    assert args[..0] == [] && args[0] == Num(3);
  }

  /** A run in which the reply comes after the timeout: the promise stays timed out and the lock free,
      and the callback gets the result. */
  lemma TimeoutThenReply()
    ensures exists s ::
              && Reachable(s) && Enabled(s, Delivery([])) && |s.calls| == 1
              && s.calls[0].promise == TimedOut && s.lock == 0 && s.calls[0].got == []
              && var t := Step(s, Delivery([]));
                 |t.calls| == 1 && t.calls[0].promise == TimedOut && t.lock == 0 && t.calls[0].got == [Num(7)]
  {
    var post := Post(Accept, [Num(3)]);
    LateReplyReached(post);
    hide Reachable;
    var s := TimedOutCall(post);
    assert Enabled(s, Delivery([]));
  }

  // ----- the callback

  /** A callback's actions happen in their order. */
  lemma {:induction false} ScriptInOrder(s: State, a: seq<Action>, b: seq<Action>)
    ensures RunScript(s, a + b) == RunScript(RunScript(s, a), b)
  {
    if b == [] {
      assert a + b == a;
    } else {
      var n := |b| - 1;
      ScriptInOrder(s, a, b[..n]);
      assert (a + b)[..|a| + n] == a + b[..n];
    }
  }

  /** Without a callback the delivery does nothing beyond settling the call. */
  lemma NoCallbackNoAction(s: State, script: seq<Action>)
    requires Reachable(s) && Enabled(s, Delivery(script)) && !s.IsDisposed()
    requires s.delivered < |s.calls| && !s.calls[s.delivered].hasCallback
    ensures Step(s, Delivery(script)) == Step(s, Delivery([]))
  {
    ReachableInv(s);
    NextAnswer(s);
    hide Inv, Reachable;
  }

  /** A callback runs before its call's share of the lock is released: a `dispose` from inside it drains,
      unless the call had timed out and no other is outstanding. */
  lemma DisposeInCallback(s: State)
    requires Reachable(s) && s.outbox != [] && s.phase.Live?
    ensures s.delivered < |s.calls| && Enabled(s, Delivery([Dispose]))
    ensures var d, t := s.calls[s.delivered], Step(s, Delivery([Dispose]));
            && t.lock == s.lock - (if d.rejected then 0 else 1)
            && t.phase == (if !d.hasCallback then Live else if d.rejected && s.lock == 0 then Gone else Draining)
  {
    ReachableInv(s);
    NextAnswer(s);
    LockPositive(s);
    OneAction(Answered(s), Dispose);
    hide Inv, Reachable, RunScript;
  }

  lemma LockPositive(s: State)
    requires Inv(s, 0) && s.delivered < |s.calls| && !s.IsDisposed()
    ensures s.lock >= 0 && (!s.calls[s.delivered].rejected ==> s.lock > 0)
  {
    CountZero(s.calls, Unreleased);
    assert CallOk(s.calls[s.delivered], ResultAt(s.taken, s.delivered, s.delivered));
  }

  /** A call made by a callback on a live handle is accepted in the same turn. */
  lemma InvokeInCallback(s: State, post: Post, hasCallback: bool, useTimeout: bool)
    requires Reachable(s) && s.outbox != [] && s.phase.Live? && Undefined !in post.args
    ensures s.delivered < |s.calls|
    ensures var a := Invocation(post, hasCallback, useTimeout);
            && Enabled(s, Delivery([a]))
            && var d, t := s.calls[s.delivered], Step(s, Delivery([a]));
               (d.hasCallback ==>
                  && |t.calls| == |s.calls| + 1 && t.calls[|s.calls|].post == post
                  && t.calls[|s.calls|].hasCallback == hasCallback && t.calls[|s.calls|].armed == useTimeout
                  && t.queue == s.queue[1..] + [|s.calls|]
                  && t.lock == s.lock + (if d.rejected then 1 else 0))
  {
    var a := Invocation(post, hasCallback, useTimeout);
    ReachableInv(s);
    NextAnswer(s);
    OneAction(Answered(s), a);
    hide Inv, Reachable, RunScript, PostThrows;
  }

  // ----- the worker's reply

  /** For every message the worker appends one reply: the native result, or -1 and the error. */
  lemma WorkerReplies(s: State, native: Native)
    requires Reachable(s) && s.inbox != []
    ensures var t := Step(s, WorkerRuns(native));
            && t.inbox == s.inbox[1..] && t.execs == s.execs + [Exec(s.inbox[0], native)]
            && t.outbox == s.outbox + [match native
                                       case Returns(v) => Reply(v, None)
                                       case Throws(m) => Reply(Num(-1), Some(m))]
  {
    ReachableInv(s);
    InboxDefined(s);
  }

  lemma InboxDefined(s: State)
    requires Inv(s, 0) && s.inbox != []
    ensures Undefined !in s.inbox[0].args
  {
    var i := PostedIds(s.calls)[|s.execs|];
    assert s.inbox[|s.execs| - |s.execs|] == s.calls[i].post;
    assert CallOk(s.calls[i], ResultAt(s.taken, s.delivered, i));
  }

  /** The path that the main thread never takes: a message with an undefined argument is answered
      without a result and without an error. */
  lemma UndefinedArgumentReply(post: Post, native: Native)
    requires Undefined in post.args
    ensures ReplyTo(post, native) == Reply(Undefined, None)
  {
  }

  // ----- dispose

  /** The first `dispose` drops the worker in the same turn exactly when the lock is free; with a taken lock
      it only starts the drain, and a later one does nothing. */
  lemma DisposeExact(s: State)
    ensures var t := Step(s, Main(Dispose));
            if !s.phase.Live? then t == s
            else if s.lock > 0 then t == s.(phase := Draining)
            else t == s.(phase := Gone, queue := [])
  {
  }
}
