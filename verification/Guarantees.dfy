/** What the call protocol guarantees over whole runs, from its invariant. */
module Guarantees {
  import opened Wire
  import opened Worker
  import opened Counting
  import opened Protocol
  import opened Invariant

  ghost predicate Reachable(s: State) {
    exists es :: ValidRun(INIT, es) && Run(INIT, es) == s
  }

  lemma ReachableInv(s: State)
    requires Reachable(s)
    ensures Inv(s, 0)
  {
    var es :| ValidRun(INIT, es) && Run(INIT, es) == s;
    InitInv();
    RunInv(INIT, es);
  }

  lemma {:induction false} RunExtend(s: State, es: seq<Event>, e: Event)
    requires ValidRun(s, es) && Enabled(Run(s, es), e)
    ensures ValidRun(s, es + [e]) && Run(s, es + [e]) == Step(Run(s, es), e)
    decreases es
  {
    if es == [] {
      assert ([e])[1..] == [];
    } else {
      RunExtend(Step(s, es[0]), es[1..], e);
      assert (es + [e])[1..] == es[1..] + [e];
    }
  }

  lemma ReachableStep(s: State, e: Event)
    requires Reachable(s) && Enabled(s, e)
    ensures Reachable(Step(s, e))
  {
    var es :| ValidRun(INIT, es) && Run(INIT, es) == s;
    RunExtend(INIT, es, e);
  }

  ghost predicate NoThrow(calls: seq<Call>) {
    forall j :: 0 <= j < |calls| ==> !Failed(calls[j])
  }

  // ----- pairing

  /** The k-th delivered reply settles the promise of call k, unless that was settled before, and
      runs its callback; it carries the result of the k-th posted message, and that message is
      the one of call k exactly when no `postMessage` threw for call k or an earlier one. */
  lemma PairingExact(s: State, k: nat)
    requires Reachable(s) && k < |s.calls|
    ensures s.delivered <= |s.taken|
    ensures var c := s.calls[k];
            && (c.promise.Resolved? <==> k < s.delivered && !c.rejected && !Failed(c))
            && (c.promise.Resolved? ==> c.promise == Resolved(s.taken[k].result))
            && c.got == if k < s.delivered && c.hasCallback then [s.taken[k].result] else []
    ensures k < s.delivered ==>
              var ids := PostedIds(s.calls);
              && k < |s.execs| && k < |ids| && ids[k] < |s.calls|
              && s.taken[k] == ReplyTo(s.calls[ids[k]].post, s.execs[k].native)
              && s.execs[k].post == s.calls[ids[k]].post
              && (ids[k] == k <==> forall j :: 0 <= j <= k ==> !Failed(s.calls[j]))
  {
    ReachableInv(s);
    assert CallOk(s.calls[k], ResultAt(s.taken, s.delivered, k));
    if k < s.delivered {
      PositionExact(s.calls, k);
    }
  }

  lemma {:induction false} IdentityPositions(calls: seq<Call>)
    requires NoThrow(calls)
    ensures |PostedIds(calls)| == |calls|
    ensures forall k :: 0 <= k < |calls| ==> PostedIds(calls)[k] == k
  {
    if calls != [] {
      IdentityPositions(calls[..|calls| - 1]);
    }
  }

  /** Until the worker is dropped: what is under way is, in the order of the calls, the replies in
      the outbox and then the messages in the inbox, one for each call from position `delivered`
      on among those whose post did not throw. The callback queue lists just those calls exactly
      when no post has thrown so far. */
  lemma QueueIsWhatIsInFlight(s: State)
    requires Reachable(s) && !s.IsDisposed()
    ensures var ids := PostedIds(s.calls);
            && |ids| == s.delivered + |s.outbox| + |s.inbox| && |s.execs| == s.delivered + |s.outbox|
            && (forall i :: 0 <= i < |ids| ==> ids[i] < |s.calls|)
            && (forall i :: 0 <= i < |s.outbox| ==>
                  s.outbox[i] == ReplyTo(s.calls[ids[s.delivered + i]].post, s.execs[s.delivered + i].native))
            && (forall i :: 0 <= i < |s.inbox| ==> s.inbox[i] == s.calls[ids[|s.execs| + i]].post)
            && (s.queue == ids[s.delivered..] <==> NoThrow(s.calls))
  {
    hide Inv, Reachable, PostsOk, RepliesOk, PostedIds, NoThrow, ReplyTo;
    ReachableInv(s);
    QueueList(s);
    InOrder(PostedIds(s.calls), s.calls, s.execs, s.inbox, s.taken, s.outbox);
  }

  lemma QueueList(s: State)
    requires Inv(s, 0) && !s.IsDisposed()
    ensures s.delivered == |s.taken| <= |PostedIds(s.calls)|
    ensures s.queue == PostedIds(s.calls)[s.delivered..] <==> NoThrow(s.calls)
    ensures PostsOk(PostedIds(s.calls), s.calls, s.execs, s.inbox) && RepliesOk(s.execs, s.taken, s.outbox)
  {
    hide CallsOk, LockOk, LastError;
    PostedIdsBounds(s.calls);
    CountZero(s.calls, Failed);
    if NoThrow(s.calls) {
      IdentityPositions(s.calls);
    }
  }

  lemma InOrder(ids: seq<nat>, calls: seq<Call>, execs: seq<Exec>, inbox: seq<Post>, taken: seq<Reply>,
                outbox: seq<Reply>)
    requires PostsOk(ids, calls, execs, inbox) && RepliesOk(execs, taken, outbox)
    ensures |ids| == |taken| + |outbox| + |inbox| && |execs| == |taken| + |outbox|
    ensures forall i :: 0 <= i < |ids| ==> ids[i] < |calls|
    ensures forall i :: 0 <= i < |outbox| ==>
              outbox[i] == ReplyTo(calls[ids[|taken| + i]].post, execs[|taken| + i].native)
    ensures forall i :: 0 <= i < |inbox| ==> inbox[i] == calls[ids[|execs| + i]].post
  {
    hide ReplyTo;
    var d, x := |taken|, |execs|;
    forall i | 0 <= i < |outbox| ensures outbox[i] == ReplyTo(calls[ids[d + i]].post, execs[d + i].native) {
      assert outbox[d + i - d] == ReplyTo(execs[d + i].post, execs[d + i].native);
    }
    forall i | 0 <= i < |inbox| ensures inbox[i] == calls[ids[x + i]].post {
      assert inbox[x + i - x] == calls[ids[x + i]].post;
    }
  }

  /** Why the condition is needed: call 1 writes the chunk that call 0 has transferred, so its
      `postMessage` throws. It is answered with the result of call 2, whose own callback then
      never runs and whose lock stays taken. */
  ghost predicate Misaligned(s: State) {
    && |s.calls| == 3 && s.inbox == [] && s.outbox == [] && s.lock == 1
    && s.calls[1].post == s.calls[0].post && s.calls[1].post.name.Write? && s.calls[1].got == [Num(7)]
    && s.calls[2].post.name.CreateSocket? && s.calls[2].got == [] && s.calls[2].promise.Pending?
    && |s.execs| == 2 && s.execs[1] == Exec(s.calls[2].post, Returns(Num(7)))
  }

  function Closure(post: Post, promise: Promise): Call {
    Call(post, promise, true, false, false, false, [])
  }

  lemma OneViewArgs(args: seq<Value>, fd: int, b: nat, bytes: seq<byte>)
    requires args == [Num(fd), View(b, bytes)]
    ensures TransferList(args) == [b] && Undefined !in args && Uncloneable !in args
  {
    assert args[..1] == [Num(fd)] && args[..1][..0] == [];
    assert TransferList(args[..1]) == [];
    assert forall i :: 0 <= i < |args| ==> args[i] == Num(fd) || args[i] == View(b, bytes);
  }

  lemma WriteTwice(chunk: Post)
    requires chunk == Post(Write, [Num(3), View(0, [1])])
    ensures Reachable(INIT.(lock := 2, queue := [0, 1], inbox := [chunk], detached := {0},
                            calls := [Closure(chunk, Pending), Closure(chunk, PostFailed)]))
  {
    OneViewArgs(chunk.args, 3, 0, [1]);
    hide Reachable, TransferList;
    assert chunk.args[0] == Num(3) && 0 in TransferList(chunk.args);
    var s1 := INIT.(lock := 1, queue := [0], inbox := [chunk], detached := {0}, calls := [Closure(chunk, Pending)]);
    assert Invoke(INIT, chunk, true, false) == s1;
    StartReachable();
    ReachableStep(INIT, Main(Invocation(chunk, true, false)));
    ReachableStep(s1, Main(Invocation(chunk, true, false)));
  }

  lemma StartReachable()
    ensures Reachable(INIT)
  {
    assert ValidRun(INIT, []) && Run(INIT, []) == INIT;
  }

  /** The worker has answered both messages, with 1 and with 7. */
  function BothAnswered(chunk: Post, good: Post): State {
    INIT.(lock := 3, queue := [0, 1, 2], detached := {0},
          calls := [Closure(chunk, Pending), Closure(chunk, PostFailed), Closure(good, Pending)],
          outbox := [Reply(Num(1), None), Reply(Num(7), None)],
          execs := [Exec(chunk, Returns(Num(1))), Exec(good, Returns(Num(7)))])
  }

  lemma AnswersReached(chunk: Post, good: Post)
    requires chunk == Post(Write, [Num(3), View(0, [1])]) && good == Post(CreateSocket, [Flag(false)])
    ensures Reachable(BothAnswered(chunk, good))
  {
    WriteTwice(chunk);
    OneViewArgs(chunk.args, 3, 0, [1]);
    hide Reachable, TransferList;
    var s2 := INIT.(lock := 2, queue := [0, 1], inbox := [chunk], detached := {0},
                    calls := [Closure(chunk, Pending), Closure(chunk, PostFailed)]);
    var s3 := s2.(lock := 3, queue := [0, 1, 2], inbox := [chunk, good], calls := s2.calls + [Closure(good, Pending)]);
    FlagPosts(good.args, s2.detached);
    ReachableStep(s2, Main(Invocation(good, true, false)));
    ReachableStep(s3, WorkerRuns(Returns(Num(1))));
    var s4 := WorkerStep(s3, Returns(Num(1)));
    ReachableStep(s4, WorkerRuns(Returns(Num(7))));
    assert WorkerStep(s4, Returns(Num(7))) == BothAnswered(chunk, good);
  }

  lemma MisalignedAfterThrow()
    ensures exists s :: Reachable(s) && Misaligned(s)
  {
    var chunk, good := Post(Write, [Num(3), View(0, [1])]), Post(CreateSocket, [Flag(false)]);
    AnswersReached(chunk, good);
    hide Reachable;
    var s5 := BothAnswered(chunk, good);
    ReachableStep(s5, Delivery([]));
    var s6 := Deliver(s5, []);
    ReachableStep(s6, Delivery([]));
    assert Misaligned(Deliver(s6, []));
  }

  lemma FlagPosts(args: seq<Value>, detached: set<nat>)
    requires args == [Flag(false)]
    ensures TransferList(args) == [] && !PostThrows(detached, args) && Undefined !in args && SetOf([]) == {}
  {
    assert args[..0] == [] && args[0] == Flag(false);
  }

  // ----- the error slot

  lemma {:induction false} LastErrorMeans(replies: seq<Reply>, m: string)
    ensures LastError(replies) == Some(m) <==>
            exists k :: 0 <= k < |replies| && replies[k].err == Some(m) &&
              forall j :: k < j < |replies| ==> replies[j].err.None?
    ensures LastError(replies).None? <==> forall j :: 0 <= j < |replies| ==> replies[j].err.None?
  {
    if replies != [] {
      var n := |replies| - 1;
      LastErrorMeans(replies[..n], m);
      assert forall j :: 0 <= j < n ==> replies[..n][j] == replies[j];
      if replies[n].err.None? && LastError(replies) == Some(m) {
        var k :| 0 <= k < n && replies[..n][k].err == Some(m) && forall j :: k < j < n ==> replies[..n][j].err.None?;
        assert replies[k].err == Some(m);
      }
    }
  }

  lemma DeliveredError(s: State, k: nat)
    requires Inv(s, 0) && k < s.delivered
    ensures k < |s.execs| && k < |s.taken|
    ensures s.taken[k].err == match s.execs[k].native case Returns(_) => None case Throws(e) => Some(e)
  {
    var i := PostedIds(s.calls)[k];
    assert CallOk(s.calls[i], ResultAt(s.taken, s.delivered, i));
  }

  /** `getError()` is the message of the latest delivered call that made the native binding throw. */
  lemma ErrorSlot(s: State, m: string)
    requires Reachable(s)
    ensures s.delivered <= |s.execs|
    ensures s.error == Some(m) <==>
              exists k :: 0 <= k < s.delivered && s.execs[k].native == Throws(m) &&
                forall j :: k < j < s.delivered ==> s.execs[j].native.Returns?
    ensures s.error.None? <==> forall k :: 0 <= k < s.delivered ==> s.execs[k].native.Returns?
  {
    ReachableInv(s);
    var replies := s.taken[..s.delivered];
    LastErrorMeans(replies, m);
    forall k | 0 <= k < s.delivered
      ensures replies[k].err == match s.execs[k].native case Returns(_) => None case Throws(e) => Some(e)
    {
      DeliveredError(s, k);
    }
    hide LastError, Inv, Reachable;
    if k :| 0 <= k < s.delivered && replies[k].err == Some(m) &&
            forall j :: k < j < s.delivered ==> replies[j].err.None?
    {
      assert s.execs[k].native == Throws(m);
    }
    if k :| 0 <= k < s.delivered && s.execs[k].native == Throws(m) &&
            forall j :: k < j < s.delivered ==> s.execs[j].native.Returns?
    {
      assert replies[k].err == Some(m);
    }
  }

  // ----- the lock counter

  lemma {:induction false} UnreleasedSplit(calls: seq<Call>)
    requires forall i :: 0 <= i < |calls| && !Failed(calls[i]) ==> (Unreleased(calls[i]) <==> Unsettled(calls[i]))
    ensures Count(calls, Unreleased) == Count(calls, Unsettled) + Count(calls, Leaked)
  {
    if calls != [] {
      var prefix := calls[..|calls| - 1];
      assert forall i :: 0 <= i < |prefix| ==> prefix[i] == calls[i];
      UnreleasedSplit(prefix);
    }
  }

  /** Between turns the lock level is the number of unsettled promises plus the calls whose post
      threw and whose timeout has not fired; so it is never negative, and it is exactly the number
      of unsettled promises when no post threw. */
  lemma LockCounts(s: State)
    requires Reachable(s)
    ensures s.lock == Count(s.calls, Unsettled) + Count(s.calls, Leaked)
    ensures (NoThrow(s.calls) ==> s.lock == Count(s.calls, Unsettled))
  {
    ReachableInv(s);
    forall i | 0 <= i < |s.calls| && !Failed(s.calls[i])
      ensures Unreleased(s.calls[i]) <==> Unsettled(s.calls[i])
    {
      assert CallOk(s.calls[i], ResultAt(s.taken, s.delivered, i));
    }
    UnreleasedSplit(s.calls);
    CountZero(s.calls, Leaked);
  }

  // ----- settling

  /** How a closure may change: a settled promise keeps its value and the user's callback
      is given at most one result, ever. */
  ghost predicate Evolves(a: Call, b: Call) {
    && b.post == a.post && b.hasCallback == a.hasCallback && Failed(b) == Failed(a)
    && (!a.promise.Pending? ==> b.promise == a.promise)
    && a.got <= b.got && |b.got| <= 1
  }

  /** No timeout is or was set on the call. */
  predicate Patient(c: Call) { !c.armed && !c.rejected }

  ghost predicate SamePosts(a: seq<Call>, b: seq<Call>) {
    && |a| <= |b|
    && forall i :: 0 <= i < |a| ==>
         b[i].post == a[i].post && b[i].hasCallback == a[i].hasCallback && (Patient(a[i]) ==> Patient(b[i]))
  }

  ghost predicate AllEvolve(a: seq<Call>, b: seq<Call>) {
    |a| <= |b| && forall i :: 0 <= i < |a| ==> Evolves(a[i], b[i])
  }

  lemma {:induction false} ScriptOnlyAddsCalls(s: State, script: seq<Action>)
    ensures s.calls <= RunScript(s, script).calls
    ensures s.StartedToDispose() ==> RunScript(s, script).calls == s.calls
    ensures s.StartedToDispose() ==> RunScript(s, script) == s
  {
    if script != [] {
      ScriptOnlyAddsCalls(s, script[..|script| - 1]);
    }
  }

  lemma ActKeepsHistory(s: State, a: Action)
    ensures var t := Act(s, a);
            && t.taken == s.taken && t.delivered == s.delivered && t.execs == s.execs && t.outbox == s.outbox
            && s.detached <= t.detached
            && (s.StartedToDispose() ==> t.StartedToDispose())
            && (s.IsDisposed() ==> t.IsDisposed())
  {
    hide PostThrows, TransferList;
  }

  /** What a callback does leaves the channels' history alone. */
  lemma {:induction false} ScriptKeepsHistory(s: State, script: seq<Action>)
    ensures var t := RunScript(s, script);
            && t.taken == s.taken && t.delivered == s.delivered && t.execs == s.execs && t.outbox == s.outbox
            && s.detached <= t.detached
            && (s.StartedToDispose() ==> t.StartedToDispose())
  {
    if script != [] {
      ScriptKeepsHistory(s, script[..|script| - 1]);
      ActKeepsHistory(RunScript(s, script[..|script| - 1]), script[|script| - 1]);
      hide Act;
    }
  }

  /** How one step extends the history of deliveries. */
  lemma StepHistory(s: State, e: Event)
    requires Inv(s, 0) && Enabled(s, e)
    ensures var t := Step(s, e);
            && (e.Delivery? ==>
                  && t.taken == s.taken + [s.outbox[0]] && t.outbox == s.outbox[1..]
                  && t.delivered == s.delivered + (if s.IsDisposed() then 0 else 1))
            && (!e.Delivery? ==> t.taken == s.taken && t.delivered == s.delivered)
            && (e.Delivery? && !s.IsDisposed() ==>
                  && s.queue != [] && s.queue[0] == s.delivered < |s.calls|
                  && (!s.calls[s.delivered].hasCallback ==> |t.calls| == |s.calls|))
            && t.execs == s.execs + (if e.WorkerRuns? then [Exec(s.inbox[0], e.native)] else [])
            && (s.StartedToDispose() ==> t.StartedToDispose())
            && (s.IsDisposed() ==> t.IsDisposed())
  {
    hide Inv, RunScript, Invoke;
    match e
    case Delivery(script) =>
      if !s.IsDisposed() {
        NextAnswer(s);
        ScriptKeepsHistory(Answered(s), script);
      }
    case Main(a) => ActKeepsHistory(s, a);
    case _ =>
  }

  /** A reply always finds the callback of the call at position `delivered`. */
  lemma NextAnswer(s: State)
    requires Inv(s, 0) && s.outbox != [] && !s.IsDisposed()
    ensures s.queue != [] && s.queue[0] == s.delivered < |s.calls|
  {
    hide CallsOk, LockOk, LastError;
    PostedIdsBounds(s.calls);
  }

  lemma AtMostOneResult(s: State, i: nat)
    requires Inv(s, 0) && i < |s.calls|
    ensures |s.calls[i].got| <= 1
    ensures !s.IsDisposed() && s.delivered <= i ==> s.calls[i].got == []
  {
    assert CallOk(s.calls[i], ResultAt(s.taken, s.delivered, i));
  }

  lemma StepEvolves(s: State, e: Event)
    requires Inv(s, 0) && Enabled(s, e)
    ensures AllEvolve(s.calls, Step(s, e).calls) && SamePosts(s.calls, Step(s, e).calls)
  {
    hide Inv, RunScript, Act;
    forall i | 0 <= i < |s.calls| ensures |s.calls[i].got| <= 1 {
      AtMostOneResult(s, i);
    }
    match e
    case Main(a) => ActOnlyAddsCalls(s, a);
    case Delivery(script) =>
      if !s.IsDisposed() {
        NextAnswer(s);
        AtMostOneResult(s, s.delivered);
        ScriptOnlyAddsCalls(Answered(s), script);
        assert AllEvolve(s.calls, Answered(s).calls);
      }
    case _ =>
  }

  lemma ActOnlyAddsCalls(s: State, a: Action)
    ensures s.calls <= Act(s, a).calls
  {
    hide PostThrows, TransferList;
  }

  lemma {:induction false} RunEvolves(s: State, es: seq<Event>)
    requires Inv(s, 0) && ValidRun(s, es)
    ensures AllEvolve(s.calls, Run(s, es).calls)
    decreases es
  {
    forall i | 0 <= i < |s.calls| ensures |s.calls[i].got| <= 1 {
      AtMostOneResult(s, i);
    }
    if es != [] {
      var t := Step(s, es[0]);
      StepInv(s, es[0]);
      StepEvolves(s, es[0]);
      RunEvolves(t, es[1..]);
      forall i | 0 <= i < |s.calls| ensures Evolves(s.calls[i], Run(s, es).calls[i]) {
        assert Evolves(s.calls[i], t.calls[i]) && Evolves(t.calls[i], Run(t, es[1..]).calls[i]);
      }
    }
  }

  /** Whatever happens later, a settled promise is settled for good and a callback runs at most once. */
  lemma SettlesOnce(s: State, es: seq<Event>)
    requires Reachable(s) && ValidRun(s, es)
    ensures AllEvolve(s.calls, Run(s, es).calls)
  {
    ReachableInv(s);
    RunEvolves(s, es);
  }

  /** A reply that arrives after the timeout still runs the callback, and beyond what that
      callback itself does it changes neither the promise nor the lock. */
  lemma LateReply(s: State, script: seq<Action>)
    requires Reachable(s) && Enabled(s, Delivery(script)) && !s.IsDisposed()
    requires s.delivered < |s.calls| && s.calls[s.delivered].rejected
    ensures var d := s.delivered; var t := Deliver(s, script);
            && |s.calls| <= |t.calls|
            && t.calls[..|s.calls|] ==
               s.calls[d := s.calls[d].(got := if s.calls[d].hasCallback then [s.outbox[0].result] else [])]
            && (s.StartedToDispose() || script == [] ==> t.calls == t.calls[..|s.calls|] && t.lock == s.lock)
  {
    hide Inv, Reachable, Step;
    var d := s.delivered;
    ReachableInv(s);
    StepHistory(s, Delivery(script));
    AtMostOneResult(s, d);
    ScriptOnlyAddsCalls(Answered(s), script);
    assert Deliver(s, script).calls[..|s.calls|] == Answered(s).calls;
    assert [] + [s.outbox[0].result] == [s.outbox[0].result];
  }
}
