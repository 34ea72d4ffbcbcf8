/** When the second argument of `onWrite`, which is named an index of a chunk but counts the calls
    (src/async-write-modes.ts:100, 121-127), is the index of the chunk that the call is about. */
module WriteModesIndex {
  import opened Wire
  import opened Counting
  import opened Protocol
  import opened Invariant
  import opened Guarantees
  import opened Tools
  import opened WriteModes
  import opened WriteModesInvariant
  import opened WriteModesGuarantees
  import opened EndToEnd
  import opened WriteModesReports

  // ----- counting reports and failures

  /** How many of the settled writes failed. */
  function Failures(oks: seq<bool>): (n: int)
    ensures n == 0 <==> AllOk(oks)
    ensures n >= 0 && n == |oks| - |Successes(oks)|
  {
    if oks == [] then 0
    else
      var n := |oks| - 1;
      assert forall j :: 0 <= j < n ==> oks[..n][j] == oks[j];
      Failures(oks[..n]) + (if oks[n] then 0 else 1)
  }

  lemma {:induction false} ReportsAdd(sources: seq<Source>)
    ensures |sources| == |ChunksOf(sources, true)| + |ChunksOf(sources, false)|
  {
    if sources != [] {
      ReportsAdd(sources[..|sources| - 1]);
    }
  }

  /** The position of report i among the reports of its kind. */
  lemma {:induction false} ReportAt(sources: seq<Source>, i: nat)
    requires i < |sources|
    ensures var kind := ChunksOf(sources, sources[i].posted);
            var before := |ChunksOf(sources[..i], sources[i].posted)|;
            before < |kind| && kind[before] == sources[i].chunk
  {
    var n := |sources| - 1;
    if i < n {
      ReportAt(sources[..n], i);
      assert sources[..n][..i] == sources[..i];
    }
  }

  lemma {:induction false} SuccessAt(oks: seq<bool>, j: nat)
    requires j < |Successes(oks)|
    ensures var k := Successes(oks)[j]; k < |oks| && oks[k] && |Successes(oks[..k])| == j
  {
    var n := |oks| - 1;
    if j < |Successes(oks[..n])| {
      SuccessAt(oks[..n], j);
      assert oks[..n][..Successes(oks)[j]] == oks[..Successes(oks)[j]];
    }
  }

  lemma ReportCount(c: Config, s: Writer)
    requires WriterInv(c, s)
    ensures |s.log| == |s.sources| == |Successes(s.oks)| + s.skipped
    ensures !s.rpc.IsDisposed() ==> s.chunkIndex == Posted(s) + s.skipped
  {
    InvBase(c, s);
    hide Base, WriterInv, ChunksOf, Successes, Posted;
    ReportsAdd(s.sources);
  }

  // ----- every report of a run

  /** In every run of either writer: the call of `onWrite` for a posted chunk carries the index of that
      chunk exactly when as many writes before it failed as unposted chunks had been reported; the call
      for an unposted chunk exactly when all posted writes had been reported. */
  lemma IndexIsChunk(c: Config, s: Writer, i: nat)
    requires WriterReachable(c, s) && i < |s.log|
    ensures |s.log| == |s.sources| && s.log[i].1 == i
    ensures var k, before := s.sources[i].chunk, s.sources[..i];
            && (s.sources[i].posted ==>
                  k < |s.oks| && (s.log[i].1 == k <==> Failures(s.oks[..k]) == |ChunksOf(before, false)|))
            && (!s.sources[i].posted ==> (s.log[i].1 == k <==> |ChunksOf(before, true)| == Posted(s)))
  {
    WriterReachableInv(c, s);
    InvBase(c, s);
    hide WriterReachable, WriterInv, Base, ChunksOf, Successes, Failures, Posted;
    var before := s.sources[..i];
    ReportsAdd(before);
    ReportAt(s.sources, i);
    if s.sources[i].posted {
      SuccessAt(s.oks, |ChunksOf(before, true)|);
    }
  }

  // ----- one report at a time

  lemma OwnOutstanding(c: Config, s: Writer, e: WriterEvent)
    requires WriterReachable(c, s) && WriteModes.Enabled(s, e) && Benign(c, s, e) && OwnDelivery(s, e)
    ensures |s.oks| < Posted(s) <= |c.chunks|
    ensures !c.explicit ==> s.skipped == 0
  {
    ReachableBase(c, s);
    BaseFacts(c, s);
    OwnSettled(c, s, e);
    if !c.explicit {
      YieldingReachableInv(c, s);
    }
    hide WriterReachable, Base, Reported, Posted, Mid, Benign;
  }

  /** The reply to a successful write of chunk k makes the call (length of k, number of the call). That
      number is k exactly when as many earlier writes failed as chunks have been skipped; for the
      yielding loop, exactly when no earlier write failed. */
  lemma IndexOnDelivery(c: Config, s: Writer, e: WriterEvent)
    requires WriterReachable(c, s) && WriteModes.Enabled(s, e) && Benign(c, s, e)
    requires OwnDelivery(s, e) && s.rpc.outbox[0].result != SRT_ERROR
    ensures var k, m := |s.oks|, Mid(c, s, e);
            && k < |c.chunks| && m.oks == s.oks + [true]
            && m.log == s.log + [(c.Length(k), |s.log|)] && m.sources == s.sources + [Source(k, true)]
            && (|s.log| == k <==> Failures(s.oks) == s.skipped)
            && (!c.explicit ==> (|s.log| == k <==> AllOk(s.oks)))
  {
    OwnOutstanding(c, s, e);
    WriterReachableInv(c, s);
    ReportCount(c, s);
    ReachableBase(c, s);
    hide WriterReachable, WriterInv, Base, Successes, Failures, AllOk, Posted, Mid, Benign;
    OwnSettled(c, s, e);
  }

  /** `onWrite` acts in the turn of the reply, after the share of the lock is released: when it disposes of a
      live handle, the worker is dropped in that turn exactly if no other call was outstanding. */
  lemma OnWriteActs(c: Config, s: Writer, e: WriterEvent)
    requires WriterReachable(c, s) && WriteModes.Enabled(s, e) && Benign(c, s, e) && s.rpc.phase.Live?
    requires OwnDelivery(s, e) && s.rpc.outbox[0].result != SRT_ERROR && e.e.script == [Dispose]
    ensures Mid(c, s, e).rpc.phase == if s.rpc.lock > 1 then Draining else Gone
  {
    ReachableBase(c, s);
    OwnTurn(c, s, e);
    hide WriterReachable, Base, Benign;
    OneAction(Protocol.Step(s.rpc, e.e), Dispose);
    hide RunScript;
  }

  lemma OwnTurn(c: Config, s: Writer, e: WriterEvent)
    requires Base(c, s) && WriteModes.Enabled(s, e) && OwnDelivery(s, e) && s.rpc.phase.Live?
    ensures var rpc := Protocol.Step(s.rpc, e.e); rpc.phase.Live? && rpc.lock == s.rpc.lock - 1
    ensures s.owner[s.rpc.delivered].value < |c.chunks|
  {
    NextAnswer(s.rpc);
    OwnFacts(c, s.rpc.calls, s.owner, s.rpc.delivered);
    OwnPatient(c, s.rpc.calls, s.owner, s.rpc.delivered);
    hide Base, Inv, OwnerOk, RunScript;
  }

  lemma OwnPatient(c: Config, calls: seq<Call>, owner: seq<Option<nat>>, i: nat)
    requires OwnerOk(c, calls, owner) && i < |owner| && owner[i].Some?
    ensures |owner| == |calls| && !calls[i].rejected
  {
  }

  function SkippedSources(first: nat, n: nat): seq<Source> {
    seq(n, j requires 0 <= j < n => Source(first + j, false))
  }

  lemma {:induction false} BatchSources(c: Config, s: Writer, m: nat)
    requires s.rpc.StartedToDispose() && !s.rpc.IsDisposed() && s.chunkIndex <= |c.chunks|
    ensures var t := Writes(c, s, m);
            && t.rpc == s.rpc && s.chunkIndex <= t.chunkIndex <= |c.chunks|
            && t.skipped - s.skipped == t.chunkIndex - s.chunkIndex
            && t.sources == s.sources + SkippedSources(s.chunkIndex, t.chunkIndex - s.chunkIndex)
  {
    hide WriteOne;
    if m > 0 {
      BatchSources(c, s, m - 1);
      var t := Writes(c, s, m - 1);
      if t.chunkIndex < |c.chunks| {
        OneSource(c, t);
      }
    }
  }

  lemma OneSource(c: Config, s: Writer)
    requires s.rpc.StartedToDispose() && !s.rpc.IsDisposed() && s.chunkIndex < |c.chunks|
    ensures var t := WriteOne(c, s);
            && t.rpc == s.rpc && t.chunkIndex == s.chunkIndex + 1 && t.skipped == s.skipped + 1
            && t.sources == s.sources + [Source(s.chunkIndex, false)]
  {
  }

  lemma SkippingStep(c: Config, s: Writer, e: WriterEvent)
    requires WriteModes.Enabled(s, e) && SkipsAt(c, s, e)
    ensures var m, t := Mid(c, s, e), WriteModes.Step(c, s, e);
            m.skipped <= t.skipped && t.sources == m.sources + SkippedSources(m.chunkIndex, t.skipped - m.skipped)
  {
    hide Mid, Writes;
    var m := Mid(c, s, e);
    var interval := m.interval && m.chunkIndex + c.writesPerTick <= |c.chunks|;
    BatchSources(c, m.(ticks := m.ticks + 1, interval := interval), c.writesPerTick);
    BatchSources(c, m, |c.chunks| - m.chunkIndex);
  }

  /** A step that reports unposted chunks reports the next ones in order. Their indices are right exactly
      when every posted write has settled and succeeded, which the yielding loop always has waited for. */
  lemma IndexOnSkip(c: Config, s: Writer, e: WriterEvent)
    requires WriterReachable(c, s) && WriteModes.Enabled(s, e) && Benign(c, s, e) && SkipsAt(c, s, e)
    ensures var m, t := Mid(c, s, e), WriteModes.Step(c, s, e);
            && m.skipped < t.skipped && |m.log| == |m.sources|
            && t.sources == m.sources + SkippedSources(m.chunkIndex, t.skipped - m.skipped)
            && (|m.log| == m.chunkIndex <==> |Successes(m.oks)| == Posted(m))
            && (!c.explicit ==> |Successes(m.oks)| == Posted(m))
  {
    WriterReachableInv(c, s);
    StepSkips(c, s, e);
    SkippingStep(c, s, e);
    MidCounts(c, s, e);
    if !c.explicit {
      ResumedAllWell(c, s, e);
    }
  }

  lemma MidCounts(c: Config, s: Writer, e: WriterEvent)
    requires WriterInv(c, s) && WriteModes.Enabled(s, e) && Benign(c, s, e)
    ensures var m := Mid(c, s, e);
            && m.skipped == s.skipped && |m.log| == |m.sources| == |Successes(m.oks)| + m.skipped
            && (!m.rpc.IsDisposed() ==> m.chunkIndex == Posted(m) + m.skipped)
  {
    InvBase(c, s);
    MidReports(c, s, e);
    MidSkips(c, s, e);
    hide Base, WriterInv, ChunksOf, Successes, Posted, Mid, Benign;
    ReportsAdd(Mid(c, s, e).sources);
  }

  /** The yielding loop goes on only when everything it posted has succeeded. */
  lemma ResumedAllWell(c: Config, s: Writer, e: WriterEvent)
    requires WriterInv(c, s) && !c.explicit && WriteModes.Enabled(s, e) && Benign(c, s, e) && SkipsAt(c, s, e)
    ensures |Successes(Mid(c, s, e).oks)| == Posted(Mid(c, s, e))
  {
    InvBase(c, s);
    if s.interval {
      IntervalExplicit(c, s);
    }
    RunningAllOk(c, s);
    MidCounts(c, s, e);
    hide Base, WriterInv, Successes, Failures, FirstBad, AllOk, Posted, Mid, Benign;
    OwnSettled(c, s, e);
    FirstBadNext(s.oks, true);
    assert Failures(s.oks + [true]) >= 0;
  }

  lemma RunningAllOk(c: Config, s: Writer)
    requires WriterInv(c, s) && !c.explicit && s.status.Running?
    ensures AllOk(s.oks) && s.skipped == 0
  {
    hide Base, Reported, Scheduled, ReportsOk, Posted;
  }

  // ----- steps of the runs below

  lemma WorkerTurnReached(c: Config, s: Writer, native: Native, t: Writer)
    requires WriterReachable(c, s) && s.rpc.inbox != [] && t == s.(rpc := WorkerStep(s.rpc, native))
    ensures WriterReachable(c, t)
  {
    hide WriterReachable, Base, NoThrow, Untouched, WriteModes.Step, WriteModes.Enabled, Benign;
    ReachableBase(c, s);
    BaseAttached(c, s);
    WorkerTurnStep(c, s, native, t);
    WriterReachableStep(c, s, Rpc(WorkerRuns(native)));
  }

  lemma WorkerTurnStep(c: Config, s: Writer, native: Native, t: Writer)
    requires |s.owner| == |s.rpc.calls| && NoThrow(s.rpc.calls) && Untouched(c, s)
    requires s.rpc.inbox != [] && t == s.(rpc := WorkerStep(s.rpc, native))
    ensures var e := Rpc(WorkerRuns(native));
            WriteModes.Enabled(s, e) && Benign(c, s, e) && WriteModes.Step(c, s, e) == t
  {
    hide RunScript, Settled, Loop, IntervalTick;
    assert Pad(s.owner, |s.owner|, None) == s.owner;
  }

  lemma BaseAttached(c: Config, s: Writer)
    requires Base(c, s)
    ensures |s.owner| == |s.rpc.calls| && NoThrow(s.rpc.calls) && Untouched(c, s)
  {
    hide Inv, OksOk;
  }

  /** The interval writer does nothing more in the turn of a reply. */
  lemma SettlingStep(c: Config, s: Writer, e: WriterEvent)
    requires c.explicit && WriteModes.Enabled(s, e) && OwnDelivery(s, e)
    ensures WriteModes.Step(c, s, e) == Mid(c, s, e)
  {
    hide Mid;
  }

  lemma SettledReached(c: Config, s: Writer, e: WriterEvent)
    requires c.explicit && WriterReachable(c, s) && WriteModes.Enabled(s, e) && Benign(c, s, e)
    requires OwnDelivery(s, e) && s.rpc.outbox[0].result != SRT_ERROR
    ensures var k, t := |s.oks|, WriteModes.Step(c, s, e);
            && WriterReachable(c, t) && k < |c.chunks| && t.oks == s.oks + [true] && t.skipped == s.skipped
            && t.log == s.log + [(c.Length(k), |s.log|)] && t.sources == s.sources + [Source(k, true)]
  {
    SettlingStep(c, s, e);
    MidSame(c, s, e);
    hide WriterReachable, WriteModes.Step, Mid, Benign, WriteModes.Enabled, OwnDelivery, AllOk, Failures;
    IndexOnDelivery(c, s, e);
    WriterReachableStep(c, s, e);
  }

  // ----- a run without failures in which the indices are swapped

  /** The handle was disposed after the first of two posts, and the interval has fired again. */
  function OneSkipped(): Writer {
    OnePosted(true, Draining).(chunkIndex := 2, ticks := 2, skipped := 1, log := [(1, 0)], chunkWrittenIdx := 1,
                               sources := [Source(1, false)])
  }

  lemma OneSkippedReached()
    ensures WriterReachable(TwoChunks(true), OneSkipped())
  {
    var c, s := TwoChunks(true), OnePosted(true, Draining);
    DisposedAfterOne(true);
    hide WriterReachable;
    IntervalOfOne(c, s);
    assert WriteOne(c, s.(ticks := 2)) == OneSkipped();
    WriterReachableStep(c, s, IntervalFires);
  }

  /** The reply to the posted write is under way. */
  function SkippedReplied(): Writer {
    OneSkipped().(rpc := Replied().rpc)
  }

  lemma SkippedRepliedReached()
    ensures WriterReachable(TwoChunks(true), SkippedReplied())
  {
    OneSkippedReached();
    hide WriterReachable;
    assert OneSkipped().rpc.inbox[0].args[0] == Num(3);
    WorkerTurnReached(TwoChunks(true), OneSkipped(), Returns(Num(5)), SkippedReplied());
  }

  lemma LastReplyFits()
    ensures var c, s, e := TwoChunks(true), SkippedReplied(), Rpc(Delivery([]));
            && WriteModes.Enabled(s, e) && OwnDelivery(s, e) && s.rpc.outbox[0].result != SRT_ERROR && Benign(c, s, e)
  {
    var s := SkippedReplied();
    assert RunScript(Protocol.Step(s.rpc, Delivery([])), []) == Protocol.Step(s.rpc, Delivery([]));
  }

  /** No write has failed; chunk 1 was reported with index 0, and then chunk 0 with index 1. */
  lemma IndicesSwapped()
    ensures exists s :: WriterReachable(TwoChunks(true), s) && AllOk(s.oks) && s.log == [(1, 0), (1, 1)]
                        && s.sources == [Source(1, false), Source(0, true)]
  {
    var c, s, e := TwoChunks(true), SkippedReplied(), Rpc(Delivery([]));
    SkippedRepliedReached();
    LastReplyFits();
    AllOkSingle();
    hide WriterReachable, WriteModes.Step, Benign, WriteModes.Enabled, OwnDelivery, AllOk;
    SettledReached(c, s, e);
    var t := WriteModes.Step(c, s, e);
    assert t.oks == [true] && t.sources == [Source(1, false), Source(0, true)] && t.log == [(1, 0), (1, 1)];
  }

  lemma AllOkSingle()
    ensures AllOk([true])
  {
  }

  // ----- a run with a failed write

  function FailedReply(): Reply {
    Reply(SRT_ERROR, Some("e"))
  }

  /** The worker has answered the only posted write with an error. */
  function Refused(): Writer {
    var s := OnePosted(true, Live);
    s.(rpc := s.rpc.(inbox := [], outbox := [FailedReply()], execs := [Worker.Exec.Exec(s.rpc.inbox[0], Throws("e"))]))
  }

  lemma RefusedReached()
    ensures WriterReachable(TwoChunks(true), Refused())
  {
    var c, s := TwoChunks(true), OnePosted(true, Live);
    OnePostedReached(true);
    hide WriterReachable;
    assert s.rpc.inbox[0].args[0] == Num(3);
    WorkerTurnReached(c, s, Throws("e"), Refused());
  }

  /** The error has been delivered. */
  function FirstFailed(): Writer {
    var s := Refused();
    s.(rpc := s.rpc.(outbox := [], taken := [FailedReply()], delivered := 1, queue := [], error := Some("e"), lock := 0,
                     calls := [Answer(s.rpc.calls[0], SRT_ERROR)]),
       oks := [false], status := Status.Failed)
  }

  lemma FirstFailedReached()
    ensures WriterReachable(TwoChunks(true), FirstFailed())
  {
    var c, s, e := TwoChunks(true), Refused(), Rpc(Delivery([]));
    RefusedReached();
    hide WriterReachable;
    assert OwnDelivery(s, e);
    assert WriteModes.Step(c, s, e) == FirstFailed();
    WriterReachableStep(c, s, e);
  }

  /** The interval has fired again, and the worker has answered the write of the second chunk. */
  function SecondReplied(): Writer {
    var s, post := FirstFailed(), Post(Write, [Num(3), View(1, [2])]);
    s.(rpc := s.rpc.(lock := 1, queue := [1], outbox := [Reply(Num(5), None)], detached := {0, 1},
                     calls := s.rpc.calls + [Protocol.Call.Call(post, Pending, false, false, false, false, [])],
                     execs := s.rpc.execs + [Worker.Exec.Exec(post, Returns(Num(5)))]),
       owner := [Some(0), Some(1)], chunkIndex := 2, ticks := 2)
  }

  lemma SecondPosted(s: Writer)
    requires s == SecondReplied().(rpc := SecondReplied().rpc.(outbox := [], execs := FirstFailed().rpc.execs,
                                                               inbox := [Post(Write, [Num(3), View(1, [2])])]))
    ensures WriterReachable(TwoChunks(true), s)
  {
    var c, f := TwoChunks(true), FirstFailed();
    FirstFailedReached();
    IntervalOfOne(c, f);
    PostsSecond(f.(ticks := 2), s);
    hide WriterReachable, WriteOne, WriteModes.Step;
    WriterReachableStep(c, f, IntervalFires);
  }

  lemma PostsSecond(f: Writer, s: Writer)
    requires f == FirstFailed().(ticks := 2)
    requires s == SecondReplied().(rpc := SecondReplied().rpc.(outbox := [], execs := FirstFailed().rpc.execs,
                                                               inbox := [Post(Write, [Num(3), View(1, [2])])]))
    ensures WriteOne(TwoChunks(true), f) == s
  {
    WriteAllowed(3, View(1, [2]), {0});
    hide PostThrows, TransferList;
    assert {0} + {1} == {0, 1};
  }

  lemma IntervalOfOne(c: Config, s: Writer)
    requires c.writesPerTick == 1 && s.chunkIndex < |c.chunks| && s.interval && NoThrow(s.rpc.calls) && Untouched(c, s)
    ensures Benign(c, s, IntervalFires)
    ensures WriteModes.Step(c, s, IntervalFires) == WriteOne(c, s.(ticks := s.ticks + 1))
  {
    hide WriteOne;
    var s' := s.(ticks := s.ticks + 1);
    assert Writes(c, s', 0) == s';
  }

  lemma SecondRepliedReached()
    ensures WriterReachable(TwoChunks(true), SecondReplied())
  {
    var t := SecondReplied();
    var s := t.(rpc := t.rpc.(outbox := [], execs := FirstFailed().rpc.execs,
                              inbox := [Post(Write, [Num(3), View(1, [2])])]));
    SecondPosted(s);
    hide WriterReachable;
    assert s.rpc.inbox[0].args[0] == Num(3) && s.rpc.inbox[0].args[1] == View(1, [2]);
    WorkerTurnReached(TwoChunks(true), s, Returns(Num(5)), t);
  }

  lemma SecondReplyFits()
    ensures var c, s, e := TwoChunks(true), SecondReplied(), Rpc(Delivery([]));
            && WriteModes.Enabled(s, e) && OwnDelivery(s, e) && s.rpc.outbox[0].result != SRT_ERROR && Benign(c, s, e)
  {
    var s := SecondReplied();
    assert RunScript(Protocol.Step(s.rpc, Delivery([])), []) == Protocol.Step(s.rpc, Delivery([]));
  }

  /** The write of chunk 0 failed, and chunk 1 is reported with index 0. */
  lemma IndexLagsAfterFailure()
    ensures exists s :: WriterReachable(TwoChunks(true), s) && s.oks == [false, true] && s.skipped == 0
                        && s.sources == [Source(1, true)] && s.log == [(1, 0)]
  {
    var c, s, e := TwoChunks(true), SecondReplied(), Rpc(Delivery([]));
    SecondRepliedReached();
    SecondReplyFits();
    hide WriterReachable, WriteModes.Step, Benign, WriteModes.Enabled, OwnDelivery;
    SettledReached(c, s, e);
  }

  lemma MidSame(c: Config, s: Writer, e: WriterEvent)
    requires WriterReachable(c, s) && WriteModes.Enabled(s, e) && Benign(c, s, e)
    ensures Mid(c, s, e).skipped == s.skipped
  {
    ReachableBase(c, s);
    hide WriterReachable, Mid, Benign, Base;
    MidSkips(c, s, e);
  }
}
