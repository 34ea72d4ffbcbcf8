/** What the burst writers guarantee in every run, whatever else uses the handle. */
module WriteModesGuarantees {
  import opened Wire
  import opened Counting
  import opened Protocol
  import opened Invariant
  import opened Guarantees
  import opened Tools
  import opened WriteModes
  import opened WriteModesInvariant

  /** The index of the first write that failed, or the number of settled writes. */
  function FirstBad(oks: seq<bool>): (f: nat)
    ensures f <= |oks| && (forall j :: 0 <= j < f ==> oks[j]) && (f < |oks| ==> !oks[f])
    ensures f == |oks| <==> AllOk(oks)
  {
    if oks == [] then 0
    else
      var f := FirstBad(oks[..|oks| - 1]);
      if f < |oks| - 1 || !oks[|oks| - 1] then f else |oks|
  }

  /** The part of the invariant that says how far the yielding loop is. */
  ghost predicate Progress(c: Config, s: Writer) {
    var n, w, p := |c.chunks|, c.writesPerTick, Posted(s);
    match s.status
    case Running =>
      && s.skipped == 0 && AllOk(s.oks) && s.ticks >= 1
      && Steps(s.ticks - 1, w) <= |s.oks| < p == s.chunkIndex == Min(n, Steps(s.ticks, w))
    case Failed =>
      && s.skipped == 0 && s.ticks >= 1
      && Steps(s.ticks - 1, w) <= FirstBad(s.oks) < |s.oks| <= p == s.chunkIndex == Min(n, Steps(s.ticks, w))
    case Finished =>
      && AllOk(s.oks) && |s.oks| == p && p + s.skipped == s.chunkIndex == n
      && (s.skipped == 0 ==> n <= Steps(s.ticks, w) && (s.ticks > 0 ==> Steps(s.ticks - 1, w) < n))
      && (s.skipped > 0 ==> s.rpc.StartedToDispose() && p == Steps(s.ticks, w))
    case Aborted =>
      && AllOk(s.oks) && s.skipped == 0 && s.rpc.IsDisposed()
      && |s.oks| == p == Steps(s.ticks, w) < n && s.chunkIndex == Min(n, p + w)
  }

  ghost predicate Reported(c: Config, s: Writer)
    requires |s.oks| <= |c.chunks|
  {
    && (AllOk(s.oks) && |s.oks| + s.skipped <= |c.chunks| ==> s.log == FullLog(c, |s.oks| + s.skipped))
    && FullLog(c, FirstBad(s.oks)) <= s.log
  }

  ghost predicate YieldingInv(c: Config, s: Writer) {
    Base(c, s) && !c.explicit && !s.interval && Progress(c, s) && Reported(c, s)
  }

  // ----- keeping the invariant

  /** What holds when the loop condition is evaluated. */
  ghost predicate AtLoopHead(c: Config, s: Writer) {
    && Base(c, s) && !c.explicit && !s.interval && s.status.Running? && s.skipped == 0
    && AllOk(s.oks) && |s.oks| == Posted(s) == s.chunkIndex == Min(|c.chunks|, Steps(s.ticks, c.writesPerTick))
    && (s.ticks > 0 ==> Steps(s.ticks - 1, c.writesPerTick) < |c.chunks|)
    && s.log == FullLog(c, |s.oks|)
  }

  lemma LoopPosts(c: Config, s: Writer)
    requires AtLoopHead(c, s) && s.chunkIndex < |c.chunks| && !s.rpc.StartedToDispose()
    ensures YieldingInv(c, Loop(c, s))
  {
    hide Inv, OwnerOk, OksOk, Owned, NoThrow, Writes;
    PostBatchBase(c, s.(ticks := s.ticks + 1), c.writesPerTick);
    hide Base;
  }

  lemma LoopSkips(c: Config, s: Writer)
    requires AtLoopHead(c, s) && s.chunkIndex < |c.chunks| && s.rpc.StartedToDispose() && !s.rpc.IsDisposed()
    ensures YieldingInv(c, Loop(c, s))
  {
    hide Inv, OwnerOk, OksOk, Owned, NoThrow, Writes;
    SkipBatchBase(c, s, |c.chunks| - s.chunkIndex);
    assert Loop(c, s).log == FullLog(c, |c.chunks|);
  }

  lemma LoopInv(c: Config, s: Writer)
    requires AtLoopHead(c, s)
    ensures YieldingInv(c, Loop(c, s))
  {
    hide Inv, OwnerOk, OksOk, Owned, NoThrow, Writes;
    if s.chunkIndex < |c.chunks| && !s.rpc.StartedToDispose() {
      LoopPosts(c, s);
    } else if s.chunkIndex < |c.chunks| && !s.rpc.IsDisposed() {
      LoopSkips(c, s);
    } else if s.chunkIndex < |c.chunks| {
      GoneBatchBase(c, s, c.writesPerTick);
    }
  }

  lemma ReportedNext(c: Config, s: Writer, t: Writer, ok: bool)
    requires |s.oks| < |c.chunks| && Reported(c, s) && t.oks == s.oks + [ok] && t.skipped == s.skipped
    requires s.skipped == 0 && (AllOk(s.oks) ==> |s.log| == |s.oks|)
    requires t.log == if ok then s.log + [(c.Length(|s.oks|), |s.log|)] else s.log
    ensures Reported(c, t)
  {
    hide FirstBad, FullLog;
    FirstBadNext(s.oks, ok);
    FullLogNext(c, |s.oks|);
  }

  lemma ProgressNext(c: Config, s: Writer, t: Writer, ok: bool)
    requires Progress(c, s) && |s.oks| < Posted(s) == Posted(t) && t.oks == s.oks + [ok]
    requires t.chunkIndex == s.chunkIndex && t.skipped == s.skipped && t.ticks == s.ticks
    requires t.status == if !ok && s.status.Running? then Failed else s.status
    requires !(t.status.Running? && |t.oks| == t.chunkIndex)
    ensures Progress(c, t)
  {
    hide FirstBad, Posted;
    FirstBadNext(s.oks, ok);
  }

  /** A settled write leaves the loop waiting, stopped, or at its head. */
  lemma AfterSettling(c: Config, s: Writer, t: Writer, ok: bool)
    requires YieldingInv(c, s) && Base(c, t) && |s.oks| < Posted(s) == Posted(t)
    requires t.oks == s.oks + [ok]
    requires t.log == if ok then s.log + [(c.Length(|s.oks|), |s.log|)] else s.log
    requires t == s.(rpc := t.rpc, owner := t.owner, oks := t.oks, log := t.log, sources := t.sources,
                     chunkWrittenIdx := |t.log|,
                     status := if !ok && s.status.Running? then Failed else s.status)
    ensures if t.status.Running? && |t.oks| == t.chunkIndex then AtLoopHead(c, t) else YieldingInv(c, t)
  {
    hide Base, Posted, FirstBad, FullLog;
    BaseFacts(c, s);
    FirstBadNext(s.oks, ok);
    assert AllOk(s.oks) ==> |FullLog(c, |s.oks|)| == |s.oks| by { FullLogSize(c, |s.oks|); }
    ReportedNext(c, s, t, ok);
    hide Reported;
    if t.status.Running? && |t.oks| == t.chunkIndex {
      LogAtHead(c, t);
    } else {
      ProgressNext(c, s, t, ok);
    }
  }

  lemma FullLogSize(c: Config, m: nat)
    requires m <= |c.chunks|
    ensures |FullLog(c, m)| == m
  {
  }

  lemma LogAtHead(c: Config, t: Writer)
    requires |t.oks| <= |c.chunks| && Reported(c, t) && AllOk(t.oks) && t.skipped == 0
    ensures t.log == FullLog(c, |t.oks|)
  {
  }

  lemma FirstBadNext(oks: seq<bool>, ok: bool)
    ensures FirstBad(oks + [ok]) == if AllOk(oks) && ok then |oks| + 1 else FirstBad(oks)
    ensures AllOk(oks + [ok]) <==> AllOk(oks) && ok
    ensures if AllOk(oks) then FirstBad(oks) == |oks| else FirstBad(oks) < |oks|
  {
    assert (oks + [ok])[..|oks|] == oks;
  }

  lemma FullLogNext(c: Config, m: nat)
    requires m < |c.chunks|
    ensures FullLog(c, m + 1) == FullLog(c, m) + [(c.Length(m), m)]
  {
  }

  lemma YieldingStep(c: Config, s: Writer, e: WriterEvent)
    requires YieldingInv(c, s) && WriteModes.Enabled(s, e) && Benign(c, s, e)
    ensures YieldingInv(c, WriteModes.Step(c, s, e))
  {
    hide Base, Mid, Benign, Progress, Reported, Posted, Loop;
    var t := Mid(c, s, e);
    if OwnDelivery(s, e) {
      OwnSettled(c, s, e);
      AfterSettling(c, s, t, s.rpc.outbox[0].result != SRT_ERROR);
      if Resumes(c, s, t, e) {
        LoopInv(c, t);
      }
    } else if e.Rpc? {
      OtherTraffic(c, s, e);
      OthersKeepProgress(c, s, t);
    }
  }

  lemma OthersKeepProgress(c: Config, s: Writer, t: Writer)
    requires YieldingInv(c, s) && Base(c, t) && Posted(t) == Posted(s) && t == s.(rpc := t.rpc, owner := t.owner)
    requires s.rpc.StartedToDispose() ==> t.rpc.StartedToDispose()
    requires s.rpc.IsDisposed() ==> t.rpc.IsDisposed()
    ensures YieldingInv(c, t)
  {
    hide Base, Posted, FirstBad, FullLog;
    BaseFacts(c, s);
  }

  /** A handle on which the writer may be started: no post threw on it and the chunks are attached. */
  ghost predicate Fit(c: Config, rpc: State) {
    c.Valid() && Reachable(rpc) && NoThrow(rpc.calls) && Untouched(c, Begin(rpc))
  }

  lemma BeginBase(c: Config, rpc: State)
    requires Fit(c, rpc)
    ensures Base(c, Begin(rpc)) && Posted(Begin(rpc)) == 0
  {
    ReachableInv(rpc);
    PadKeeps([], |rpc.calls|);
    CountZero(Begin(rpc).owner, IsOwn);
    CountZero(Begin(rpc).owner[..rpc.delivered], IsOwn);
  }

  lemma {:induction false} YieldingRun(c: Config, s: Writer, es: seq<WriterEvent>)
    requires YieldingInv(c, s) && WriteModes.ValidRun(c, s, es)
    ensures YieldingInv(c, WriteModes.Run(c, s, es))
    decreases es
  {
    hide YieldingInv, WriteModes.Step;
    if es != [] {
      YieldingStep(c, s, es[0]);
      YieldingRun(c, WriteModes.Step(c, s, es[0]), es[1..]);
    }
  }

  /** Every state that either writer can reach. */
  ghost predicate WriterReachable(c: Config, s: Writer) {
    exists rpc, es ::
      Fit(c, rpc) && WriteModes.ValidRun(c, Start(c, rpc), es) && s == WriteModes.Run(c, Start(c, rpc), es)
  }

  ghost predicate YieldingReachable(c: Config, s: Writer) {
    !c.explicit && WriterReachable(c, s)
  }

  lemma YieldingReachableInv(c: Config, s: Writer)
    requires YieldingReachable(c, s)
    ensures YieldingInv(c, s)
  {
    var rpc, es :| Fit(c, rpc) && WriteModes.ValidRun(c, Start(c, rpc), es)
        && s == WriteModes.Run(c, Start(c, rpc), es);
    BeginBase(c, rpc);
    assert AtLoopHead(c, Begin(rpc)) by { hide Base; }
    LoopInv(c, Begin(rpc));
    YieldingRun(c, Start(c, rpc), es);
  }

  // ----- the yielding loop

  function Ceil(n: nat, w: nat): nat
    requires w > 0
  {
    if n % w == 0 then n / w else n / w + 1
  }

  lemma CeilSteps(n: nat, w: nat, t: nat)
    requires w > 0 && n <= Steps(t, w) && (t > 0 ==> Steps(t - 1, w) < n)
    ensures t == Ceil(n, w)
  {
    if t > 0 {
      if n == Steps(t, w) {
        DivUnique(n, w, t);
      } else {
        DivUnique(n, w, t - 1);
      }
    } else {
      DivUnique(n, w, 0);
    }
  }

  /** A write of the writer that has not settled keeps the worker, and is under way. */
  lemma OutstandingIsUnderWay(c: Config, s: Writer)
    requires Base(c, s) && |s.oks| < Posted(s)
    ensures !s.rpc.IsDisposed() && (s.rpc.inbox != [] || s.rpc.outbox != [])
  {
    var rpc, d := s.rpc, s.rpc.delivered;
    CountSplit(s.owner, d, IsOwn);
    CountZero(s.owner[d..], IsOwn);
    var i :| 0 <= i < |s.owner| - d && s.owner[d..][i].Some?;
    assert s.owner[d + i].Some?;
    hide IsOwn, Untouched;
    if rpc.IsDisposed() {
      assert CallOk(rpc.calls[d + i], ResultAt(rpc.taken, d, d + i));
      CountZero(rpc.calls, Unreleased);
    } else {
      IdentityPositions(rpc.calls);
    }
  }

  /** At any time at most writesPerTick writes are outstanding. While no write has failed and none
      was skipped, `onWrite` has been called with (length of chunk k, k) for the settled chunks in
      order; a loop that finished so has reported every chunk, in exactly ceil(n / w) ticks. A loop
      that is still running has its worker and waits for a message or a reply that is under way, so
      once all are delivered it has stopped: finished, if no write failed and the worker is there. */
  lemma YieldingLoop(c: Config, s: Writer)
    requires YieldingReachable(c, s)
    ensures |s.oks| <= Posted(s) <= |s.oks| + c.writesPerTick && |s.oks| <= |c.chunks| && c.writesPerTick > 0
    ensures AllOk(s.oks) && s.skipped == 0 ==> s.log == FullLog(c, |s.oks|)
    ensures s.status.Finished? && s.skipped == 0 ==>
              AllOk(s.oks) && Posted(s) == |s.oks| == |c.chunks| && s.ticks == Ceil(|c.chunks|, c.writesPerTick)
    ensures s.skipped > 0 ==> s.status.Finished? && s.rpc.StartedToDispose()
    ensures s.status.Finished? ==> s.log == FullLog(c, |c.chunks|) && Posted(s) + s.skipped == |c.chunks|
    ensures s.status.Running? ==> !s.rpc.IsDisposed() && (s.rpc.inbox != [] || s.rpc.outbox != [])
    ensures !s.rpc.IsDisposed() && s.rpc.inbox == [] && s.rpc.outbox == [] && AllOk(s.oks) ==> s.status.Finished?
  {
    hide YieldingReachable, Base, Posted, Owned, FullLog;
    YieldingReachableInv(c, s);
    BaseFacts(c, s);
    if s.status.Finished? && s.skipped == 0 {
      CeilSteps(|c.chunks|, c.writesPerTick, s.ticks);
    }
    if s.status.Running? {
      OutstandingIsUnderWay(c, s);
    }
    if s.status.Running? || s.status.Failed? {
      assert Steps(s.ticks, c.writesPerTick) == Steps(s.ticks - 1, c.writesPerTick) + c.writesPerTick;
    }
  }

  /** The first batch of writes. */
  lemma FirstBatch(c: Config, s: Writer, m: nat)
    requires Base(c, s) && c.chunks != [] && m > 0 && !s.rpc.IsDisposed()
    requires Posted(s) == s.chunkIndex == 0 && s.log == []
    ensures var t := Writes(c, s, m);
            && (Posted(t) == 0 <==> s.rpc.StartedToDispose())
            && (s.rpc.StartedToDispose() ==>
                  t.log == FullLog(c, if m < |c.chunks| then m else |c.chunks|) && t.rpc == s.rpc)
  {
    hide Base, Posted, Writes, FullLog;
    if s.rpc.StartedToDispose() {
      SkipBatchBase(c, s, m);
      SameOwner(s, Writes(c, s, m));
      LogSkipped(c, Writes(c, s, m).log);
    } else {
      PostBatchBase(c, s, m);
    }
  }

  /** Called on a handle with a worker, either writer posts its first chunk exactly when disposing has
      not started. Otherwise it posts none and reports, in the same turn, all chunks and is finished,
      or, driven by the interval, those of one tick. */
  lemma ReportsWithoutPosting(c: Config, rpc: State)
    requires Fit(c, rpc) && c.chunks != [] && !rpc.IsDisposed()
    ensures var s := Start(c, rpc);
            && (Posted(s) == 0 <==> rpc.StartedToDispose())
            && (rpc.StartedToDispose() ==>
                  && s.log == FullLog(c, if c.explicit && c.writesPerTick < |c.chunks|
                                         then c.writesPerTick else |c.chunks|)
                  && s.rpc == rpc && (!c.explicit ==> s.status.Finished?))
  {
    hide Base, Posted, Writes, FullLog, Fit;
    BeginBase(c, rpc);
    var b := Begin(rpc);
    BaseFacts(c, b);
    var s := b.(ticks := 1, interval := c.explicit && c.writesPerTick <= |c.chunks|);
    IntervalOnly(c, b, s);
    SameOwner(b, s);
    FirstBatch(c, s, c.writesPerTick);
    FirstBatch(c, b, |c.chunks|);
    SameOwner(Writes(c, b, |c.chunks|), Writes(c, b, |c.chunks|).(status := Finished));
  }

  lemma IntervalOnly(c: Config, s: Writer, t: Writer)
    requires Base(c, s) && t == s.(ticks := t.ticks, interval := t.interval)
    ensures Base(c, t)
  {
  }

  lemma LogSkipped(c: Config, log: seq<(nat, nat)>)
    requires |log| <= |c.chunks| && forall j :: 0 <= j < |log| ==> log[j] == (c.Length(j), j)
    ensures log == FullLog(c, |log|)
  {
  }

  lemma SameOwner(s: Writer, t: Writer)
    requires s.owner == t.owner
    ensures Posted(s) == Posted(t)
  {
  }

  /** When a tick starts, every write of the earlier ticks has been reported and none is outstanding. */
  lemma TickStart(c: Config, s: Writer, e: WriterEvent)
    requires YieldingReachable(c, s) && WriteModes.Enabled(s, e) && Benign(c, s, e)
    ensures var t := WriteModes.Step(c, s, e);
            t.ticks == s.ticks || (t.ticks == s.ticks + 1 && t.chunkWrittenIdx == s.chunkIndex == Posted(s) == |t.oks|)
  {
    hide YieldingReachable, Base, Mid, Benign, Progress, Reported, Posted, Writes;
    YieldingReachableInv(c, s);
    var m := Mid(c, s, e);
    if OwnDelivery(s, e) {
      OwnSettled(c, s, e);
      AfterSettling(c, s, m, s.rpc.outbox[0].result != SRT_ERROR);
      BaseFacts(c, m);
      if Resumes(c, s, m, e) && m.chunkIndex < |c.chunks| {
        FullLogSize(c, |m.oks|);
        if !m.rpc.StartedToDispose() {
          PostBatchBase(c, m.(ticks := m.ticks + 1), c.writesPerTick) by { TicksOnly(c, m); }
        } else if !m.rpc.IsDisposed() {
          SkipBatchBase(c, m, |c.chunks| - m.chunkIndex);
        } else {
          GoneBatchBase(c, m, c.writesPerTick);
        }
      }
    } else if e.Rpc? {
      OtherTraffic(c, s, e);
    }
  }

  lemma TicksOnly(c: Config, s: Writer)
    requires Base(c, s)
    ensures Base(c, s.(ticks := s.ticks + 1)) && Posted(s.(ticks := s.ticks + 1)) == Posted(s)
  {
  }

  /** The chunks of the ticks up to the one that posted chunk f: min(n, w * (floor(f / w) + 1)). */
  function PostedAtFailure(c: Config, f: nat): int {
    if c.writesPerTick == 0 then 0
    else Min(|c.chunks|, Steps(f / c.writesPerTick + 1, c.writesPerTick))
  }

  /** The loop has rejected exactly when a write has failed. When the write of chunk f was the first
      to fail, exactly min(n, w * (floor(f / w) + 1)) chunks are posted and that never changes: the
      loop starts no other tick. */
  lemma FirstFailureStops(c: Config, s: Writer, es: seq<WriterEvent>)
    requires YieldingReachable(c, s) && WriteModes.ValidRun(c, s, es)
    ensures s.status.Failed? <==> !AllOk(s.oks)
    ensures !AllOk(s.oks) ==>
              && Posted(s) == PostedAtFailure(c, FirstBad(s.oks))
              && var t := WriteModes.Run(c, s, es);
                 t.status.Failed? && Posted(t) == Posted(s) && t.ticks == s.ticks && FirstBad(t.oks) == FirstBad(s.oks)
  {
    hide YieldingReachable, Base, Posted, WriteModes.Run, WriteModes.ValidRun, Reported;
    YieldingReachableInv(c, s);
    BaseFacts(c, s);
    if s.status.Failed? {
      DivUnique(FirstBad(s.oks), c.writesPerTick, s.ticks - 1);
      FailedRun(c, s, es);
    }
  }

  lemma {:induction false} FailedRun(c: Config, s: Writer, es: seq<WriterEvent>)
    requires YieldingInv(c, s) && s.status.Failed? && WriteModes.ValidRun(c, s, es)
    ensures var t := WriteModes.Run(c, s, es);
            t.status.Failed? && Posted(t) == Posted(s) && t.ticks == s.ticks && FirstBad(t.oks) == FirstBad(s.oks)
    decreases es
  {
    if es != [] {
      YieldingStep(c, s, es[0]);
      FailedStep(c, s, es[0]);
      hide YieldingInv, WriteModes.Step;
      FailedRun(c, WriteModes.Step(c, s, es[0]), es[1..]);
    }
  }

  lemma FailedStep(c: Config, s: Writer, e: WriterEvent)
    requires YieldingInv(c, s) && s.status.Failed? && WriteModes.Enabled(s, e) && Benign(c, s, e)
    ensures var t := WriteModes.Step(c, s, e);
            t.status.Failed? && Posted(t) == Posted(s) && t.ticks == s.ticks && FirstBad(t.oks) == FirstBad(s.oks)
  {
    hide Base, Mid, Benign, Reported, Posted, FirstBad;
    if OwnDelivery(s, e) {
      OwnSettled(c, s, e);
      FirstBadNext(s.oks, s.rpc.outbox[0].result != SRT_ERROR);
    } else if e.Rpc? {
      OtherTraffic(c, s, e);
    }
  }

  // ----- what reaches the worker

  /** The messages of the writer's own calls among the first |owner| entries. */
  function OwnPosts(posts: seq<Post>, owner: seq<Option<nat>>): seq<Post>
    requires |posts| == |owner|
  {
    if owner == [] then []
    else
      var n := |owner| - 1;
      OwnPosts(posts[..n], owner[..n]) + (if owner[n].Some? then [posts[n]] else [])
  }

  function WritePosts(c: Config, m: nat): seq<Post>
    requires m <= |c.chunks|
  {
    seq(m, k requires 0 <= k < m => c.WritePost(k))
  }

  /** The native calls the worker has made, and those that belong to the writer. */
  function ExecPosts(s: Writer): (posts: seq<Post>)
    ensures |posts| == |s.rpc.execs|
  {
    seq(|s.rpc.execs|, i requires 0 <= i < |s.rpc.execs| => s.rpc.execs[i].post)
  }

  function OwnExecuted(s: Writer): seq<Post>
    requires |s.rpc.execs| <= |s.owner|
  {
    OwnPosts(ExecPosts(s), s.owner[..|s.rpc.execs|])
  }

  lemma {:induction false} OwnPostsAre(c: Config, calls: seq<Call>, owner: seq<Option<nat>>, posts: seq<Post>)
    requires OwnerOk(c, calls, owner) && |posts| == |owner| && Owned(owner) <= |c.chunks|
    requires forall i :: 0 <= i < |posts| ==> posts[i] == calls[i].post
    ensures OwnPosts(posts, owner) == WritePosts(c, Owned(owner))
  {
    if owner != [] {
      var n := |owner| - 1;
      assert forall i :: 0 <= i < n ==> owner[..n][..i] == owner[..i];
      OwnPostsAre(c, calls[..n], owner[..n], posts[..n]);
      assert owner[..n + 1] == owner;
    }
  }

  lemma OwnerPrefix(c: Config, calls: seq<Call>, owner: seq<Option<nat>>, m: nat)
    requires OwnerOk(c, calls, owner) && m <= |calls|
    ensures OwnerOk(c, calls[..m], owner[..m])
  {
    assert forall i :: 0 <= i < m ==> owner[..m][..i] == owner[..i];
  }

  /** What the worker has executed for the writer is a prefix of its chunks' writes, in order, each
      once; it includes all settled ones. */
  lemma BaseExecuted(c: Config, s: Writer)
    requires Base(c, s)
    ensures |s.rpc.execs| <= |s.owner|
    ensures exists m :: |s.oks| <= m <= Posted(s) <= |c.chunks| && OwnExecuted(s) == WritePosts(c, m)
  {
    var x := |s.rpc.execs|;
    IdentityPositions(s.rpc.calls);
    assert forall k :: 0 <= k < x ==> s.rpc.execs[k].post == s.rpc.calls[k].post;
    OwnedMono(s.owner, s.rpc.delivered, x);
    OwnerPrefix(c, s.rpc.calls, s.owner, x);
    OwnPostsAre(c, s.rpc.calls[..x], s.owner[..x], ExecPosts(s));
  }
}
