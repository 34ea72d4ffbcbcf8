/** What `onWrite` is told, in runs with failing writes and on a handle that is being disposed, for
    both burst writers; and exactly when it is told of a chunk that was never posted. */
module WriteModesReports {
  import opened Wire
  import opened Counting
  import opened Protocol
  import opened Invariant
  import opened Guarantees
  import opened Tools
  import opened WriteModes
  import opened WriteModesInvariant
  import opened WriteModesGuarantees
  import opened EndToEnd

  /** The writes that succeeded, in order. */
  function Successes(oks: seq<bool>): seq<nat> {
    if oks == [] then []
    else
      var n := |oks| - 1;
      Successes(oks[..n]) + (if oks[n] then [n] else [])
  }

  /** The chunks that the calls of `onWrite` for posted, or for unposted, writes are about. */
  function ChunksOf(sources: seq<Source>, posted: bool): seq<nat> {
    if sources == [] then []
    else
      var n := |sources| - 1;
      ChunksOf(sources[..n], posted) + (if sources[n].posted == posted then [sources[n].chunk] else [])
  }

  function Upward(first: nat, n: nat): seq<nat> {
    seq(n, i requires 0 <= i < n => first + i)
  }

  ghost predicate LogOk(c: Config, log: seq<(nat, nat)>, sources: seq<Source>) {
    && |log| == |sources|
    && forall i :: 0 <= i < |log| ==> sources[i].chunk < |c.chunks| && log[i] == (c.Length(sources[i].chunk), i)
  }

  ghost predicate ReportsOk(c: Config, s: Writer) {
    && LogOk(c, s.log, s.sources)
    && ChunksOf(s.sources, true) == Successes(s.oks)
    && ChunksOf(s.sources, false) == Upward(Posted(s), s.skipped)
    && (s.skipped > 0 ==> s.rpc.StartedToDispose())
    && (!s.rpc.IsDisposed() ==> s.chunkIndex == Posted(s) + s.skipped)
  }

  // ----- one more report

  lemma ChunksOfNext(sources: seq<Source>, x: Source, posted: bool)
    ensures ChunksOf(sources + [x], posted) ==
            ChunksOf(sources, posted) + (if x.posted == posted then [x.chunk] else [])
  {
    assert (sources + [x])[..|sources|] == sources;
  }

  lemma SuccessesNext(oks: seq<bool>, ok: bool)
    ensures Successes(oks + [ok]) == Successes(oks) + (if ok then [|oks|] else [])
  {
    assert (oks + [ok])[..|oks|] == oks;
  }

  lemma UpwardNext(first: nat, n: nat)
    ensures Upward(first, n + 1) == Upward(first, n) + [first + n]
  {
  }

  lemma LogOkNext(c: Config, log: seq<(nat, nat)>, sources: seq<Source>, k: nat, posted: bool)
    requires LogOk(c, log, sources) && k < |c.chunks|
    ensures LogOk(c, log + [(c.Length(k), |log|)], sources + [Source(k, posted)])
  {
  }

  // ----- every step keeps the reports in order

  lemma PostReports(c: Config, s: Writer)
    requires Base(c, s) && ReportsOk(c, s) && s.chunkIndex < |c.chunks| && !s.rpc.StartedToDispose()
    ensures Base(c, WriteOne(c, s)) && ReportsOk(c, WriteOne(c, s))
  {
    hide Base, LogOk, ChunksOf, Successes, PostNext, Posted;
    PostNextBase(c, s);
    assert Upward(Posted(s), 0) == Upward(Posted(s) + 1, 0);
  }

  lemma SkipReports(c: Config, s: Writer)
    requires Base(c, s) && ReportsOk(c, s) && s.chunkIndex < |c.chunks| && s.rpc.StartedToDispose()
             && !s.rpc.IsDisposed()
    ensures Base(c, WriteOne(c, s)) && ReportsOk(c, WriteOne(c, s))
  {
    hide Base, ChunksOf, Successes, Posted, WriteOne, Upward, LogOk;
    SkipOneBase(c, s);
    LogOkNext(c, s.log, s.sources, s.chunkIndex, false);
    SameOwner(s, WriteOne(c, s));
    ChunksOfNext(s.sources, Source(s.chunkIndex, false), true);
    ChunksOfNext(s.sources, Source(s.chunkIndex, false), false);
    UpwardNext(Posted(s), s.skipped);
  }

  lemma GoneReports(c: Config, s: Writer)
    requires Base(c, s) && ReportsOk(c, s) && s.chunkIndex < |c.chunks| && s.rpc.IsDisposed()
    ensures Base(c, WriteOne(c, s)) && ReportsOk(c, WriteOne(c, s))
  {
    hide Inv, OwnerOk, OksOk, Owned, LogOk, ChunksOf, Successes, Upward;
  }

  lemma {:induction false} WritesReports(c: Config, s: Writer, m: nat)
    requires Base(c, s) && ReportsOk(c, s)
    ensures Base(c, Writes(c, s, m)) && ReportsOk(c, Writes(c, s, m))
  {
    hide Base, ReportsOk, WriteOne;
    if m > 0 {
      WritesReports(c, s, m - 1);
      var t := Writes(c, s, m - 1);
      if t.chunkIndex < |c.chunks| {
        if !t.rpc.StartedToDispose() {
          PostReports(c, t);
        } else if !t.rpc.IsDisposed() {
          SkipReports(c, t);
        } else {
          GoneReports(c, t);
        }
      }
    }
  }

  /** Fields that do not matter for the reports. */
  lemma ReportsKept(c: Config, s: Writer, t: Writer)
    requires ReportsOk(c, s) && t == s.(ticks := t.ticks, interval := t.interval, status := t.status)
    ensures ReportsOk(c, t)
  {
  }

  lemma BaseSame(c: Config, s: Writer, t: Writer)
    requires Base(c, s) && t == s.(ticks := t.ticks, interval := t.interval, status := t.status)
    ensures Base(c, t)
  {
  }

  lemma LoopReports(c: Config, s: Writer)
    requires Base(c, s) && ReportsOk(c, s)
    ensures ReportsOk(c, Loop(c, s))
  {
    hide Base, ReportsOk, Writes;
    var s' := s.(ticks := s.ticks + 1);
    BaseSame(c, s, s');
    ReportsKept(c, s, s');
    WritesReports(c, s', c.writesPerTick);
    WritesReports(c, s, c.writesPerTick);
    if s.chunkIndex < |c.chunks| {
      WritesReports(c, s, |c.chunks| - s.chunkIndex);
      ReportsKept(c, Writes(c, s, |c.chunks| - s.chunkIndex),
          Writes(c, s, |c.chunks| - s.chunkIndex).(status := Finished));
    }
    ReportsKept(c, s, s.(status := Finished));
    ReportsKept(c, Tick(c, s), Tick(c, s).(status := Aborted));
  }

  lemma IntervalReports(c: Config, s: Writer)
    requires Base(c, s) && ReportsOk(c, s)
    ensures ReportsOk(c, IntervalTick(c, s))
  {
    hide Base, ReportsOk, Writes;
    var s' := s.(ticks := s.ticks + 1, interval := s.interval && s.chunkIndex + c.writesPerTick <= |c.chunks|);
    BaseSame(c, s, s');
    ReportsKept(c, s, s');
    WritesReports(c, s', c.writesPerTick);
  }

  lemma SettledReports(c: Config, s: Writer, t: Writer, ok: bool)
    requires ReportsOk(c, s) && |s.oks| < |c.chunks| && Posted(t) == Posted(s) && s.chunkWrittenIdx == |s.log|
    requires t.oks == s.oks + [ok] && t.skipped == s.skipped && t.chunkIndex == s.chunkIndex
    requires t.log == if ok then s.log + [(c.Length(|s.oks|), |s.log|)] else s.log
    requires t.sources == if ok then s.sources + [Source(|s.oks|, true)] else s.sources
    requires (s.rpc.StartedToDispose() ==> t.rpc.StartedToDispose()) && !s.rpc.IsDisposed()
    ensures ReportsOk(c, t)
  {
    hide ChunksOf, Successes, Posted, LogOk, Upward;
    LogOkNext(c, s.log, s.sources, |s.oks|, true);
    SuccessesNext(s.oks, ok);
    ChunksOfNext(s.sources, Source(|s.oks|, true), true);
    ChunksOfNext(s.sources, Source(|s.oks|, true), false);
  }

  lemma MidReports(c: Config, s: Writer, e: WriterEvent)
    requires Base(c, s) && ReportsOk(c, s) && WriteModes.Enabled(s, e) && Benign(c, s, e)
    ensures Base(c, Mid(c, s, e)) && ReportsOk(c, Mid(c, s, e))
  {
    var t := Mid(c, s, e);
    hide Base, Mid, Benign, Posted, LogOk, ChunksOf, Successes, Upward;
    BaseFacts(c, s);
    if OwnDelivery(s, e) {
      OwnSettled(c, s, e);
      SettledReports(c, s, t, s.rpc.outbox[0].result != SRT_ERROR);
    } else if e.Rpc? {
      OtherTraffic(c, s, e);
    } else {
      IntervalMid(c, s);
    }
  }

  lemma StepReports(c: Config, s: Writer, e: WriterEvent)
    requires Base(c, s) && ReportsOk(c, s) && WriteModes.Enabled(s, e) && Benign(c, s, e)
    ensures ReportsOk(c, WriteModes.Step(c, s, e))
  {
    hide Base, ReportsOk, Mid, Benign, Loop, IntervalTick;
    MidReports(c, s, e);
    IntervalReports(c, Mid(c, s, e));
    LoopReports(c, Mid(c, s, e));
  }

  ghost predicate WriterInv(c: Config, s: Writer) {
    (YieldingInv(c, s) || ExplicitInv(c, s)) && ReportsOk(c, s)
  }

  lemma WriterStep(c: Config, s: Writer, e: WriterEvent)
    requires WriterInv(c, s) && WriteModes.Enabled(s, e) && Benign(c, s, e)
    ensures WriterInv(c, WriteModes.Step(c, s, e))
  {
    hide Base, ReportsOk, Benign, Progress, Reported, Scheduled, WriteModes.Step, WriteModes.Enabled;
    StepReports(c, s, e);
    if c.explicit {
      ExplicitStep(c, s, e);
    } else {
      YieldingStep(c, s, e);
    }
  }

  lemma {:induction false} WriterRun(c: Config, s: Writer, es: seq<WriterEvent>)
    requires WriterInv(c, s) && WriteModes.ValidRun(c, s, es)
    ensures WriterInv(c, WriteModes.Run(c, s, es))
    decreases es
  {
    hide WriterInv, WriteModes.Step, Benign, WriteModes.Enabled;
    if es != [] {
      WriterStep(c, s, es[0]);
      WriterRun(c, WriteModes.Step(c, s, es[0]), es[1..]);
    }
  }

  lemma BeginReports(c: Config, rpc: State)
    requires Fit(c, rpc)
    ensures Base(c, Begin(rpc)) && ReportsOk(c, Begin(rpc))
  {
    BeginBase(c, rpc);
    hide Base, Posted;
  }

  lemma StartInv(c: Config, rpc: State)
    requires Fit(c, rpc)
    ensures WriterInv(c, Start(c, rpc))
  {
    BeginReports(c, rpc);
    hide Fit, Base, ReportsOk, Loop, IntervalTick;
    var s := Begin(rpc).(interval := true);
    if c.explicit {
      FirstTick(c, rpc);
      BaseSame(c, Begin(rpc), s);
      ReportsKept(c, Begin(rpc), s);
      IntervalReports(c, s);
    } else {
      FirstLoop(c, rpc);
      LoopReports(c, Begin(rpc));
    }
  }

  lemma FirstLoop(c: Config, rpc: State)
    requires Fit(c, rpc) && !c.explicit
    ensures YieldingInv(c, Start(c, rpc))
  {
    WriterStart(c, rpc);
    hide Fit, YieldingInv, Start, WriterReachable;
    YieldingReachableInv(c, Start(c, rpc));
  }

  lemma WriterReachableInv(c: Config, s: Writer)
    requires WriterReachable(c, s)
    ensures WriterInv(c, s)
  {
    var rpc, es :| Fit(c, rpc) && WriteModes.ValidRun(c, Start(c, rpc), es)
        && s == WriteModes.Run(c, Start(c, rpc), es);
    hide Fit, WriterInv, Start, WriteModes.ValidRun, WriteModes.Run;
    StartInv(c, rpc);
    WriterRun(c, Start(c, rpc), es);
  }

  // ----- what is reported

  lemma {:induction false} SuccessesBelow(oks: seq<bool>)
    ensures forall k :: k in Successes(oks) ==> k < |oks| && oks[k]
  {
    if oks != [] {
      SuccessesBelow(oks[..|oks| - 1]);
    }
  }

  lemma {:induction false} ChunkListed(sources: seq<Source>, i: nat)
    requires i < |sources|
    ensures sources[i].chunk in ChunksOf(sources, sources[i].posted)
  {
    if i < |sources| - 1 {
      ChunkListed(sources[..|sources| - 1], i);
    }
  }

  lemma {:induction false} AllOfOneKind(sources: seq<Source>)
    requires ChunksOf(sources, false) == []
    ensures |ChunksOf(sources, true)| == |sources|
    ensures forall i :: 0 <= i < |sources| ==> sources[i].posted && sources[i].chunk == ChunksOf(sources, true)[i]
  {
    if sources != [] {
      AllOfOneKind(sources[..|sources| - 1]);
    }
  }

  /** In every run of either writer, failing writes and disposal included: the i-th call of `onWrite`
      gets the length of the chunk it is about and the index i; the calls for posted chunks are about
      the successful writes in order, the others about the chunks right behind the posted ones, in
      order. So every reported chunk was posted exactly when none was skipped, and then the i-th call
      is about the i-th successful write. */
  lemma ReportsExact(c: Config, s: Writer)
    requires WriterReachable(c, s)
    ensures |s.log| == |s.sources|
    ensures forall i :: 0 <= i < |s.log| ==>
              && s.sources[i].chunk < |c.chunks| && s.log[i] == (c.Length(s.sources[i].chunk), i)
              && c.chunks[s.sources[i].chunk].View? && s.log[i].0 == |c.chunks[s.sources[i].chunk].bytes|
              && (s.sources[i].posted <==> s.sources[i].chunk < Posted(s))
    ensures ChunksOf(s.sources, true) == Successes(s.oks) && ChunksOf(s.sources, false) == Upward(Posted(s), s.skipped)
    ensures s.skipped == 0 <==> forall i :: 0 <= i < |s.sources| ==> s.sources[i].posted
    ensures s.skipped == 0 ==>
              && |s.log| == |Successes(s.oks)|
              && forall i :: 0 <= i < |s.log| ==> s.sources[i].chunk == Successes(s.oks)[i]
  {
    WriterReachableInv(c, s);
    InvBase(c, s);
    hide WriterReachable, YieldingInv, ExplicitInv, Base, Posted, ChunksOf, Successes;
    BaseFacts(c, s);
    AllViews(c, s);
    SuccessesBelow(s.oks);
    forall i | 0 <= i < |s.log| ensures s.sources[i].posted <==> s.sources[i].chunk < Posted(s) {
      ChunkListed(s.sources, i);
    }
    if s.skipped == 0 {
      AllOfOneKind(s.sources);
    } else if forall i :: 0 <= i < |s.sources| ==> s.sources[i].posted {
      NoneUnposted(s.sources);
    }
  }

  lemma {:induction false} NoneUnposted(sources: seq<Source>)
    requires forall i :: 0 <= i < |sources| ==> sources[i].posted
    ensures ChunksOf(sources, false) == []
  {
    if sources != [] {
      NoneUnposted(sources[..|sources| - 1]);
    }
  }

  lemma AllViews(c: Config, s: Writer)
    requires Base(c, s)
    ensures forall k :: 0 <= k < |c.chunks| ==> c.chunks[k].View?
  {
    hide Inv, OwnerOk, OksOk;
  }

  lemma InvBase(c: Config, s: Writer)
    requires WriterInv(c, s)
    ensures Base(c, s) && ReportsOk(c, s)
  {
    hide Base, ReportsOk;
  }

  // ----- exactly when a chunk is reported without having been posted

  /** The guard under which a step reports chunks that are not posted: the writer goes on, there are
      chunks left, and the handle is disposing but still has its worker. */
  ghost predicate SkipsAt(c: Config, s: Writer, e: WriterEvent)
    requires WriteModes.Enabled(s, e)
  {
    var m := Mid(c, s, e);
    && (e.IntervalFires? || Resumes(c, s, m, e))
    && m.chunkIndex < |c.chunks| && m.rpc.StartedToDispose() && !m.rpc.IsDisposed()
  }

  /** How many of m writes are skipped. */
  function Skips(c: Config, s: Writer, m: nat): int {
    if s.rpc.StartedToDispose() && !s.rpc.IsDisposed() then Min(m, |c.chunks| - s.chunkIndex) else 0
  }

  /** How a batch of writes changes the number of skipped chunks. */
  lemma BatchSkips(c: Config, s: Writer, m: nat)
    requires Base(c, s) && ReportsOk(c, s)
    ensures var t := Writes(c, s, m);
            && t.skipped == s.skipped + Skips(c, s, m)
            && (s.rpc.StartedToDispose() ==> Posted(t) == Posted(s))
  {
    hide Base, Posted, Writes, LogOk, ChunksOf, Successes, Upward;
    BaseFacts(c, s);
    if !s.rpc.StartedToDispose() {
      PostBatchBase(c, s, m);
    } else if !s.rpc.IsDisposed() {
      SkipBatchBase(c, s, m);
      SameOwner(s, Writes(c, s, m));
    } else {
      GoneBatchBase(c, s, m);
    }
  }

  lemma StepSkips(c: Config, s: Writer, e: WriterEvent)
    requires WriterInv(c, s) && WriteModes.Enabled(s, e) && Benign(c, s, e)
    ensures var t := WriteModes.Step(c, s, e);
            && s.skipped <= t.skipped && (t.skipped > s.skipped <==> SkipsAt(c, s, e))
            && (SkipsAt(c, s, e) ==>
                  && Posted(t) == Posted(s)
                  && (if c.explicit then t.skipped == s.skipped + Min(c.writesPerTick, |c.chunks| - s.chunkIndex)
                      else t.skipped == |c.chunks| - s.chunkIndex && t.status.Finished?))
  {
    InvBase(c, s);
    MidReports(c, s, e);
    hide WriterInv, Base, ReportsOk, Mid, Posted, Benign, Loop, IntervalTick;
    var m := Mid(c, s, e);
    MidSkips(c, s, e);
    if e.IntervalFires? {
      IntervalSkips(c, m);
      IntervalExplicit(c, s);
    } else if Resumes(c, s, m, e) {
      LoopSkipsExactly(c, m);
      ResumedNothingSkipped(c, s);
    }
  }

  lemma IntervalSkips(c: Config, m: Writer)
    requires Base(c, m) && ReportsOk(c, m)
    ensures c.writesPerTick >= 1 && m.chunkIndex <= |c.chunks|
    ensures var t := IntervalTick(c, m);
            && t.skipped == m.skipped + Skips(c, m, c.writesPerTick)
            && (m.rpc.StartedToDispose() ==> Posted(t) == Posted(m))
  {
    hide Base, ReportsOk, Writes, Posted;
    BaseFacts(c, m);
    var m' := m.(ticks := m.ticks + 1, interval := m.interval && m.chunkIndex + c.writesPerTick <= |c.chunks|);
    BaseSame(c, m, m');
    ReportsKept(c, m, m');
    BatchSkips(c, m', c.writesPerTick);
    SameOwner(m, m');
  }

  lemma LoopSkipsExactly(c: Config, m: Writer)
    requires Base(c, m) && ReportsOk(c, m)
    ensures var t := Loop(c, m);
            && m.skipped <= t.skipped
            && (t.skipped > m.skipped <==> m.chunkIndex < |c.chunks| && m.rpc.StartedToDispose() && !m.rpc.IsDisposed())
            && (t.skipped > m.skipped ==>
                  Posted(t) == Posted(m) && t.skipped == m.skipped + |c.chunks| - m.chunkIndex && t.status.Finished?)
  {
    hide Base, ReportsOk, Writes, Posted;
    BaseFacts(c, m);
    var m' := m.(ticks := m.ticks + 1);
    BaseSame(c, m, m');
    ReportsKept(c, m, m');
    BatchSkips(c, m', c.writesPerTick);
    BatchSkips(c, m, c.writesPerTick);
    if m.chunkIndex < |c.chunks| {
      BatchSkips(c, m, |c.chunks| - m.chunkIndex);
      SameOwner(Writes(c, m, |c.chunks| - m.chunkIndex), Writes(c, m, |c.chunks| - m.chunkIndex).(status := Finished));
    }
  }

  lemma MidSkips(c: Config, s: Writer, e: WriterEvent)
    requires Base(c, s) && WriteModes.Enabled(s, e) && Benign(c, s, e)
    ensures var m := Mid(c, s, e); m.skipped == s.skipped && m.chunkIndex == s.chunkIndex && Posted(m) == Posted(s)
    ensures Mid(c, s, e).status.Running? ==> s.status.Running?
  {
    hide Base, Mid, Benign, Posted;
    if OwnDelivery(s, e) {
      OwnSettled(c, s, e);
    } else if e.Rpc? {
      OtherTraffic(c, s, e);
    } else {
      IntervalMid(c, s);
    }
  }

  lemma IntervalExplicit(c: Config, s: Writer)
    requires WriterInv(c, s) && s.interval
    ensures c.explicit
  {
    hide Base, Progress, Reported, Scheduled, ReportsOk;
  }

  lemma ResumedNothingSkipped(c: Config, s: Writer)
    requires WriterInv(c, s) && !c.explicit && s.status.Running?
    ensures s.skipped == 0
  {
    hide Base, Reported, Scheduled, ReportsOk, Posted;
  }

  /** A step of a run that starts in s reports chunks without posting them. */
  ghost predicate SkipsSomewhere(c: Config, s: Writer, es: seq<WriterEvent>)
    requires WriteModes.ValidRun(c, s, es)
    decreases es
  {
    es != [] && (SkipsAt(c, s, es[0]) || SkipsSomewhere(c, WriteModes.Step(c, s, es[0]), es[1..]))
  }

  lemma {:induction false} RunSkips(c: Config, s: Writer, es: seq<WriterEvent>)
    requires WriterInv(c, s) && WriteModes.ValidRun(c, s, es)
    ensures var t := WriteModes.Run(c, s, es);
            s.skipped <= t.skipped && (t.skipped > s.skipped <==> SkipsSomewhere(c, s, es))
    decreases es
  {
    hide WriterInv, WriteModes.Step, Benign, WriteModes.Enabled, SkipsAt;
    if es != [] {
      StepSkips(c, s, es[0]);
      WriterStep(c, s, es[0]);
      RunSkips(c, WriteModes.Step(c, s, es[0]), es[1..]);
    }
  }

  lemma StartSkips(c: Config, rpc: State)
    requires Fit(c, rpc)
    ensures Start(c, rpc).skipped > 0 <==> c.chunks != [] && rpc.StartedToDispose() && !rpc.IsDisposed()
  {
    BeginReports(c, rpc);
    hide Fit, Base, ReportsOk, Loop, IntervalTick;
    var s := Begin(rpc).(interval := true);
    BaseSame(c, Begin(rpc), s);
    ReportsKept(c, Begin(rpc), s);
    if c.explicit {
      IntervalSkips(c, s);
    } else {
      LoopSkipsExactly(c, Begin(rpc));
    }
  }

  /** The steps at which either writer reports chunks as written without posting them are exactly
      those at which it goes on with chunks left on a handle that is disposing and has its worker.
      The yielding loop then reports all that are left and finishes, the interval writer those of
      one tick. */
  lemma SkipsExactly(c: Config, s: Writer, e: WriterEvent)
    requires WriterReachable(c, s) && WriteModes.Enabled(s, e) && Benign(c, s, e)
    ensures var t := WriteModes.Step(c, s, e);
            && s.skipped <= t.skipped && (t.skipped > s.skipped <==> SkipsAt(c, s, e))
            && (SkipsAt(c, s, e) ==>
                  && Posted(t) == Posted(s)
                  && (if c.explicit then t.skipped == s.skipped + Min(c.writesPerTick, |c.chunks| - s.chunkIndex)
                      else t.skipped == |c.chunks| - s.chunkIndex && t.status.Finished?))
  {
    WriterReachableInv(c, s);
    hide WriterReachable, WriterInv, WriteModes.Step, WriteModes.Enabled, Benign, SkipsAt, Posted;
    StepSkips(c, s, e);
  }

  /** Over a whole run of either writer: every chunk reported through `onWrite` has been posted
      exactly when the writer neither was called nor went on, with chunks left, while the handle was
      disposing with its worker. */
  lemma AllReportedWerePosted(c: Config, rpc: State, es: seq<WriterEvent>)
    requires Fit(c, rpc) && WriteModes.ValidRun(c, Start(c, rpc), es)
    ensures var t := WriteModes.Run(c, Start(c, rpc), es);
            (forall i :: 0 <= i < |t.sources| ==> t.sources[i].posted) <==>
            !(c.chunks != [] && rpc.StartedToDispose() && !rpc.IsDisposed()) && !SkipsSomewhere(c, Start(c, rpc), es)
  {
    var t := WriteModes.Run(c, Start(c, rpc), es);
    assert WriterReachable(c, t);
    hide WriterReachable, WriteModes.Run, WriteModes.ValidRun, Fit, Start, WriterInv, Posted, ChunksOf, Successes,
        SkipsSomewhere;
    ReportsExact(c, t);
    StartInv(c, rpc);
    RunSkips(c, Start(c, rpc), es);
    StartSkips(c, rpc);
  }

  // ----- a disposal after the writer has started

  function TwoChunks(explicit: bool): Config {
    Config(3, [View(0, [1]), View(1, [2])], 1, explicit)
  }

  function OnePosted(explicit: bool, phase: Phase): Writer {
    var post := Post(Write, [Num(3), View(0, [1])]);
    Begin(INIT).(rpc := INIT.(phase := phase, lock := 1, queue := [0], inbox := [post], detached := {0},
                              calls := [Protocol.Call.Call(post, Pending, false, false, false, false, [])]),
                 owner := [Some(0)], chunkIndex := 1, ticks := 1, interval := explicit)
  }

  lemma StartsWithOne(explicit: bool)
    ensures Start(TwoChunks(explicit), INIT) == OnePosted(explicit, Live)
  {
    var c := TwoChunks(explicit);
    WriteAllowed(3, c.chunks[0], {});
    assert Writes(c, Begin(INIT), 0) == Begin(INIT);
    hide PostThrows, TransferList;
    assert INIT.detached + {0} == {0};
  }

  lemma OnePostedReached(explicit: bool)
    ensures WriterReachable(TwoChunks(explicit), OnePosted(explicit, Live))
  {
    StartsWithOne(explicit);
    FitTwoChunks(explicit);
    hide Fit, Start, WriterReachable;
    WriterStart(TwoChunks(explicit), INIT);
  }

  lemma DisposeDrains(explicit: bool)
    ensures var c, s, e := TwoChunks(explicit), OnePosted(explicit, Live), Rpc(Main(Dispose));
            && WriteModes.Enabled(s, e) && Benign(c, s, e) && WriteModes.Step(c, s, e) == OnePosted(explicit, Draining)
  {
    hide RunScript, Settled;
  }

  lemma DisposedAfterOne(explicit: bool)
    ensures WriterReachable(TwoChunks(explicit), OnePosted(explicit, Draining))
    ensures Posted(OnePosted(explicit, Draining)) == 1
  {
    var c, s0, s1 := TwoChunks(explicit), OnePosted(explicit, Live), OnePosted(explicit, Draining);
    assert s1.owner[..0] == [];
    hide WriterReachable, WriteModes.Step, Posted;
    OnePostedReached(explicit);
    DisposeDrains(explicit);
    WriterReachableStep(c, s0, Rpc(Main(Dispose)));
  }

  lemma IntervalAfterDispose()
    ensures exists s :: WriterReachable(TwoChunks(true), s) && Posted(s) == 1 && s.skipped == 1 && |s.log| == 1
  {
    var c, s := TwoChunks(true), OnePosted(true, Draining);
    DisposedAfterOne(true);
    hide WriterReachable, Posted;
    assert Mid(c, s, IntervalFires) == s;
    SkipsExactly(c, s, IntervalFires);
    WriterReachableStep(c, s, IntervalFires);
    assert Writes(c, s, 0) == s;
  }

  /** The loop's reply is under way when the handle is disposed. */
  function Replied(): Writer {
    var s := OnePosted(false, Draining);
    s.(rpc := s.rpc.(inbox := [], outbox := [Reply(Num(5), None)],
                     execs := [Worker.Exec.Exec(s.rpc.inbox[0], Returns(Num(5)))]))
  }

  lemma RepliedReachable()
    ensures WriterReachable(TwoChunks(false), Replied()) && Posted(Replied()) == 1
  {
    var c, s, e := TwoChunks(false), OnePosted(false, Draining), Rpc(WorkerRuns(Returns(Num(5))));
    DisposedAfterOne(false);
    SameOwner(s, Replied());
    hide WriterReachable, Posted;
    assert s.rpc.inbox[0].args[0] == Num(3);
    assert Mid(c, s, e) == Replied();
    WriterReachableStep(c, s, e);
  }

  lemma ReplySettles()
    ensures var e, t := Rpc(Delivery([])), Replied();
            && WriteModes.Enabled(t, e) && Benign(TwoChunks(false), t, e) && SkipsAt(TwoChunks(false), t, e)
            && Mid(TwoChunks(false), t, e).log == [(1, 0)] && Mid(TwoChunks(false), t, e).chunkIndex == 1
            && Mid(TwoChunks(false), t, e).sources == [Source(0, true)]
            && WriteModes.Step(TwoChunks(false), t, e) == Loop(TwoChunks(false), Mid(TwoChunks(false), t, e))
  {
    hide Posted;
    var e, t := Rpc(Delivery([])), Replied();
    assert OwnDelivery(t, e);
    assert RunScript(Protocol.Step(t.rpc, e.e), []) == Protocol.Step(t.rpc, e.e);
  }

  lemma LoopAfterDispose()
    ensures exists s ::
              && WriterReachable(TwoChunks(false), s)
              && Posted(s) == 1 && s.skipped == 1 && |s.log| == 2 && s.status.Finished?
  {
    var c, t, e := TwoChunks(false), Replied(), Rpc(Delivery([]));
    RepliedReachable();
    ReplySettles();
    SkipsExactly(c, t, e);
    WriterReachableStep(c, t, e);
    hide WriterReachable, Posted, WriteModes.Step, Loop, Mid, Benign, WriteModes.Enabled;
    LoopOfOne(c, Mid(c, t, e));
  }

  lemma LoopOfOne(c: Config, m: Writer)
    requires m.chunkIndex + 1 == |c.chunks| && m.rpc.StartedToDispose() && !m.rpc.IsDisposed()
    ensures |Loop(c, m).log| == |m.log| + 1
  {
    assert Writes(c, m, 0) == m;
  }

  lemma FitTwoChunks(explicit: bool)
    ensures Fit(TwoChunks(explicit), INIT)
  {
    StartReachable();
    hide Reachable;
  }

  lemma WriterStart(c: Config, rpc: State)
    requires Fit(c, rpc)
    ensures WriterReachable(c, Start(c, rpc))
  {
    assert WriteModes.ValidRun(c, Start(c, rpc), []) && WriteModes.Run(c, Start(c, rpc), []) == Start(c, rpc);
    hide Fit, Start, WriteModes.ValidRun, WriteModes.Run;
  }

  lemma {:induction false} WriterRunExtend(c: Config, s: Writer, es: seq<WriterEvent>, e: WriterEvent)
    requires WriteModes.ValidRun(c, s, es)
    requires WriteModes.Enabled(WriteModes.Run(c, s, es), e) && Benign(c, WriteModes.Run(c, s, es), e)
    ensures WriteModes.ValidRun(c, s, es + [e])
    ensures WriteModes.Run(c, s, es + [e]) == WriteModes.Step(c, WriteModes.Run(c, s, es), e)
    decreases es
  {
    hide WriteModes.Enabled, WriteModes.Step, Benign;
    if es == [] {
      assert ([e])[1..] == [];
    } else {
      WriterRunExtend(c, WriteModes.Step(c, s, es[0]), es[1..], e);
      assert (es + [e])[1..] == es[1..] + [e];
    }
  }

  lemma WriterReachableStep(c: Config, s: Writer, e: WriterEvent)
    requires WriterReachable(c, s) && WriteModes.Enabled(s, e) && Benign(c, s, e)
    ensures WriterReachable(c, WriteModes.Step(c, s, e))
  {
    var rpc, es :| Fit(c, rpc) && WriteModes.ValidRun(c, Start(c, rpc), es)
        && s == WriteModes.Run(c, Start(c, rpc), es);
    hide WriteModes.Enabled, WriteModes.Step, Benign, Fit, Start;
    WriterRunExtend(c, Start(c, rpc), es, e);
  }
}
