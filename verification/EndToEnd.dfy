/** The interval-driven writer, its equivalence with the yielding loop, and what
    AsyncReaderWriter.writeChunks delivers end to end (src/async-reader-writer.ts:14-26). */
module EndToEnd {
  import opened Wire
  import opened Counting
  import opened Protocol
  import opened Invariant
  import opened Guarantees
  import opened Ownership
  import opened Tools
  import opened WriteModes
  import opened WriteModesInvariant
  import opened WriteModesGuarantees

  // ----- explicit scheduling

  ghost predicate Scheduled(c: Config, s: Writer) {
    var n, w := |c.chunks|, c.writesPerTick;
    && (Posted(s) == s.chunkIndex || s.rpc.StartedToDispose())
    && (s.interval ==> s.chunkIndex == Steps(s.ticks, w) <= n)
    && (!s.interval ==> s.chunkIndex == n && s.ticks > 0 && Steps(s.ticks - 1, w) <= n < Steps(s.ticks, w))
  }

  ghost predicate ExplicitInv(c: Config, s: Writer) {
    Base(c, s) && c.explicit && Scheduled(c, s)
  }

  /** Fields that the invariant does not mention, and chunks given up on a handle that is gone. */
  lemma BaseKept(c: Config, s: Writer, t: Writer)
    requires Base(c, s) && s.chunkIndex <= t.chunkIndex <= |c.chunks|
    requires t == s.(ticks := t.ticks, interval := t.interval, chunkIndex := t.chunkIndex)
    ensures Base(c, t) && Posted(t) == Posted(s)
  {
  }

  lemma IntervalTickInv(c: Config, s: Writer)
    requires ExplicitInv(c, s) && s.interval
    ensures ExplicitInv(c, IntervalTick(c, s))
  {
    hide Base, Posted, Writes;
    BaseFacts(c, s);
    var s' := s.(ticks := s.ticks + 1, interval := s.chunkIndex + c.writesPerTick <= |c.chunks|);
    BaseKept(c, s, s');
    if s.rpc.IsDisposed() {
      GoneBatchBase(c, s', c.writesPerTick);
    } else if s.rpc.StartedToDispose() {
      SkipBatchBase(c, s', c.writesPerTick);
    } else {
      PostBatchBase(c, s', c.writesPerTick);
    }
  }

  lemma ExplicitStep(c: Config, s: Writer, e: WriterEvent)
    requires ExplicitInv(c, s) && WriteModes.Enabled(s, e) && Benign(c, s, e)
    ensures ExplicitInv(c, WriteModes.Step(c, s, e))
  {
    hide Base, Mid, Benign, Posted, IntervalTick;
    if e.IntervalFires? {
      IntervalTickInv(c, s);
      assert Mid(c, s, e) == s by { IntervalMid(c, s); }
    } else if OwnDelivery(s, e) {
      OwnSettled(c, s, e);
    } else {
      OtherTraffic(c, s, e);
    }
  }

  lemma IntervalMid(c: Config, s: Writer)
    requires s.interval
    ensures Mid(c, s, IntervalFires) == s
  {
  }

  lemma {:induction false} ExplicitRun(c: Config, s: Writer, es: seq<WriterEvent>)
    requires ExplicitInv(c, s) && WriteModes.ValidRun(c, s, es)
    ensures ExplicitInv(c, WriteModes.Run(c, s, es))
    decreases es
  {
    hide ExplicitInv, WriteModes.Step;
    if es != [] {
      ExplicitStep(c, s, es[0]);
      ExplicitRun(c, WriteModes.Step(c, s, es[0]), es[1..]);
    }
  }

  ghost predicate ExplicitReachable(c: Config, s: Writer) {
    c.explicit && WriterReachable(c, s)
  }

  lemma ExplicitReachableInv(c: Config, s: Writer)
    requires ExplicitReachable(c, s)
    ensures ExplicitInv(c, s)
  {
    var rpc, es :| Fit(c, rpc) && WriteModes.ValidRun(c, Start(c, rpc), es)
        && s == WriteModes.Run(c, Start(c, rpc), es);
    hide Base, IntervalTick, Fit, WriteModes.ValidRun, WriteModes.Run;
    FirstTick(c, rpc);
    ExplicitRun(c, Start(c, rpc), es);
  }

  lemma FirstTick(c: Config, rpc: State)
    requires Fit(c, rpc) && c.explicit
    ensures ExplicitInv(c, Start(c, rpc))
  {
    hide Inv, OwnerOk, OksOk, Owned, NoThrow, IntervalTick, Fit;
    BeginBase(c, rpc);
    IntervalTickInv(c, Begin(rpc).(interval := true));
  }

  /** The interval is cleared by tick number floor(n / w) + 1, counting the synchronous first one,
      and not before; if the handle is not disposing then, every chunk has been posted. */
  lemma ExplicitScheduling(c: Config, s: Writer)
    requires ExplicitReachable(c, s)
    ensures c.writesPerTick > 0
    ensures s.interval <==> s.ticks <= |c.chunks| / c.writesPerTick
    ensures !s.interval ==> s.ticks == |c.chunks| / c.writesPerTick + 1
    ensures !s.interval && !s.rpc.StartedToDispose() ==> Posted(s) == |c.chunks|
  {
    hide ExplicitReachable, Base, Posted;
    ExplicitReachableInv(c, s);
    BaseFacts(c, s);
    var n, w := |c.chunks|, c.writesPerTick;
    DivSteps(n, w);
    if s.interval {
      if n / w < s.ticks {
        StepsGrow(n / w, s.ticks, w);
      }
    } else {
      DivUnique(n, w, s.ticks - 1);
    }
  }

  // ----- equivalence of the schedulers

  /** The writer's own posts, in the order of their calls. */
  function OwnPosted(s: Writer): seq<Post>
    requires |s.owner| == |s.rpc.calls|
  {
    OwnPosts(seq(|s.rpc.calls|, i requires 0 <= i < |s.rpc.calls| => s.rpc.calls[i].post), s.owner)
  }

  lemma PostedInOrder(c: Config, s: Writer)
    requires Base(c, s)
    ensures |s.owner| == |s.rpc.calls| && Posted(s) <= |c.chunks| && OwnPosted(s) == WritePosts(c, Posted(s))
  {
    OwnPostsAre(c, s.rpc.calls, s.owner, seq(|s.rpc.calls|, i requires 0 <= i < |s.rpc.calls| => s.rpc.calls[i].post));
  }

  lemma SameChunksSamePosts(a: Config, b: Config, m: nat)
    requires a.fd == b.fd && a.chunks == b.chunks && m <= |a.chunks|
    ensures WritePosts(a, m) == WritePosts(b, m)
  {
  }

  /** Both schedulers post exactly the chunks, each once and in order: at any time a prefix, and the
      same sequence once the loop has finished and the interval is cleared on live handles. */
  lemma SchedulersEquivalent(a: Config, s: Writer, b: Config, t: Writer)
    requires a.fd == b.fd && a.chunks == b.chunks && YieldingReachable(a, s) && ExplicitReachable(b, t)
    ensures |s.owner| == |s.rpc.calls| && |t.owner| == |t.rpc.calls|
    ensures OwnPosted(s) <= OwnPosted(t) || OwnPosted(t) <= OwnPosted(s)
    ensures s.status.Finished? && s.skipped == 0 && !t.interval && !t.rpc.StartedToDispose() ==>
              OwnPosted(s) == OwnPosted(t) == WritePosts(a, |a.chunks|)
  {
    hide WriterReachable, Posted, OwnPosted, WritePosts;
    YieldingLoop(a, s);
    ExplicitScheduling(b, t);
    InvariantPosts(a, s);
    InvariantPosts(b, t);
    SameChunksSamePosts(a, b, Posted(t));
    PostsPrefix(a, Posted(s), Posted(t));
  }

  /** The common part of the invariants of both writers. */
  lemma ReachableBase(c: Config, s: Writer)
    requires WriterReachable(c, s)
    ensures Base(c, s)
  {
    hide WriterReachable, Base, Progress, Reported, Scheduled;
    if c.explicit {
      ExplicitReachableInv(c, s);
    } else {
      YieldingReachableInv(c, s);
    }
  }

  lemma InvariantPosts(c: Config, s: Writer)
    requires WriterReachable(c, s)
    ensures |s.owner| == |s.rpc.calls| && Posted(s) <= |c.chunks| && OwnPosted(s) == WritePosts(c, Posted(s))
  {
    hide WriterReachable, Base, OwnPosted, WritePosts, Posted;
    ReachableBase(c, s);
    PostedInOrder(c, s);
  }

  /** What the worker has executed for either writer is a prefix of its chunks' writes, in order, each
      once; it includes all settled ones. */
  lemma ExecutedPrefix(c: Config, s: Writer)
    requires WriterReachable(c, s)
    ensures |s.rpc.execs| <= |s.owner|
    ensures exists m :: |s.oks| <= m <= Posted(s) <= |c.chunks| && OwnExecuted(s) == WritePosts(c, m)
    ensures forall k :: 0 <= k < |OwnExecuted(s)| ==>
              k < |c.chunks| && OwnExecuted(s)[k] == Post(Write, [Num(c.fd), c.chunks[k]])
  {
    hide WriterReachable, Base, OwnExecuted, WritePosts, Posted;
    ReachableBase(c, s);
    BaseExecuted(c, s);
    var m :| |s.oks| <= m <= Posted(s) <= |c.chunks| && OwnExecuted(s) == WritePosts(c, m);
    WritesOf(c, m);
  }

  lemma WritesOf(c: Config, m: nat)
    requires m <= |c.chunks|
    ensures |WritePosts(c, m)| == m
    ensures forall k :: 0 <= k < m ==> WritePosts(c, m)[k] == Post(Write, [Num(c.fd), c.chunks[k]])
  {
  }

  /** The writer's posts, for either writer: the write of chunk k to its socket, for each k in order. */
  lemma PostedExactly(c: Config, s: Writer)
    requires WriterReachable(c, s)
    ensures |s.owner| == |s.rpc.calls| && |OwnPosted(s)| == Posted(s) <= |c.chunks|
    ensures forall k :: 0 <= k < Posted(s) ==> OwnPosted(s)[k] == Post(Write, [Num(c.fd), c.chunks[k]])
  {
    hide WriterReachable, OwnPosted, WritePosts, Posted;
    InvariantPosts(c, s);
    WritesOf(c, Posted(s));
  }

  lemma PostsPrefix(c: Config, p: nat, q: nat)
    requires p <= |c.chunks| && q <= |c.chunks|
    ensures WritePosts(c, p) <= WritePosts(c, q) || WritePosts(c, q) <= WritePosts(c, p)
  {
  }

  // ----- AsyncReaderWriter.writeChunks

  function Views(slices: seq<seq<byte>>, buffers: seq<nat>): seq<Value>
    requires |buffers| == |slices|
  {
    seq(|slices|, k requires 0 <= k < |slices| => View(buffers[k], slices[k]))
  }

  /** The bytes that native `write` is called with, one call after the other. */
  function Payload(posts: seq<Post>): seq<byte> {
    if posts == [] then []
    else
      var last := posts[|posts| - 1];
      Payload(posts[..|posts| - 1]) + (if |last.args| > 1 && last.args[1].View? then last.args[1].bytes else [])
  }

  /** The buffers that change owner with these posts. */
  function Transfers(posts: seq<Post>): seq<nat> {
    if posts == [] then []
    else Transfers(posts[..|posts| - 1]) + TransferList(posts[|posts| - 1].args)
  }

  lemma {:induction false} WritesCarry(c: Config, slices: seq<seq<byte>>, buffers: seq<nat>, m: nat)
    requires |buffers| == |slices| && c.chunks == Views(slices, buffers) && m <= |slices|
    ensures Payload(WritePosts(c, m)) == Concat(slices[..m])
    ensures Transfers(WritePosts(c, m)) == buffers[..m]
  {
    if m > 0 {
      WritesCarry(c, slices, buffers, m - 1);
      var posts := WritePosts(c, m);
      assert posts[..m - 1] == WritePosts(c, m - 1);
      assert posts[m - 1] == c.WritePost(m - 1);
      OneView(c.fd, c.chunks[m - 1]);
      assert posts[m - 1].args[1] == View(buffers[m - 1], slices[m - 1]);
      ConcatTake(slices, m - 1);
    }
  }

  lemma WriterDelivers(c: Config, slices: seq<seq<byte>>, buffers: seq<nat>, s: Writer)
    requires |buffers| == |slices| && c.chunks == Views(slices, buffers) && YieldingReachable(c, s)
    ensures |s.rpc.execs| <= |s.owner|
    ensures exists m ::
              && 0 <= m <= |slices| && m <= Posted(s)
              && Payload(OwnExecuted(s)) == Concat(slices[..m]) && Transfers(OwnExecuted(s)) == buffers[..m]
              && (s.status.Finished? && s.skipped == 0 ==> m == |slices|)
  {
    hide WriterReachable, OwnExecuted, Owned, Payload, Transfers, Concat;
    YieldingLoop(c, s);
    ExecutedPrefix(c, s);
    var m :| |s.oks| <= m <= Posted(s) <= |c.chunks| && OwnExecuted(s) == WritePosts(c, m);
    WritesCarry(c, slices, buffers, m);
  }

  lemma WriterPosts(c: Config, slices: seq<seq<byte>>, buffers: seq<nat>, s: Writer)
    requires |buffers| == |slices| && c.chunks == Views(slices, buffers) && WriterReachable(c, s)
    ensures |s.owner| == |s.rpc.calls| && Posted(s) <= |slices| && Distinct(buffers)
    ensures Payload(OwnPosted(s)) == Concat(slices[..Posted(s)]) && Transfers(OwnPosted(s)) == buffers[..Posted(s)]
  {
    hide WriterReachable, Base, OwnPosted, Owned, Payload, Transfers, Concat;
    ReachableBase(c, s);
    PostedInOrder(c, s);
    WritesCarry(c, slices, buffers, Posted(s));
    BuffersDistinct(c, s, slices, buffers);
  }

  lemma BuffersDistinct(c: Config, s: Writer, slices: seq<seq<byte>>, buffers: seq<nat>)
    requires |buffers| == |slices| && c.chunks == Views(slices, buffers) && Base(c, s)
    ensures Distinct(buffers)
  {
    hide Inv, OwnerOk, OksOk;
    forall i, j | 0 <= i < j < |buffers| ensures buffers[i] != buffers[j] {
      assert c.chunks[i].buffer != c.chunks[j].buffer;
    }
  }

  // ----- the writer is a client of the protocol

  lemma WriteOneReachable(c: Config, s: Writer)
    requires Reachable(s.rpc) && s.chunkIndex < |c.chunks|
    ensures Reachable(WriteOne(c, s).rpc)
  {
    ActReachable(s.rpc, Invocation(c.WritePost(s.chunkIndex), false, false));
    hide Reachable, Invoke;
  }

  lemma {:induction false} WritesReachable(c: Config, s: Writer, m: nat)
    requires Reachable(s.rpc)
    ensures Reachable(Writes(c, s, m).rpc)
  {
    hide Reachable, WriteOne;
    if m > 0 {
      WritesReachable(c, s, m - 1);
      var t := Writes(c, s, m - 1);
      if t.chunkIndex < |c.chunks| {
        WriteOneReachable(c, t);
      }
    }
  }

  lemma LoopReachable(c: Config, s: Writer)
    requires Reachable(s.rpc)
    ensures Reachable(Loop(c, s).rpc)
  {
    hide Reachable, Writes;
    WritesReachable(c, s.(ticks := s.ticks + 1), c.writesPerTick);
    WritesReachable(c, s, c.writesPerTick);
    if s.chunkIndex < |c.chunks| {
      WritesReachable(c, s, |c.chunks| - s.chunkIndex);
    }
  }

  lemma IntervalReachable(c: Config, s: Writer)
    requires Reachable(s.rpc)
    ensures Reachable(IntervalTick(c, s).rpc)
  {
    hide Reachable, Writes;
    var interval := s.interval && s.chunkIndex + c.writesPerTick <= |c.chunks|;
    WritesReachable(c, s.(ticks := s.ticks + 1, interval := interval), c.writesPerTick);
  }

  lemma MidReachable(c: Config, s: Writer, e: WriterEvent)
    requires Reachable(s.rpc) && WriteModes.Enabled(s, e)
    ensures Reachable(Mid(c, s, e).rpc)
  {
    hide Reachable, Protocol.Step, RunScript, Protocol.Enabled;
    if e.Rpc? {
      var rpc := Protocol.Step(s.rpc, e.e);
      ReachableStep(s.rpc, e.e);
      if e.e.Delivery? {
        ScriptReachable(rpc, e.e.script);
      }
    }
  }

  lemma WriterStepReachable(c: Config, s: Writer, e: WriterEvent)
    requires Reachable(s.rpc) && WriteModes.Enabled(s, e)
    ensures Reachable(WriteModes.Step(c, s, e).rpc)
  {
    hide Reachable, Mid, Loop, IntervalTick;
    MidReachable(c, s, e);
    LoopReachable(c, Mid(c, s, e));
    IntervalReachable(c, Mid(c, s, e));
  }

  lemma {:induction false} WriterRunReachable(c: Config, s: Writer, es: seq<WriterEvent>)
    requires Reachable(s.rpc) && WriteModes.ValidRun(c, s, es)
    ensures Reachable(WriteModes.Run(c, s, es).rpc)
    decreases es
  {
    hide Reachable, WriteModes.Step, WriteModes.Enabled, Benign;
    if es != [] {
      WriterStepReachable(c, s, es[0]);
      WriterRunReachable(c, WriteModes.Step(c, s, es[0]), es[1..]);
    }
  }

  /** The handle of a writer is in a state that the protocol reaches, so the theorems about it apply. */
  lemma HandleReachable(c: Config, s: Writer)
    requires WriterReachable(c, s)
    ensures Reachable(s.rpc)
  {
    var rpc, es :| Fit(c, rpc) && WriteModes.ValidRun(c, Start(c, rpc), es)
        && s == WriteModes.Run(c, Start(c, rpc), es);
    hide Reachable, Loop, IntervalTick, WriteModes.ValidRun, WriteModes.Run;
    LoopReachable(c, Begin(rpc));
    IntervalReachable(c, Begin(rpc).(interval := true));
    WriterRunReachable(c, Start(c, rpc), es);
  }

  // ----- end to end

  /** The writer's calls are those of its chunks, and no other call transfers a chunk's buffer. */
  lemma OwnMoves(c: Config, s: Writer, i: nat, b: nat)
    requires Base(c, s) && i < |s.owner| && s.owner[i].Some?
    ensures |s.owner| == |s.rpc.calls| && s.owner[i].value < |c.chunks| && !Invariant.Failed(s.rpc.calls[i])
    ensures s.rpc.calls[i].post == c.WritePost(s.owner[i].value) && c.chunks[s.owner[i].value].View?
    ensures Moves(s.rpc.calls, i, b) <==> b == c.chunks[s.owner[i].value].buffer
  {
    hide Inv, OksOk, TransferList;
    OneView(c.fd, c.chunks[s.owner[i].value]);
  }

  lemma {:induction false} OwnerOf(c: Config, calls: seq<Call>, owner: seq<Option<nat>>, k: nat) returns (i: nat)
    requires OwnerOk(c, calls, owner) && k < Owned(owner)
    ensures i < |owner| && owner[i] == Some(k)
  {
    var n := |owner| - 1;
    assert owner[..n + 1] == owner;
    if owner[n].Some? && k == Owned(owner[..n]) {
      i := n;
    } else {
      OwnerPrefix(c, calls, owner, n);
      i := OwnerOf(c, calls[..n], owner[..n], k);
    }
  }

  /** The k-th settled write of either writer succeeded exactly when the native write of chunk k returned
      a value other than -1. */
  lemma SettledExactly(c: Config, s: Writer, k: nat)
    requires WriterReachable(c, s) && k < |s.oks|
    ensures k < |c.chunks| && s.rpc.delivered <= |s.rpc.execs| && s.rpc.delivered <= |s.owner|
    ensures exists i: nat ::
              && i < s.rpc.delivered && s.owner[i] == Some(k)
              && s.rpc.execs[i].post == Post(Write, [Num(c.fd), c.chunks[k]])
              && (s.oks[k] <==> s.rpc.execs[i].native.Returns? && s.rpc.execs[i].native.value != Num(-1))
  {
    ReachableBase(c, s);
    BaseFacts(c, s);
    var d := s.rpc.delivered;
    OwnerPrefix(c, s.rpc.calls, s.owner, d);
    var i := OwnerOf(c, s.rpc.calls[..d], s.owner[..d], k);
    hide WriterReachable;
    DeliveredWrite(c, s, i);
  }

  lemma DeliveredWrite(c: Config, s: Writer, i: nat)
    requires Base(c, s) && i < s.rpc.delivered <= |s.owner| && s.owner[i].Some?
    ensures s.rpc.delivered <= |s.rpc.execs| && s.owner[i].value < |c.chunks|
    ensures s.rpc.execs[i].post == Post(Write, [Num(c.fd), c.chunks[s.owner[i].value]])
    ensures s.owner[i].value < |s.oks| ==>
              (s.oks[s.owner[i].value] <==> s.rpc.execs[i].native.Returns? && s.rpc.execs[i].native.value != Num(-1))
  {
    IdentityPositions(s.rpc.calls);
    assert CallOk(s.rpc.calls[i], ResultAt(s.rpc.taken, s.rpc.delivered, i));
    assert PostedIds(s.rpc.calls)[i] == i;
  }

  /** A buffer of a posted chunk is lost, by the write of that chunk and no other call; another
      buffer can only have been lost by a call of somebody else. */
  lemma WriterMoves(c: Config, s: Writer, b: nat)
    requires WriterReachable(c, s)
    ensures Posted(s) <= |c.chunks| && |s.owner| == |s.rpc.calls|
    ensures forall k :: 0 <= k < Posted(s) ==> c.chunks[k].View?
    ensures forall i: nat, k :: 0 <= k < Posted(s) && Moves(s.rpc.calls, i, c.chunks[k].buffer) ==>
              s.owner[i] == Some(k)
    ensures forall k :: 0 <= k < Posted(s) ==> c.chunks[k].buffer in s.rpc.detached
    ensures (forall k :: 0 <= k < |c.chunks| && c.chunks[k].View? ==> c.chunks[k].buffer != b) ==>
              (b in s.rpc.detached <==> exists i: nat :: Moves(s.rpc.calls, i, b) && s.owner[i].None?)
  {
    ReachableBase(c, s);
    HandleReachable(c, s);
    TransferredOnce(s.rpc);
    hide WriterReachable, Reachable, Inv, OksOk, Moves;
    var calls := s.rpc.calls;
    forall k | 0 <= k < Posted(s)
      ensures c.chunks[k].View? && c.chunks[k].buffer in s.rpc.detached
      ensures forall i: nat :: Moves(calls, i, c.chunks[k].buffer) ==> s.owner[i] == Some(k)
    {
      var j := OwnerOf(c, calls, s.owner, k);
      OwnMoves(c, s, j, c.chunks[k].buffer);
      MovesBound(calls);
    }
    if forall k :: 0 <= k < |c.chunks| && c.chunks[k].View? ==> c.chunks[k].buffer != b {
      MovesBound(calls);
      forall i: nat | Moves(calls, i, b) ensures s.owner[i].None? {
        if s.owner[i].Some? {
          OwnMoves(c, s, i, b);
        }
      }
    }
  }

  lemma MovesBound(calls: seq<Call>)
    ensures forall i: nat, b :: Moves(calls, i, b) ==> i < |calls|
  {
  }

  /** For any buffer, MTU and writesPerTick: the payloads of the native writes that the worker has
      executed for `writeChunks` always concatenate to a prefix of the buffer, and to all of it when
      the loop has finished on a handle that was not disposing. The buffers that the writer's posts
      transfer are those of the posted chunks, in order, each by the write of its chunk and by no
      other call. The source's buffer is lost only to a call of somebody else. */
  lemma WriteChunksEndToEnd(fd: int, buffer: seq<byte>, source: nat, mtu: nat, w: nat, buffers: seq<nat>, s: Writer)
    requires mtu > 0 && |buffers| == SliceCount(mtu, |buffer|) && source !in buffers
    requires YieldingReachable(Config(fd, Views(Slices(buffer, mtu, |buffer|, 0), buffers), w, false), s)
    ensures |s.rpc.execs| <= |s.owner| == |s.rpc.calls| && Posted(s) <= |buffers| && Distinct(buffers)
    ensures Payload(OwnExecuted(s)) <= Payload(OwnPosted(s)) <= buffer
    ensures Transfers(OwnExecuted(s)) <= Transfers(OwnPosted(s)) == buffers[..Posted(s)]
    ensures var slices := Slices(buffer, mtu, |buffer|, 0);
            && |OwnExecuted(s)| <= |OwnPosted(s)| == Posted(s)
            && (forall k :: 0 <= k < |OwnPosted(s)| ==>
                  OwnPosted(s)[k] == Post(Write, [Num(fd), View(buffers[k], slices[k])]))
            && (forall k :: 0 <= k < |OwnExecuted(s)| ==>
                  OwnExecuted(s)[k] == Post(Write, [Num(fd), View(buffers[k], slices[k])]))
    ensures forall k :: 0 <= k < Posted(s) ==> buffers[k] in s.rpc.detached
    ensures forall i: nat, k :: 0 <= k < Posted(s) && Moves(s.rpc.calls, i, buffers[k]) ==> s.owner[i] == Some(k)
    ensures source in s.rpc.detached <==> exists i: nat :: Moves(s.rpc.calls, i, source) && s.owner[i].None?
    ensures s.status.Finished? && s.skipped == 0 ==>
              Payload(OwnExecuted(s)) == buffer && Transfers(OwnExecuted(s)) == buffers
  {
    hide WriterReachable, OwnExecuted, OwnPosted, Slices, Concat, Payload, Transfers, SliceCount, Posted, Moves;
    var slices := Slices(buffer, mtu, |buffer|, 0);
    var c := Config(fd, Views(slices, buffers), w, false);
    WriterDelivers(c, slices, buffers, s);
    WriterPosts(c, slices, buffers, s);
    WriterMoves(c, s, source);
    PostedExactly(c, s);
    ExecutedPrefix(c, s);
    ExecutedSize(c, s);
    SlicesExact(buffer, mtu, |buffer|, 0);
    ViewsOf(slices, buffers);
    var m :| 0 <= m <= |slices| && m <= Posted(s) && Payload(OwnExecuted(s)) == Concat(slices[..m])
             && Transfers(OwnExecuted(s)) == buffers[..m] && (s.status.Finished? && s.skipped == 0 ==> m == |slices|);
    ConcatPrefix(slices, Posted(s));
    ConcatPrefix(slices[..Posted(s)], m);
    assert slices[..Posted(s)][..m] == slices[..m] && buffers[..m] <= buffers[..Posted(s)];
    assert buffer[0..|buffer|] == buffer;
    assert slices[..|slices|] == slices && buffers[..|slices|] == buffers;
  }

  lemma ExecutedSize(c: Config, s: Writer)
    requires WriterReachable(c, s)
    ensures |s.rpc.execs| <= |s.owner| && |OwnExecuted(s)| <= Posted(s)
  {
    hide WriterReachable, OwnExecuted, WritePosts, Posted;
    ExecutedPrefix(c, s);
    var m :| |s.oks| <= m <= Posted(s) <= |c.chunks| && OwnExecuted(s) == WritePosts(c, m);
    WritesOf(c, m);
  }

  lemma ViewsOf(slices: seq<seq<byte>>, buffers: seq<nat>)
    requires |buffers| == |slices|
    ensures forall k :: 0 <= k < |slices| ==> Views(slices, buffers)[k] == View(buffers[k], slices[k])
  {
  }
}
