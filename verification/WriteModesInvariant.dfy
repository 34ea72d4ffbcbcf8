/** The inductive invariant of the burst writers. */
module WriteModesInvariant {
  import opened Wire
  import opened Counting
  import opened Protocol
  import opened Invariant
  import opened Guarantees
  import opened Tools
  import opened WriteModes

  /** The calls of the writer are its chunks, in order and without gap. */
  ghost predicate OwnerOk(c: Config, calls: seq<Call>, owner: seq<Option<nat>>) {
    && |owner| == |calls|
    && forall i :: 0 <= i < |owner| && owner[i].Some? ==>
         && owner[i].value == Owned(owner[..i]) && owner[i].value < |c.chunks|
         && calls[i].post == c.WritePost(owner[i].value) && !calls[i].hasCallback && Patient(calls[i])
  }

  /** The settled writes are those delivered, with the outcome their reply carries. */
  ghost predicate OksOk(delivered: nat, taken: seq<Reply>, owner: seq<Option<nat>>, oks: seq<bool>) {
    && delivered <= |owner| && delivered <= |taken|
    && |oks| == Owned(owner[..delivered])
    && forall i :: 0 <= i < delivered && owner[i].Some? && owner[i].value < |oks| ==>
         (oks[owner[i].value] <==> taken[i].result != SRT_ERROR)
  }

  ghost predicate Base(c: Config, s: Writer) {
    && c.Valid() && Inv(s.rpc, 0) && NoThrow(s.rpc.calls) && Untouched(c, s)
    && OwnerOk(c, s.rpc.calls, s.owner) && OksOk(s.rpc.delivered, s.rpc.taken, s.owner, s.oks)
    && |s.oks| <= Posted(s) <= s.chunkIndex <= |c.chunks|
    && s.chunkWrittenIdx == |s.log|
  }

  lemma BaseFacts(c: Config, s: Writer)
    requires Base(c, s)
    ensures c.writesPerTick >= 1 && |s.oks| <= Posted(s) <= s.chunkIndex <= |c.chunks| && s.chunkWrittenIdx == |s.log|
  {
    hide Inv, OwnerOk, OksOk, Posted;
  }

  predicate AllOk(oks: seq<bool>) { forall j :: 0 <= j < |oks| ==> oks[j] }

  /** `onWrite` has been called with the length and the index of each of the first m chunks. */
  function FullLog(c: Config, m: nat): seq<(nat, nat)>
    requires m <= |c.chunks|
  {
    seq(m, k requires 0 <= k < m => (c.Length(k), k))
  }

  // ----- counting owners

  lemma OwnedMono(owner: seq<Option<nat>>, i: nat, j: nat)
    requires i <= j <= |owner|
    ensures Owned(owner[..i]) <= Owned(owner[..j]) <= Owned(owner)
  {
    CountSplit(owner[..j], i, IsOwn);
    assert owner[..j][..i] == owner[..i];
    CountSplit(owner, j, IsOwn);
  }

  lemma OwnedNext(owner: seq<Option<nat>>, i: nat)
    requires i < |owner|
    ensures Owned(owner[..i + 1]) == Owned(owner[..i]) + (if owner[i].Some? then 1 else 0)
  {
    assert owner[..i + 1][..i] == owner[..i];
  }

  lemma PadKeeps(owner: seq<Option<nat>>, calls: nat)
    requires |owner| <= calls
    ensures var p := Pad(owner, calls, None);
            |p| == calls && Owned(p) == Owned(owner) &&
            (forall i :: 0 <= i <= |owner| ==> p[..i] == owner[..i]) &&
            (forall i :: 0 <= i < |owner| ==> p[i] == owner[i]) &&
            (forall i :: |owner| <= i < calls ==> p[i].None?)
  {
    var p := Pad(owner, calls, None);
    CountSplit(p, |owner|, IsOwn);
    CountZero(p[|owner|..], IsOwn);
    assert p[..|owner|] == owner;
  }

  lemma PadOk(c: Config, calls: seq<Call>, owner: seq<Option<nat>>, calls': seq<Call>)
    requires OwnerOk(c, calls, owner) && SamePosts(calls, calls')
    ensures OwnerOk(c, calls', Pad(owner, |calls'|, None))
  {
    PadKeeps(owner, |calls'|);
  }

  // ----- posting

  lemma NextOwnerOk(c: Config, calls: seq<Call>, owner: seq<Option<nat>>, call: Call)
    requires OwnerOk(c, calls, owner) && Owned(owner) < |c.chunks|
    requires call.post == c.WritePost(Owned(owner)) && !call.hasCallback && Patient(call)
    ensures OwnerOk(c, calls + [call], owner + [Some(Owned(owner))])
    ensures Owned(owner + [Some(Owned(owner))]) == Owned(owner) + 1
  {
    var owner' := owner + [Some(Owned(owner))];
    assert owner'[..|owner|] == owner;
    forall i | 0 <= i < |owner| ensures owner'[..i] == owner[..i] {}
  }

  lemma OneView(fd: int, v: Value)
    requires v.View?
    ensures TransferList([Num(fd), v]) == [v.buffer]
  {
    var args := [Num(fd), v];
    assert args[..1] == [Num(fd)] && args[..1][..0] == [];
    assert TransferList(args[..1]) == [];
  }

  lemma WriteAllowed(fd: int, v: Value, detached: set<nat>)
    requires v.View? && v.buffer !in detached
    ensures var args := [Num(fd), v];
            !PostThrows(detached, args) && Undefined !in args && SetOf(TransferList(args)) == {v.buffer}
  {
    var args := [Num(fd), v];
    OneView(fd, v);
    assert args[0] == Num(fd) && args[1] == v;
  }

  /** A write of an undetached chunk is accepted and its buffer changes owner. */
  lemma WriteAccepted(c: Config, rpc: State, k: nat)
    requires c.Valid() && k < |c.chunks| && Inv(rpc, 0) && !rpc.StartedToDispose()
    requires c.chunks[k].buffer !in rpc.detached
    ensures var rpc' := Invoke(rpc, c.WritePost(k), false, false);
            && Inv(rpc', 0) && rpc'.phase == rpc.phase
            && rpc'.calls == rpc.calls + [Call(c.WritePost(k), Pending, false, false, false, false, [])]
            && rpc'.detached == rpc.detached + {c.chunks[k].buffer}
            && rpc'.delivered == rpc.delivered && rpc'.taken == rpc.taken
  {
    var post := c.WritePost(k);
    InvokeInv(rpc, post, false, false, 0);
    hide Inv;
    WriteAllowed(c.fd, c.chunks[k], rpc.detached);
    hide PostThrows, TransferList;
  }

  lemma OwnerSize(c: Config, calls: seq<Call>, owner: seq<Option<nat>>)
    requires OwnerOk(c, calls, owner)
    ensures |owner| == |calls|
  {
  }

  lemma PostNextBase(c: Config, s: Writer)
    requires Base(c, s) && s.chunkIndex < |c.chunks| && Posted(s) == s.chunkIndex && !s.rpc.StartedToDispose()
    ensures var t := PostNext(c, s);
            && Base(c, t) && Posted(t) == t.chunkIndex && !t.rpc.StartedToDispose()
            && t == s.(rpc := t.rpc, owner := t.owner, chunkIndex := s.chunkIndex + 1)
  {
    hide Inv, Invoke, OwnerOk, Count;
    var t := PostNext(c, s);
    WriteAccepted(c, s.rpc, s.chunkIndex);
    OwnerSize(c, s.rpc.calls, s.owner);
    NextOwnerOk(c, s.rpc.calls, s.owner, t.rpc.calls[|s.rpc.calls|]);
    assert t.owner[..s.rpc.delivered] == s.owner[..s.rpc.delivered];
  }

  lemma {:induction false} PostBatchBase(c: Config, s: Writer, m: nat)
    requires Base(c, s) && Posted(s) == s.chunkIndex && !s.rpc.StartedToDispose()
    ensures var t := Writes(c, s, m);
            && Base(c, t) && Posted(t) == t.chunkIndex == Min(|c.chunks|, s.chunkIndex + m)
            && !t.rpc.StartedToDispose()
            && t == s.(rpc := t.rpc, owner := t.owner, chunkIndex := t.chunkIndex)
  {
    hide Base, PostNext, Posted;
    BaseFacts(c, s);
    if m > 0 {
      PostBatchBase(c, s, m - 1);
      var t := Writes(c, s, m - 1);
      if t.chunkIndex < |c.chunks| {
        PostNextBase(c, t);
      }
    }
  }

  lemma SkipOneBase(c: Config, s: Writer)
    requires Base(c, s) && s.rpc.StartedToDispose() && !s.rpc.IsDisposed() && s.chunkIndex < |c.chunks|
    ensures var t := WriteOne(c, s);
            && Base(c, t)
            && t == s.(chunkIndex := s.chunkIndex + 1, skipped := s.skipped + 1,
                       log := s.log + [(c.Length(s.chunkIndex), |s.log|)], chunkWrittenIdx := |s.log| + 1,
                       sources := s.sources + [Source(s.chunkIndex, false)])
  {
    hide Inv, OwnerOk, OksOk, Owned;
  }

  lemma {:induction false} SkipBatchBase(c: Config, s: Writer, m: nat)
    requires Base(c, s) && s.rpc.StartedToDispose() && !s.rpc.IsDisposed()
    ensures var t := Writes(c, s, m);
            && Base(c, t) && t.chunkIndex == Min(|c.chunks|, s.chunkIndex + m)
            && t.skipped - s.skipped == t.chunkIndex - s.chunkIndex == |t.log| - |s.log|
            && t == s.(chunkIndex := t.chunkIndex, skipped := t.skipped, log := t.log, sources := t.sources,
                       chunkWrittenIdx := t.chunkWrittenIdx)
            && s.log <= t.log
            && forall j :: |s.log| <= j < |t.log| ==> t.log[j] == (c.Length(s.chunkIndex + j - |s.log|), j)
  {
    hide Base, WriteOne;
    BaseFacts(c, s);
    if m > 0 {
      SkipBatchBase(c, s, m - 1);
      var t := Writes(c, s, m - 1);
      if t.chunkIndex < |c.chunks| {
        SkipOneBase(c, t);
      }
    }
  }

  lemma {:induction false} GoneBatchBase(c: Config, s: Writer, m: nat)
    requires Base(c, s) && s.rpc.IsDisposed()
    ensures var t := Writes(c, s, m);
            && Base(c, t) && Posted(t) == Posted(s) && t.chunkIndex == Min(|c.chunks|, s.chunkIndex + m)
            && t == s.(chunkIndex := t.chunkIndex)
  {
    hide Inv, OwnerOk, OksOk, Owned;
    if m > 0 {
      GoneBatchBase(c, s, m - 1);
    }
  }

  // ----- other traffic and settling

  /** A delivery to the call at `delivered`, which is not one of the writer's, or no delivery. */
  lemma OksElsewhere(d: nat, taken: seq<Reply>, owner: seq<Option<nat>>, oks: seq<bool>,
                     d': nat, taken': seq<Reply>, calls: nat)
    requires OksOk(d, taken, owner, oks) && |owner| <= calls && taken <= taken'
    requires d' == d || (d' == d + 1 && d < |owner| && d < |taken'| && owner[d].None?)
    ensures OksOk(d', taken', Pad(owner, calls, None), oks)
  {
    PadKeeps(owner, calls);
    if d' == d + 1 {
      OwnedNext(owner, d);
    }
    hide Owned, Pad;
  }

  lemma OksNext(c: Config, calls: seq<Call>, d: nat, taken: seq<Reply>, owner: seq<Option<nat>>, oks: seq<bool>,
                reply: Reply)
    requires OksOk(d, taken, owner, oks) && OwnerOk(c, calls, owner)
    requires d == |taken| < |owner| && owner[d].Some?
    ensures owner[d].value == |oks| < Owned(owner)
    ensures OksOk(d + 1, taken + [reply], owner, oks + [reply.result != SRT_ERROR])
  {
    OwnedNext(owner, d);
    OwnedMono(owner, d + 1, d + 1);
    forall i | 0 <= i < d && owner[i].Some?
      ensures owner[i].value < |oks|
    {
      OwnedNext(owner, i);
      OwnedMono(owner[..d], i + 1, d);
      assert owner[..d][..i + 1] == owner[..i + 1] && owner[..d][..d] == owner[..d];
    }
    hide Owned, OwnerOk;
  }

  lemma OtherTraffic(c: Config, s: Writer, e: WriterEvent)
    requires Base(c, s) && WriteModes.Enabled(s, e) && Benign(c, s, e) && e.Rpc? && !OwnDelivery(s, e)
    ensures var t := Mid(c, s, e);
            && Base(c, t) && Posted(t) == Posted(s) && t == s.(rpc := t.rpc, owner := t.owner)
            && (s.rpc.StartedToDispose() ==> t.rpc.StartedToDispose())
            && (s.rpc.IsDisposed() ==> t.rpc.IsDisposed())
  {
    var rpc := Protocol.Step(s.rpc, e.e);
    StepInv(s.rpc, e.e);
    StepEvolves(s.rpc, e.e);
    StepHistory(s.rpc, e.e);
    PadOk(c, s.rpc.calls, s.owner, rpc.calls);
    PadKeeps(s.owner, |rpc.calls|);
    hide Inv, Protocol.Step, OwnerOk, SamePosts, AllEvolve, Pad, Owned;
    OksElsewhere(s.rpc.delivered, s.rpc.taken, s.owner, s.oks, rpc.delivered, rpc.taken, |rpc.calls|);
    hide OksOk;
  }

  /** The delivery itself, before `onWrite` acts. */
  lemma OwnDelivered(c: Config, s: Writer, pe: Event)
    requires Base(c, s) && WriteModes.Enabled(s, Rpc(pe)) && OwnDelivery(s, Rpc(pe))
    requires NoThrow(Protocol.Step(s.rpc, pe).calls) && Untouched(c, s.(rpc := Protocol.Step(s.rpc, pe)))
    ensures var rpc := Protocol.Step(s.rpc, pe);
            && Base(c, s.(rpc := rpc, oks := s.oks + [s.rpc.outbox[0].result != SRT_ERROR]))
            && s.owner[s.rpc.delivered].value == |s.oks| < Posted(s) && |rpc.calls| == |s.rpc.calls|
            && (s.rpc.StartedToDispose() ==> rpc.StartedToDispose())
  {
    hide Protocol.Step;
    var d, rpc := s.rpc.delivered, Protocol.Step(s.rpc, pe);
    StepInv(s.rpc, pe);
    StepEvolves(s.rpc, pe);
    StepHistory(s.rpc, pe);
    assert d == |s.rpc.taken| by { assert QueueOk(s.rpc.phase, s.rpc.queue, d, |s.rpc.calls|, |s.rpc.taken|); }
    OksNext(c, s.rpc.calls, d, s.rpc.taken, s.owner, s.oks, s.rpc.outbox[0]);
    PadOk(c, s.rpc.calls, s.owner, rpc.calls);
    assert Pad(s.owner, |rpc.calls|, None) == s.owner;
    hide Inv, OwnerOk, SamePosts, AllEvolve, Pad, Owned, OksOk;
  }

  /** `onWrite` and what it does to the handle. */
  lemma OnWriteBase(c: Config, s: Writer, entry: (nat, nat), source: Source, script: seq<Action>)
    requires Base(c, s)
    requires var rpc := RunScript(s.rpc, script); NoThrow(rpc.calls) && Untouched(c, s.(rpc := rpc))
    ensures var rpc := RunScript(s.rpc, script);
            var t := s.(rpc := rpc, owner := Pad(s.owner, |rpc.calls|, None), log := s.log + [entry],
                        sources := s.sources + [source],
                        chunkWrittenIdx := s.chunkWrittenIdx + 1);
            && Base(c, t) && Posted(t) == Posted(s)
            && (s.rpc.StartedToDispose() ==> rpc.StartedToDispose())
  {
    var rpc := RunScript(s.rpc, script);
    ScriptInv(s.rpc, script, 0);
    ScriptOnlyAddsCalls(s.rpc, script);
    ScriptKeepsHistory(s.rpc, script);
    PadOk(c, s.rpc.calls, s.owner, rpc.calls);
    PadKeeps(s.owner, |rpc.calls|);
    OksElsewhere(s.rpc.delivered, s.rpc.taken, s.owner, s.oks, rpc.delivered, rpc.taken, |rpc.calls|);
    hide Inv, RunScript, OwnerOk, SamePosts, Pad, Owned, OksOk;
  }

  lemma OwnFacts(c: Config, calls: seq<Call>, owner: seq<Option<nat>>, i: nat)
    requires OwnerOk(c, calls, owner) && i < |owner| && owner[i].Some?
    ensures |owner| == |calls| && owner[i].value < |c.chunks| && !calls[i].hasCallback
  {
  }

  /** What `Mid` is for a delivery to the write of chunk k. */
  lemma OwnShape(c: Config, s: Writer, e: WriterEvent, k: nat)
    requires WriteModes.Enabled(s, e) && OwnDelivery(s, e) && s.owner[s.rpc.delivered] == Some(k) && k < |c.chunks|
    requires |Protocol.Step(s.rpc, e.e).calls| == |s.owner|
    ensures var rpc := Protocol.Step(s.rpc, e.e); var rpc2 := RunScript(rpc, e.e.script);
            Mid(c, s, e) ==
            if s.rpc.outbox[0].result == SRT_ERROR then
              s.(rpc := rpc, oks := s.oks + [false], status := if s.status.Running? then Failed else s.status)
            else
              s.(rpc := rpc2, owner := Pad(s.owner, |rpc2.calls|, None), oks := s.oks + [true],
                 log := s.log + [(c.Length(k), s.chunkWrittenIdx)], sources := s.sources + [Source(k, true)],
                 chunkWrittenIdx := s.chunkWrittenIdx + 1)
  {
    hide Protocol.Step, RunScript;
    assert Pad(s.owner, |s.owner|, None) == s.owner;
  }

  lemma OwnSettled(c: Config, s: Writer, e: WriterEvent)
    requires Base(c, s) && WriteModes.Enabled(s, e) && Benign(c, s, e) && OwnDelivery(s, e)
    ensures var t := Mid(c, s, e); var ok := s.rpc.outbox[0].result != SRT_ERROR;
            && Base(c, t) && Posted(t) == Posted(s) && |s.oks| < Posted(s)
            && (s.rpc.StartedToDispose() ==> t.rpc.StartedToDispose())
            && t.oks == s.oks + [ok]
            && t.log == (if ok then s.log + [(c.Length(|s.oks|), |s.log|)] else s.log)
            && t.sources == (if ok then s.sources + [Source(|s.oks|, true)] else s.sources)
            && t == s.(rpc := t.rpc, owner := t.owner, oks := t.oks, log := t.log, sources := t.sources,
                       chunkWrittenIdx := |t.log|,
                       status := if !ok && s.status.Running? then Failed else s.status)
  {
    hide Inv, Protocol.Step, OksOk, Owned, OwnerOk, Mid, Pad, RunScript;
    OwnFacts(c, s.rpc.calls, s.owner, s.rpc.delivered);
    var rpc, t, k := Protocol.Step(s.rpc, e.e), Mid(c, s, e), s.owner[s.rpc.delivered].value;
    var ok := s.rpc.outbox[0].result != SRT_ERROR;
    StepHistory(s.rpc, e.e);
    OwnShape(c, s, e, k);
    if ok {
      ScriptOnlyAddsCalls(rpc, e.e.script);
      ScriptKeepsHistory(rpc, e.e.script);
    }
    assert NoThrow(rpc.calls) && Untouched(c, s.(rpc := rpc));
    OwnDelivered(c, s, e.e);
    if ok {
      OnWriteBase(c, s.(rpc := rpc, oks := s.oks + [ok]), (c.Length(k), |s.log|), Source(k, true), e.e.script);
    }
  }
}
