/** The code of the two burst writers (src/async-write-modes.ts:96-211), over the handle of
    AsyncApi, proved to take the steps of WriteModes. */
module BurstWriter {
  import opened Wire
  import opened Counting
  import opened Protocol
  import opened Tools
  import opened WriteModes
  import opened WriteModesInvariant
  import opened AsyncApi

  lemma WriteOutcome(c: Config, s: State, k: nat)
    requires c.Valid() && k < |c.chunks|
    ensures CallOutcome(s, c.WritePost(k)) ==
            if s.IsDisposed() then RejectedAsDisposed
            else if s.StartedToDispose() then ReturnedUndefined
            else Promised(|s.calls|)
    ensures s.StartedToDispose() ==> Invoke(s, c.WritePost(k), false, false) == s
  {
  }

  lemma StaysUntouched(c: Config, s: Writer)
    requires c.Valid() && Untouched(c, s) && s.chunkIndex < |c.chunks|
    ensures Untouched(c, WriteOne(c, s))
  {
    OneView(c.fd, c.chunks[s.chunkIndex]);
  }

  /** A disposing handle accepts nothing, so the writes only move the writer's own counters. */
  lemma {:induction false} WritesOnDisposing(c: Config, s: Writer, m: nat)
    requires s.rpc.StartedToDispose() && s.chunkIndex <= |c.chunks|
    ensures var t := Writes(c, s, m); t.rpc == s.rpc && t.chunkIndex == Min(|c.chunks|, s.chunkIndex + m)
  {
    if m > 0 {
      WritesOnDisposing(c, s, m - 1);
    }
  }

  /** The lengths of the first chunks, taken before their buffers were transferred. */
  ghost predicate Measured(c: Config, lengths: seq<nat>)
    requires |lengths| <= |c.chunks|
  {
    forall k :: 0 <= k < |lengths| ==> lengths[k] == c.Length(k)
  }

  lemma MeasuredNext(c: Config, s: Writer, lengths: seq<nat>)
    requires c.Valid() && Untouched(c, s) && |lengths| == s.chunkIndex < |c.chunks| && Measured(c, lengths)
    ensures var v := c.chunks[s.chunkIndex];
            && v.View? && v.buffer !in s.rpc.detached && c.Length(s.chunkIndex) == |v.bytes|
            && Measured(c, lengths + [|v.bytes|])
  {
  }

  class Burst {
    const config: Config
    const asyncSrt: AsyncSRT
    var chunkIndex: nat
    var chunkWrittenIdx: nat
    var interval: bool
    var status: Status
    /** Calls to `onWrite`. */
    var log: seq<(nat, nat)>
    /** `byteLength` as each write read it before posting. */
    var lengths: seq<nat>
    /** Outcomes of the settled writes, which `Promise.all` keeps track of. */
    var oks: seq<bool>
    ghost var owner: seq<Option<nat>>
    ghost var sources: seq<Source>
    ghost var ticks: nat
    ghost var skipped: nat

    ghost predicate Valid()
      reads this, asyncSrt
    {
      && asyncSrt.Valid() && config.Valid()
      && |lengths| == chunkIndex <= |config.chunks| && Measured(config, lengths)
    }

    ghost function Abs(): Writer
      reads this, asyncSrt, asyncSrt.thread
    {
      Writer(asyncSrt.Abs(), owner, chunkIndex, chunkWrittenIdx, ticks, oks, log, sources, skipped, status, interval)
    }

    constructor (config: Config, asyncSrt: AsyncSRT)
      requires config.Valid() && asyncSrt.Valid()
      ensures Valid() && this.config == config && this.asyncSrt == asyncSrt && Abs() == Begin(asyncSrt.Abs())
    {
      this.config, this.asyncSrt := config, asyncSrt;
      chunkIndex, chunkWrittenIdx, interval, status, log, lengths := 0, 0, false, Running, [], [];
      owner, oks, ticks, skipped, sources := Pad([], |asyncSrt.closures|, None), [], 0, 0, [];
    }

    /** What a write that resolved is followed by: `onWrite` and the running index. */
    method OnWritten(k: nat, ghost posted: bool)
      requires k < |lengths|
      modifies this`log, this`chunkWrittenIdx, this`sources
      ensures log == old(log) + [(lengths[k], old(chunkWrittenIdx))] && chunkWrittenIdx == old(chunkWrittenIdx) + 1
      ensures sources == old(sources) + [Source(k, posted)]
    {
      log := log + [(lengths[k], chunkWrittenIdx)];
      chunkWrittenIdx := chunkWrittenIdx + 1;
      sources := sources + [Source(k, posted)];
    }

    /** One `write` of the `for` loop. */
    method WriteNext()
      requires Valid() && Untouched(config, Abs()) && chunkIndex < |config.chunks|
      modifies this, asyncSrt, asyncSrt.thread`inbox
      ensures Valid() && Untouched(config, Abs())
      ensures Abs() == WriteOne(config, old(Abs()))
    {
      hide Invoke, CallOutcome, Untouched, Measured, Config.Valid, AsyncSRT.Abs, AsyncSRT.Valid;
      WriteOutcome(config, asyncSrt.Abs(), chunkIndex);
      StaysUntouched(config, Abs());
      MeasuredNext(config, Abs(), lengths);
      var k := chunkIndex;
      chunkIndex := chunkIndex + 1;
      var byteLength, outcome := asyncSrt.Write(config.fd, config.chunks[k], false);
      lengths := lengths + [byteLength];
      match outcome
      case Promised(_) =>
        owner := owner + [Some(k)];
      case ReturnedUndefined =>
        OnWritten(k, false);
        skipped := skipped + 1;
      case _ =>
    }

    method Tick()
      requires Valid() && Untouched(config, Abs())
      modifies this, asyncSrt, asyncSrt.thread`inbox
      ensures Valid() && Untouched(config, Abs())
      ensures Abs() == WriteModes.Tick(config, old(Abs()))
    {
      hide WriteOne, Untouched;
      for i := 0 to config.writesPerTick
        invariant Valid() && Untouched(config, Abs())
        invariant Abs() == Writes(config, old(Abs()), i)
      {
        if chunkIndex >= |config.chunks| {
          NoChunkLeft(config, old(Abs()), i, config.writesPerTick);
          break;
        }
        WriteNext();
      }
    }

    /** The `while` loop, up to its next suspension: it goes on by itself as long as no write of
        the last tick awaits a reply. */
    method RunLoop()
      requires Valid() && Untouched(config, Abs())
      modifies this, asyncSrt, asyncSrt.thread`inbox
      ensures Valid()
      ensures Abs() == Loop(config, old(Abs()))
    {
      hide WriteOne, Writes;
      if chunkIndex >= |config.chunks| {
        status := Finished;
        return;
      }
      if asyncSrt.worker == null {
        Tick();
        status := Aborted;
        return;
      }
      if !asyncSrt.startedToDispose {
        ticks := ticks + 1;
        Tick();
        return;
      }
      ghost var s := Abs();
      ghost var m: nat := 0;
      assert Writes(config, s, 0) == s by { NoWrites(config, s); }
      WritesOnDisposing(config, s, m);
      while chunkIndex < |config.chunks|
        invariant Valid() && Untouched(config, Abs())
        invariant Abs() == Writes(config, s, m) && asyncSrt.Abs() == s.rpc
        invariant chunkIndex == Min(|config.chunks|, s.chunkIndex + m)
        decreases |config.chunks| - chunkIndex
      {
        Tick();
        WritesAdd(config, s, m, config.writesPerTick);
        m := m + config.writesPerTick;
        WritesOnDisposing(config, s, m);
      }
      WritesOnDisposing(config, s, |config.chunks| - s.chunkIndex);
      NoChunkLeft(config, s, |config.chunks| - s.chunkIndex, m);
      status := Finished;
    }

    /** One firing of the interval. */
    method OnInterval()
      requires Valid() && Untouched(config, Abs())
      modifies this, asyncSrt, asyncSrt.thread`inbox
      ensures Valid()
      ensures Abs() == IntervalTick(config, old(Abs()))
    {
      hide WriteOne, Untouched;
      TicksUntouched(config, Abs());
      ticks := ticks + 1;
      ghost var s, left := Abs(), interval;
      for i := 0 to config.writesPerTick
        invariant Valid() && Untouched(config, Abs())
        invariant Abs() == Writes(config, s, i) && chunkIndex == s.chunkIndex + i && interval == left
      {
        if chunkIndex >= |config.chunks| {
          NoChunkLeft(config, s, i, config.writesPerTick);
          WritesInterval(config, s, false, config.writesPerTick);
          interval := false;
          return;
        }
        NextChunk(config, Abs());
        WriteNext();
      }
      WritesInterval(config, s, left, config.writesPerTick);
    }

    /** The call of the writer. */
    method Start()
      requires Valid() && Abs() == Begin(asyncSrt.Abs()) && Untouched(config, Abs())
      modifies this, asyncSrt, asyncSrt.thread`inbox
      ensures Valid()
      ensures Abs() == WriteModes.Start(config, old(asyncSrt.Abs()))
    {
      hide Loop, IntervalTick;
      if config.explicit {
        interval := true;
        OnInterval();
      } else {
        RunLoop();
      }
    }

    /** What follows the reply to the write of chunk k; `script` is what `onWrite` does. */
    method OnSettled(k: nat, result: Value, script: seq<Action>)
      requires Valid() && k < chunkIndex
      modifies this, asyncSrt, asyncSrt.thread`inbox
      ensures Valid()
      ensures Abs() == Settled(config, old(Abs()), k, result, script)
    {
      hide AsyncSRT.Abs, AsyncSRT.Valid, RunScript;
      if result == SRT_ERROR {
        oks := oks + [false];
        if status.Running? {
          status := Failed;
        }
        return;
      }
      oks := oks + [true];
      OnWritten(k, true);
      asyncSrt.RunCallback(script);
      CallsAreClosures(asyncSrt);
      owner := Pad(owner, |asyncSrt.closures|, None);
    }

    /** A turn of other code that uses the handle. */
    method OthersAct(action: Action)
      requires Valid()
      modifies this`owner, asyncSrt, asyncSrt.thread`inbox
      ensures Valid()
      ensures Abs() == WriteModes.Step(config, old(Abs()), Rpc(Main(action)))
    {
      hide Act;
      asyncSrt.RunCallback([action]);
      OneAction(old(asyncSrt.Abs()), action);
      owner := Pad(owner, |asyncSrt.closures|, None);
    }

    /** The turn in which the reply to the write of chunk k is delivered. */
    method OnReply(k: nat, script: seq<Action>)
      requires Valid() && WriteModes.Enabled(Abs(), Rpc(Delivery(script))) && OwnDelivery(Abs(), Rpc(Delivery(script)))
      requires owner[asyncSrt.delivered] == Some(k) && k < chunkIndex
      requires Untouched(config, Mid(config, Abs(), Rpc(Delivery(script))))
      modifies this, asyncSrt, asyncSrt.thread
      ensures Valid()
      ensures Abs() == WriteModes.Step(config, old(Abs()), Rpc(Delivery(script)))
    {
      hide Deliver, Untouched, Loop, RunScript, Pad;
      var result := asyncSrt.thread.outbox[0].result;
      asyncSrt.OnWorkerMessage(script);
      owner := Pad(owner, |asyncSrt.closures|, None);
      OnSettled(k, result, script);
      if !config.explicit && status.Running? && |oks| == chunkIndex {
        RunLoop();
      }
    }
  }

  lemma TicksUntouched(c: Config, s: Writer)
    ensures Untouched(c, s.(ticks := s.ticks + 1)) <==> Untouched(c, s)
  {
  }

  lemma NextChunk(c: Config, s: Writer)
    requires s.chunkIndex < |c.chunks|
    ensures var t := WriteOne(c, s); t.chunkIndex == s.chunkIndex + 1 && t.interval == s.interval
  {
    hide Invoke;
  }

  lemma {:induction false} WritesInterval(c: Config, s: Writer, interval: bool, m: nat)
    ensures Writes(c, s.(interval := interval), m) == Writes(c, s, m).(interval := interval)
  {
    hide Invoke;
    if m > 0 {
      WritesInterval(c, s, interval, m - 1);
    }
  }

  lemma NoWrites(c: Config, s: Writer)
    ensures Writes(c, s, 0) == s
  {
  }

  lemma {:induction false} NoChunkLeft(c: Config, s: Writer, i: nat, m: nat)
    requires i <= m && Writes(c, s, i).chunkIndex >= |c.chunks|
    ensures Writes(c, s, m) == Writes(c, s, i)
  {
    if i < m {
      NoChunkLeft(c, s, i, m - 1);
    }
  }

  lemma {:induction false} WritesAdd(c: Config, s: Writer, i: nat, m: nat)
    ensures Writes(c, Writes(c, s, i), m) == Writes(c, s, i + m)
  {
    hide WriteOne;
    if m > 0 {
      WritesAdd(c, s, i, m - 1);
    }
  }
}
