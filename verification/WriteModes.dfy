/** The two burst writers (src/async-write-modes.ts:96-211) as clients of the call protocol:
    any other traffic may share the handle. */
module WriteModes {
  import opened Wire
  import opened Counting
  import opened Protocol
  import opened Invariant
  import opened Tools

  /** The arguments of a writer. `explicit` selects the interval-driven one. */
  datatype Config = Config(fd: int, chunks: seq<Value>, writesPerTick: nat, explicit: bool)
  {
    /** The documented demand on the chunk list: independent buffers. */
    ghost predicate Valid() {
      && writesPerTick >= 1
      && (forall k :: 0 <= k < |chunks| ==> chunks[k].View?)
      && (forall j, k :: 0 <= j < k < |chunks| ==> chunks[j].buffer != chunks[k].buffer)
    }

    function WritePost(k: nat): Post
      requires k < |chunks|
    {
      Post(Write, [Num(fd), chunks[k]])
    }

    function Length(k: nat): nat
      requires k < |chunks|
    {
      if chunks[k].View? then |chunks[k].bytes| else 0
    }
  }

  /** `Failed`: a write rejected. `Aborted`: the handle was gone when a tick began. */
  datatype Status = Running | Finished | Failed | Aborted

  /** What an `onWrite` call is about: a chunk, and whether its write had been posted. */
  datatype Source = Source(chunk: nat, posted: bool)

  /** `owner[i]` is the chunk that call i of the handle writes, if it is a call of this writer.
      `oks` lists the outcomes of the settled writes, `log` the `onWrite` calls, `sources`
      what each of them is about, and `skipped` counts the chunks consumed by writes that a disposing
      handle did not accept. */
  datatype Writer = Writer(
    rpc: State, owner: seq<Option<nat>>, chunkIndex: nat, chunkWrittenIdx: nat, ticks: nat,
    oks: seq<bool>, log: seq<(nat, nat)>, sources: seq<Source>, skipped: nat, status: Status, interval: bool)

  predicate IsOwn(o: Option<nat>) { o.Some? }

  function Owned(owner: seq<Option<nat>>): nat {
    Count(owner, IsOwn)
  }

  function Posted(s: Writer): nat { Owned(s.owner) }

  // ----- one tick

  function PostNext(c: Config, s: Writer): Writer
    requires s.chunkIndex < |c.chunks|
  {
    s.(rpc := Invoke(s.rpc, c.WritePost(s.chunkIndex), false, false),
       owner := s.owner + [Some(s.chunkIndex)],
       chunkIndex := s.chunkIndex + 1)
  }

  /** One `write`. On a disposing handle it resolves to undefined, which is not the error result, so
      it counts as written although nothing is posted; on a handle that is gone it rejects. */
  function WriteOne(c: Config, s: Writer): Writer
    requires s.chunkIndex < |c.chunks|
  {
    if s.rpc.IsDisposed() then s.(chunkIndex := s.chunkIndex + 1)
    else if s.rpc.StartedToDispose() then
      s.(chunkIndex := s.chunkIndex + 1, skipped := s.skipped + 1,
         log := s.log + [(c.Length(s.chunkIndex), s.chunkWrittenIdx)], chunkWrittenIdx := s.chunkWrittenIdx + 1,
         sources := s.sources + [Source(s.chunkIndex, false)])
    else PostNext(c, s)
  }

  /** The first m rounds of the `for` loop of `tick`. */
  function Writes(c: Config, s: Writer, m: nat): Writer {
    if m == 0 then s
    else
      var t := Writes(c, s, m - 1);
      if t.chunkIndex >= |c.chunks| then t else WriteOne(c, t)
  }

  function Tick(c: Config, s: Writer): Writer {
    Writes(c, s, c.writesPerTick)
  }

  /** `while (chunkIndex < chunks.length) await tick()`, up to the next suspension. The ticks on a
      disposing handle follow each other without suspending on any reply. */
  function Loop(c: Config, s: Writer): Writer {
    if s.chunkIndex >= |c.chunks| then s.(status := Finished)
    else if s.rpc.IsDisposed() then Tick(c, s).(status := Aborted)
    else if s.rpc.StartedToDispose() then Writes(c, s, |c.chunks| - s.chunkIndex).(status := Finished)
    else Tick(c, s.(ticks := s.ticks + 1))
  }

  /** One firing of the interval: the timer is cleared by the first round that finds no chunk. */
  function IntervalTick(c: Config, s: Writer): Writer {
    Tick(c, s.(ticks := s.ticks + 1, interval := s.interval && s.chunkIndex + c.writesPerTick <= |c.chunks|))
  }

  // ----- steps

  datatype WriterEvent = Rpc(e: Event) | IntervalFires

  /** The next delivery runs the callback of a write of this writer. */
  predicate OwnDelivery(s: Writer, e: WriterEvent) {
    && e.Rpc? && e.e.Delivery? && !s.rpc.IsDisposed() && s.rpc.queue != []
    && s.rpc.delivered < |s.owner| && s.owner[s.rpc.delivered].Some?
  }

  predicate Enabled(s: Writer, e: WriterEvent) {
    match e
    case Rpc(pe) => Protocol.Enabled(s.rpc, pe)
    case IntervalFires => s.interval
  }

  /** What follows the settling of a write: on success `onWrite` runs, and does what `script` says. */
  function Settled(c: Config, s: Writer, k: nat, result: Value, script: seq<Action>): Writer
    requires k < |c.chunks|
  {
    if result == SRT_ERROR then
      s.(oks := s.oks + [false], status := if s.status.Running? then Failed else s.status)
    else
      var rpc := RunScript(s.rpc, script);
      s.(oks := s.oks + [true], log := s.log + [(c.Length(k), s.chunkWrittenIdx)],
         sources := s.sources + [Source(k, true)],
         chunkWrittenIdx := s.chunkWrittenIdx + 1, rpc := rpc, owner := Pad(s.owner, |rpc.calls|, None))
  }

  /** The step up to the point where the writer itself goes on. */
  function Mid(c: Config, s: Writer, e: WriterEvent): Writer
    requires Enabled(s, e)
  {
    match e
    case IntervalFires => s
    case Rpc(pe) =>
      var rpc := Protocol.Step(s.rpc, pe);
      var s' := s.(rpc := rpc, owner := Pad(s.owner, |rpc.calls|, None));
      if OwnDelivery(s, e) && s.owner[s.rpc.delivered].value < |c.chunks|
      then Settled(c, s', s.owner[s.rpc.delivered].value, s.rpc.outbox[0].result, pe.script)
      else s'
  }

  predicate Resumes(c: Config, s: Writer, t: Writer, e: WriterEvent) {
    OwnDelivery(s, e) && !c.explicit && t.status.Running? && |t.oks| == t.chunkIndex
  }

  function Step(c: Config, s: Writer, e: WriterEvent): Writer
    requires Enabled(s, e)
  {
    var t := Mid(c, s, e);
    if e.IntervalFires? then IntervalTick(c, t)
    else if Resumes(c, s, t, e) then Loop(c, t)
    else t
  }

  /** The other users of the handle: their posts do not throw, and they leave alone the chunks
      that this writer has not posted yet. */
  ghost predicate Benign(c: Config, s: Writer, e: WriterEvent)
    requires Enabled(s, e)
  {
    var t := Mid(c, s, e);
    && (forall i :: 0 <= i < |t.rpc.calls| ==> !t.rpc.calls[i].promise.PostFailed?)
    && Untouched(c, t)
  }

  ghost predicate Untouched(c: Config, s: Writer) {
    forall k :: s.chunkIndex <= k < |c.chunks| && c.chunks[k].View? ==> c.chunks[k].buffer !in s.rpc.detached
  }

  function Begin(rpc: State): Writer {
    Writer(rpc, Pad([], |rpc.calls|, None), 0, 0, 0, [], [], [], 0, Running, false)
  }

  /** The call of the writer on a handle in state `rpc`. */
  function Start(c: Config, rpc: State): Writer {
    var s := Begin(rpc);
    if c.explicit then IntervalTick(c, s.(interval := true)) else Loop(c, s)
  }

  ghost predicate ValidRun(c: Config, s: Writer, es: seq<WriterEvent>)
    decreases es
  {
    es == [] || (Enabled(s, es[0]) && Benign(c, s, es[0]) && ValidRun(c, Step(c, s, es[0]), es[1..]))
  }

  ghost function Run(c: Config, s: Writer, es: seq<WriterEvent>): Writer
    requires ValidRun(c, s, es)
    decreases es
  {
    if es == [] then s else Run(c, Step(c, s, es[0]), es[1..])
  }
}
