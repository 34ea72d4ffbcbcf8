/** The main-thread handle (src/async-api.ts:52-326), method by method, each proved to take the
    corresponding step of the protocol. */
module AsyncApi {
  import opened Wire
  import opened Worker
  import opened Protocol

  class AsyncSRT {
    var worker: WorkerThread?
    var workCbQueue: seq<nat>
    var error: Option<string>
    var lockLevel: int
    var startedToDispose: bool

    /** The closures created so far, by call number. */
    var closures: seq<Call>
    /** The buffers this thread has lost by transferring them. */
    var detached: set<nat>
    /** `dispose` has seen its condition true and has not resumed yet. */
    var drained: bool

    const thread: WorkerThread
    ghost var taken: seq<Reply>
    ghost var delivered: nat

    ghost predicate Valid()
      reads this
    {
      && (worker == null || worker == thread)
      && (worker == null || drained ==> startedToDispose)
    }

    ghost function Abs(): State
      reads this, thread
    {
      State(if worker == null then Gone else if drained then Drained else if startedToDispose then Draining else Live,
            workCbQueue, lockLevel, error, closures, thread.inbox, thread.outbox, detached,
            thread.execs, taken, delivered)
    }

    constructor (thread: WorkerThread)
      requires thread.inbox == [] && thread.outbox == [] && thread.execs == []
      ensures Valid() && this.thread == thread && Abs() == INIT
    {
      worker, this.thread := thread, thread;
      workCbQueue, error, lockLevel, startedToDispose := [], None, 0, false;
      closures, detached, drained, taken, delivered := [], {}, false, [], 0;
    }

    method PostAsyncWork(name: Method, args: seq<Value>, callback: nat) returns (threw: bool)
      requires Valid()
      modifies this`workCbQueue, this`detached, thread`inbox
      ensures Valid()
      ensures worker == null ==> threw && Abs() == old(Abs())
      ensures worker != null ==>
                && threw == PostThrows(old(detached), args)
                && workCbQueue == old(workCbQueue) + [callback]
                && thread.inbox == (if threw then old(thread.inbox) else old(thread.inbox) + [Post(name, args)])
                && detached == (if threw then old(detached) else old(detached) + SetOf(TransferList(args)))
    {
      if worker == null {
        return true;
      }
      var transferList := ExtractTransferListFromParams(args);
      workCbQueue := workCbQueue + [callback];
      threw := worker.PostMessage(detached, Post(name, args), transferList);
      if !threw {
        detached := detached + SetOf(transferList);
      }
    }

    method CreateAsyncWorkPromise(name: Method, args: seq<Value>, hasCallback: bool, useTimeout: bool)
      returns (outcome: Outcome)
      requires Valid()
      modifies this, thread`inbox
      ensures Valid()
      ensures outcome == CallOutcome(old(Abs()), Post(name, args))
      ensures Abs() == Invoke(old(Abs()), Post(name, args), hasCallback, useTimeout)
    {
      if worker == null {
        return RejectedAsDisposed;
      }
      if startedToDispose {
        return ReturnedUndefined;
      }
      lockLevel := lockLevel + 1;
      if Undefined in args {
        lockLevel := lockLevel - 1;
        return ThrewUndefinedArgument;
      }
      var id := |closures|;
      closures := closures + [Call(Post(name, args), Pending, hasCallback, useTimeout, false, false, [])];
      var threw := PostAsyncWork(name, args, id);
      if threw {
        closures := closures[id := closures[id].(promise := PostFailed)];
      }
      return Promised(id);
    }

    /** `dispose` up to its first await; when the lock is free it runs on to the end. */
    method Dispose()
      requires Valid()
      modifies this
      ensures Valid()
      ensures Abs() == StartDispose(old(Abs()))
    {
      if startedToDispose {
        return;
      }
      startedToDispose := true;
      if 0 < lockLevel {
        return;
      }
      ClearWorker();
    }

    /** One evaluation of the condition that `dispose` polls for: while the lock is taken it changes
        nothing, and the polling goes on. */
    method SeeDrained()
      requires Valid() && Abs().phase.Draining?
      modifies this`drained
      ensures Valid()
      ensures drained == Enabled(old(Abs()), Event.SeesDrained)
      ensures Abs() == if drained then Step(old(Abs()), Event.SeesDrained) else old(Abs())
    {
      drained := lockLevel <= 0;
    }

    /** The rest of `dispose`, up to `terminate`. */
    method ClearWorker()
      requires Valid() && startedToDispose
      modifies this
      ensures Valid()
      ensures Abs() == Finish(old(Abs()))
    {
      worker := null;
      if |workCbQueue| != 0 {
        workCbQueue := [];
      }
    }

    method RunCallback(script: seq<Action>)
      requires Valid()
      modifies this, thread`inbox
      ensures Valid()
      ensures Abs() == RunScript(old(Abs()), script)
    {
      for i := 0 to |script|
        invariant Valid()
        invariant Abs() == RunScript(old(Abs()), script[..i])
      {
        assert script[..i + 1][..i] == script[..i];
        match script[i] {
          case Invocation(post, hasCallback, useTimeout) =>
            var _ := CreateAsyncWorkPromise(post.name, post.args, hasCallback, useTimeout);
          case Dispose =>
            Dispose();
        }
      }
      assert script[..|script|] == script;
    }

    method OnResult(id: nat, result: Value, script: seq<Action>)
      requires Valid() && id < |closures|
      modifies this, thread`inbox
      ensures Valid()
      ensures Abs() == Protocol.OnResult(old(Abs()), id, result, script)
    {
      hide RunScript;
      var c := closures[id];
      var got := if c.hasCallback then c.got + [result] else c.got;
      if c.rejected {
        closures := closures[id := c.(got := got)];
        if c.hasCallback {
          RunCallback(script);
        }
        return;
      }
      closures := closures[id := c.(armed := false, answered := true, got := got,
                                    promise := if c.promise.Pending? then Resolved(result) else c.promise)];
      if c.hasCallback {
        RunCallback(script);
      }
      lockLevel := lockLevel - 1;
    }

    method OnWorkerMessage(script: seq<Action>)
      requires Valid() && Enabled(Abs(), Delivery(script))
      modifies this, thread
      ensures Valid()
      ensures Abs() == Deliver(old(Abs()), script)
    {
      var data := thread.outbox[0];
      thread.outbox := thread.outbox[1..];
      taken := taken + [data];
      if worker == null {
        return;
      }
      delivered := delivered + 1;
      if data.err.Some? {
        error := data.err;
      }
      if |workCbQueue| > 0 {
        var callback := workCbQueue[0];
        workCbQueue := workCbQueue[1..];
        OnResult(callback, data.result, script);
      }
    }

    /** The `setTimeout` callback of call `id`. */
    method OnTimeout(id: nat)
      requires Valid() && Enabled(Abs(), TimeoutFires(id))
      modifies this
      ensures Valid()
      ensures Abs() == Timeout(old(Abs()), id)
    {
      var c := closures[id];
      if c.promise.Pending? {
        closures := closures[id := c.(promise := TimedOut)];
      }
      lockLevel := lockLevel - 1;
      closures := closures[id := closures[id].(rejected := true, armed := false)];
    }

    /** `write` up to its await: the length is read before the post detaches the buffer. */
    method Write(socket: int, chunk: Value, hasCallback: bool) returns (byteLength: nat, outcome: Outcome)
      requires Valid() && chunk.View?
      modifies this, thread`inbox
      ensures Valid()
      ensures byteLength == if chunk.buffer in old(Abs()).detached then 0 else |chunk.bytes|
      ensures outcome == CallOutcome(old(Abs()), Post(Method.Write, [Num(socket), chunk]))
      ensures Abs() == Invoke(old(Abs()), Post(Method.Write, [Num(socket), chunk]), hasCallback, false)
    {
      byteLength := if chunk.buffer in detached then 0 else |chunk.bytes|;
      outcome := CreateAsyncWorkPromise(Method.Write, [Num(socket), chunk], hasCallback, false);
    }
  }

  lemma CallsAreClosures(srt: AsyncSRT)
    ensures srt.Abs().calls == srt.closures
  {
  }

  /** The worker's turn: it handles its oldest message. */
  method WorkerTurn(srt: AsyncSRT, native: Native)
    requires srt.Valid() && Enabled(srt.Abs(), WorkerRuns(native))
    modifies srt.thread
    ensures srt.Valid()
    ensures srt.Abs() == WorkerStep(old(srt.Abs()), native)
  {
    srt.thread.OnMessage(native);
  }
}
