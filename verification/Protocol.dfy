/** The call protocol between AsyncSRT and its worker, as a step system
    (src/async-api.ts:102-260). No request id travels on either channel: replies are paired
    with callbacks by `shift()` alone. A call's number is the order in which it was accepted;
    it names the closure of that call and is never sent. */
module Protocol {
  import opened Wire
  import opened Worker

  datatype Promise = Pending | Resolved(value: Value) | TimedOut | PostFailed

  /** The closure of one accepted call: the promise, the captured `timeout` (`armed` while it
      can fire) and `rejected`, whether `onResult` has settled it (`answered`), and what the
      user's callback has been given so far. */
  datatype Call = Call(post: Post, promise: Promise, hasCallback: bool, armed: bool,
                       rejected: bool, answered: bool, got: seq<Value>)

  /** `Live`: not disposing. `Draining`: `dispose` waits for the lock. `Drained`: its condition
      has been seen true. `Gone`: `_worker` is null. */
  datatype Phase = Live | Draining | Drained | Gone

  /** `queue` is `_workCbQueue`, `lock` is `_createAsyncWorkPromiseLockLevel`, `error` is `_error`.
      `execs`, `taken` and `delivered` are history: the native calls the worker made, the replies
      taken off its outbox, and how many of those were taken before the worker was dropped. */
  datatype State = State(
    phase: Phase, queue: seq<nat>, lock: int, error: Option<string>, calls: seq<Call>,
    inbox: seq<Post>, outbox: seq<Reply>, detached: set<nat>,
    execs: seq<Exec>, taken: seq<Reply>, delivered: nat)
  {
    predicate StartedToDispose() { !phase.Live? }
    predicate IsDisposed() { phase.Gone? }
  }

  const INIT := State(Live, [], 0, None, [], [], [], {}, [], [], 0)

  // ----- the steps of the main thread

  datatype Outcome = Promised(id: nat) | RejectedAsDisposed | ReturnedUndefined | ThrewUndefinedArgument

  /** What `_createAsyncWorkPromise` hands back to its caller. */
  function CallOutcome(s: State, post: Post): Outcome {
    if s.IsDisposed() then RejectedAsDisposed
    else if s.StartedToDispose() then ReturnedUndefined
    else if Undefined in post.args then ThrewUndefinedArgument
    else Promised(|s.calls|)
  }

  function Invoke(s: State, post: Post, hasCallback: bool, useTimeout: bool): State {
    if !CallOutcome(s, post).Promised? then s
    else
      var threw := PostThrows(s.detached, post.args);
      var promise := if threw then PostFailed else Pending;
      s.(lock := s.lock + 1,
         calls := s.calls + [Call(post, promise, hasCallback, useTimeout, false, false, [])],
         queue := s.queue + [|s.calls|],
         inbox := if threw then s.inbox else s.inbox + [post],
         detached := if threw then s.detached else s.detached + SetOf(TransferList(post.args)))
  }

  function Finish(s: State): State {
    s.(phase := Gone, queue := [])
  }

  function StartDispose(s: State): State {
    if s.StartedToDispose() then s
    else if 0 < s.lock then s.(phase := Draining)
    else Finish(s)
  }

  /** What code on the main thread can do to the handle. */
  datatype Action = Invocation(post: Post, hasCallback: bool, useTimeout: bool) | Dispose

  function Act(s: State, a: Action): State {
    match a
    case Invocation(post, hasCallback, useTimeout) => Invoke(s, post, hasCallback, useTimeout)
    case Dispose => StartDispose(s)
  }

  /** A callback that performs these actions and then returns or throws; its exception is caught. */
  function RunScript(s: State, script: seq<Action>): State {
    if script == [] then s
    else Act(RunScript(s, script[..|script| - 1]), script[|script| - 1])
  }

  /** The closure after `onResult` ran up to and including the start of the user's callback. */
  function Answer(c: Call, v: Value): Call {
    var got := if c.hasCallback then c.got + [v] else c.got;
    if c.rejected then c.(got := got)
    else c.(answered := true, armed := false, got := got,
            promise := if c.promise.Pending? then Resolved(v) else c.promise)
  }

  lemma OneAction(s: State, a: Action)
    ensures RunScript(s, [a]) == Act(s, a)
  {
    assert [a][..0] == [];
  }

  function OnResult(s: State, id: nat, v: Value, script: seq<Action>): State
    requires id < |s.calls|
  {
    var c := s.calls[id];
    var s1 := s.(calls := s.calls[id := Answer(c, v)]);
    var s2 := if c.hasCallback then RunScript(s1, script) else s1;
    if c.rejected then s2 else s2.(lock := s2.lock - 1)
  }

  /** `_onWorkerMessage` up to the point where it calls the callback. */
  function Shift(s: State): State
    requires s.outbox != []
  {
    var s0 := s.(outbox := s.outbox[1..], taken := s.taken + [s.outbox[0]]);
    if s.IsDisposed() then s0
    else s0.(delivered := s.delivered + 1,
             queue := if s.queue == [] then [] else s.queue[1..],
             error := if s.outbox[0].err.Some? then s.outbox[0].err else s.error)
  }

  function Deliver(s: State, script: seq<Action>): State
    requires s.outbox != [] && (s.queue != [] ==> s.queue[0] < |s.calls|)
  {
    if s.IsDisposed() || s.queue == [] then Shift(s)
    else OnResult(Shift(s), s.queue[0], s.outbox[0].result, script)
  }

  function Timeout(s: State, id: nat): State
    requires id < |s.calls|
  {
    var c := s.calls[id];
    s.(calls := s.calls[id := c.(promise := if c.promise.Pending? then TimedOut else c.promise,
                                 rejected := true, armed := false)],
       lock := s.lock - 1)
  }

  // ----- the step of the worker

  function WorkerStep(s: State, native: Native): State
    requires s.inbox != []
  {
    s.(inbox := s.inbox[1..], outbox := s.outbox + [ReplyTo(s.inbox[0], native)],
       execs := s.execs + [Exec(s.inbox[0], native)])
  }

  // ----- runs

  datatype Event =
    | Main(action: Action)
    | WorkerRuns(native: Native)
    | Delivery(script: seq<Action>)
    | TimeoutFires(id: nat)
    | SeesDrained
    | FinishDispose

  /** The bound on `queue[0]` in the second case holds in every reachable state. */
  predicate Enabled(s: State, e: Event) {
    match e
    case Main(_) => true
    case WorkerRuns(_) => s.inbox != []
    case Delivery(_) => s.outbox != [] && (s.queue != [] ==> s.queue[0] < |s.calls|)
    case TimeoutFires(id) => id < |s.calls| && s.calls[id].armed
    case SeesDrained => s.phase.Draining? && s.lock <= 0
    case FinishDispose => s.phase.Drained?
  }

  function Step(s: State, e: Event): State
    requires Enabled(s, e)
  {
    match e
    case Main(a) => Act(s, a)
    case WorkerRuns(native) => WorkerStep(s, native)
    case Delivery(script) => Deliver(s, script)
    case TimeoutFires(id) => Timeout(s, id)
    case SeesDrained => s.(phase := Drained)
    case FinishDispose => Finish(s)
  }

  predicate ValidRun(s: State, es: seq<Event>)
    decreases es
  {
    es == [] || (Enabled(s, es[0]) && ValidRun(Step(s, es[0]), es[1..]))
  }

  function Run(s: State, es: seq<Event>): State
    requires ValidRun(s, es)
    decreases es
  {
    if es == [] then s else Run(Step(s, es[0]), es[1..])
  }
}
