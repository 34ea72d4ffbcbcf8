/** SRTServer on top of SRTSocketAsync (src/srt-server.ts:152-319, src/srt-socket-async.ts:15-132)
    as a client of the call protocol. What follows each `await` is a continuation, labelled by
    `Cont` and run in the turn that delivers the reply. */
module SrtServer {
  import opened Wire
  import opened Worker
  import opened Counting
  import opened Protocol

  const EPOLL_IN_ERR := Num(0x1 + 0x8)
  const LISTENING := Num(3)
  const BACKLOG := Num(0xFFFF)

  /** SRTS_BROKEN, SRTS_NONEXIST and SRTS_CLOSED. */
  predicate IsBroken(status: Value) {
    status == Num(6) || status == Num(9) || status == Num(8)
  }

  /** What awaits the reply of a call; `Other` for the calls of other users of the handle. */
  datatype Cont =
    | Other
    | Creating | Binding | Listening | EpollCreating | Subscribing(listener: Value) | Polling
    | Querying(fd: int) | Accepting | Adding(added: Value) | ClosingConnection | ClosingSocket(closed: Value)

  datatype Connection = Connection(hasHandle: bool, gotFirstData: bool)

  /** `storesHandle` is false for the code as written, whose connection constructor drops the handle
      it is given, and true for the variant that keeps it. */
  datatype Config = Config(port: int, address: string, storesHandle: bool)

  /** `timers` are the pending poll timers and `pollTimer` is `_pollEventsTimer`. `disposing` holds
      while `dispose` awaits the disposal of the handle. `mapped`, `faults`, `closeCall` and
      `disposedEvents` are history: the keys that ever got an entry, the throws for an unmapped
      socket, the call that closes the socket and the number of `disposed` events. */
  datatype Server = Server(
    rpc: State, conts: seq<Cont>,
    socket: Value, epid: Value, pollTimer: Option<nat>, timers: set<nat>, nextTimer: nat,
    connections: map<Value, Connection>,
    createCalled: bool, openCalled: bool, startedToDispose: bool, disposing: bool,
    mapped: set<Value>, faults: seq<int>, closeCall: Option<nat>, disposedEvents: nat)

  const INITIAL := Server(INIT, [], Null, Null, None, {}, 0, map[], false, false, false, false, {}, [], None, 0)

  /** Posts a call whose reply will run `cont`. */
  function Await(s: Server, post: Post, cont: Cont): Server {
    s.(rpc := Invoke(s.rpc, post, false, false), conts := s.conts + [cont])
  }

  // ----- event handling

  function AfterAdd(c: Config, s: Server, fd: Value): Server {
    s.(connections := s.connections[fd := Connection(c.storesHandle, false)], mapped := s.mapped + {fd})
  }

  function AfterAccept(c: Config, s: Server, fd: Value): Server {
    var post := Post(EpollAddUsock, [s.epid, fd, EPOLL_IN_ERR]);
    match CallOutcome(s.rpc, post)
    case Promised(_) => Await(s, post, Adding(fd))
    case ReturnedUndefined => AfterAdd(c, s, fd)
    case _ => s
  }

  /** `close` of a connection: the first call drops the handle and the entry of the map. */
  function CloseConnection(s: Server, fd: Value): Server
    requires fd in s.connections
  {
    if !s.connections[fd].hasHandle then s
    else
      var s' := s.(connections := s.connections - {fd});
      var post := Post(Close, [fd]);
      if CallOutcome(s'.rpc, post).Promised? then Await(s', post, ClosingConnection) else s'
  }

  /** Data on a client's socket; without an entry the handler throws. */
  function DataFrom(s: Server, fd: int): Server {
    if Num(fd) !in s.connections then s.(faults := s.faults + [fd])
    else s.(connections := s.connections[Num(fd) := s.connections[Num(fd)].(gotFirstData := true)])
  }

  function AfterState(c: Config, s: Server, fd: int, status: Value): Server {
    if Num(fd) == s.socket then
      if status != LISTENING then s
      else
        var post := Post(Accept, [s.socket]);
        match CallOutcome(s.rpc, post)
        case Promised(_) => Await(s, post, Accepting)
        case ReturnedUndefined => AfterAccept(c, s, Undefined)
        case _ => s
    else if IsBroken(status) then
      if Num(fd) in s.connections then CloseConnection(s, Num(fd)) else s
    else DataFrom(s, fd)
  }

  function HandleEvent(c: Config, s: Server, fd: int): Server {
    var post := Post(GetSockState, [Num(fd)]);
    match CallOutcome(s.rpc, post)
    case Promised(_) => Await(s, post, Querying(fd))
    case ReturnedUndefined => AfterState(c, s, fd, Undefined)
    case _ => s
  }

  /** The handlers are started one after the other, none is awaited. */
  function HandleEvents(c: Config, s: Server, fds: seq<int>): Server {
    if fds == [] then s
    else HandleEvent(c, HandleEvents(c, s, fds[..|fds| - 1]), fds[|fds| - 1])
  }

  // ----- polling

  function ClearTimers(s: Server): Server {
    match s.pollTimer
    case None => s
    case Some(id) => s.(timers := s.timers - {id}, pollTimer := None)
  }

  function Poll(s: Server): Server {
    if s.epid == Num(0) || s.rpc.StartedToDispose() then ClearTimers(s)
    else
      var post := Post(EpollUWait, [s.epid, Num(0)]);
      if CallOutcome(s.rpc, post).Promised? then Await(s, post, Polling) else s
  }

  function SetTimer(s: Server): Server {
    var kept := if s.pollTimer.Some? then s.timers - {s.pollTimer.value} else s.timers;
    s.(timers := kept + {s.nextTimer}, pollTimer := Some(s.nextTimer), nextTimer := s.nextTimer + 1)
  }

  /** A result that is not an event array has no `forEach`: the loop rejects and stops. */
  function AfterPoll(c: Config, s: Server, events: Value): Server {
    if events.Events? then SetTimer(HandleEvents(c, s, events.sockets)) else s
  }

  // ----- create, open, dispose

  function CreateSocketCall(s: Server): Server {
    if s.socket != Null || s.startedToDispose then s
    else
      var post := Post(CreateSocket, [Flag(false)]);
      match CallOutcome(s.rpc, post)
      case Promised(_) => Await(s, post, Creating)
      case ReturnedUndefined => s.(socket := Undefined)
      case _ => s
  }

  function Open(c: Config, s: Server): Server {
    if s.socket == Null || s.startedToDispose then s
    else
      var s' := s.(openCalled := true);
      var post := Post(Bind, [s.socket, Text(c.address), Num(c.port)]);
      match CallOutcome(s.rpc, post)
      case Promised(_) => Await(s', post, Binding)
      case ReturnedUndefined => AfterBind(s', Undefined)
      case _ => s'
  }

  function AfterBind(s: Server, result: Value): Server {
    if result == SRT_ERROR then s
    else
      var post := Post(Listen, [s.socket, BACKLOG]);
      match CallOutcome(s.rpc, post)
      case Promised(_) => Await(s, post, Listening)
      case ReturnedUndefined => AfterListen(s, Undefined)
      case _ => s
  }

  function AfterListen(s: Server, result: Value): Server {
    if result == SRT_ERROR then s
    else
      var post := Post(EpollCreate, []);
      match CallOutcome(s.rpc, post)
      case Promised(_) => Await(s, post, EpollCreating)
      case ReturnedUndefined => AfterEpollCreate(s, Undefined)
      case _ => s
  }

  function AfterEpollCreate(s: Server, epid: Value): Server {
    if epid == SRT_ERROR then s
    else
      var s' := s.(epid := epid);
      var post := Post(EpollAddUsock, [epid, s.socket, EPOLL_IN_ERR]);
      match CallOutcome(s.rpc, post)
      case Promised(_) => Await(s', post, Subscribing(s.socket))
      case ReturnedUndefined => Poll(s')
      case _ => s'
  }

  function DisposeServer(s: Server): Server {
    var s' := ClearTimers(s);
    if s'.startedToDispose then s'
    else
      var s'' := s'.(startedToDispose := true);
      if s''.socket == Null then s''.(disposedEvents := s''.disposedEvents + 1)
      else
        var post := Post(Close, [s''.socket]);
        match CallOutcome(s''.rpc, post)
        case Promised(id) => Await(s'', post, ClosingSocket(s''.socket)).(closeCall := Some(id))
        case ReturnedUndefined => AfterCloseSocket(s'')
        case _ => s''
  }

  function AfterCloseSocket(s: Server): Server {
    s.(rpc := StartDispose(s.rpc), disposing := true)
  }

  // ----- steps

  datatype ServerEvent =
    | Rpc(e: Event)
    | CallCreate | CallOpen | CallDispose
    | TimerFires(id: nat)
    | Terminated
    | UserCloses(fd: Value)

  function Continue(c: Config, s: Server, cont: Cont, v: Value): Server {
    match cont
    case Other => s
    case Creating => s.(socket := v)
    case Binding => AfterBind(s, v)
    case Listening => AfterListen(s, v)
    case EpollCreating => AfterEpollCreate(s, v)
    case Subscribing(_) => Poll(s)
    case Polling => AfterPoll(c, s, v)
    case Querying(fd) => AfterState(c, s, fd, v)
    case Accepting => AfterAccept(c, s, v)
    case Adding(fd) => AfterAdd(c, s, fd)
    case ClosingConnection => s
    case ClosingSocket(_) => AfterCloseSocket(s)
  }

  /** The reply that e delivers has a call waiting for it. */
  predicate Continues(s: Server, e: Event) {
    e.Delivery? && !s.rpc.IsDisposed() && s.rpc.queue != [] && s.rpc.queue[0] < |s.conts| && s.rpc.outbox != []
  }

  function Wired(s: Server, e: Event): Server
    requires Protocol.Enabled(s.rpc, e)
  {
    var rpc := Protocol.Step(s.rpc, e);
    s.(rpc := rpc, conts := Pad(s.conts, |rpc.calls|, Other))
  }

  /** epollUWait names only sockets that some earlier epollAddUsock subscribed. */
  predicate Subscribed(execs: seq<Exec>, fd: int) {
    exists i :: 0 <= i < |execs| && Adds(execs[i].post, Num(fd))
  }

  predicate Adds(post: Post, fd: Value) {
    post.name.EpollAddUsock? && |post.args| > 1 && post.args[1] == fd
  }

  /** What is assumed of the native binding: it returns numbers where sockets and epoll ids are
      created, and epollUWait names only subscribed sockets. */
  predicate NativeOk(s: State, native: Native)
    requires s.inbox != []
  {
    var name := s.inbox[0].name;
    native.Returns? ==>
      && (name.CreateSocket? || name.Accept? || name.EpollCreate? ==> native.value.Num?)
      && (name.EpollUWait? && native.value.Events? ==>
            forall fd :: fd in native.value.sockets ==> Subscribed(s.execs, fd))
  }

  /** The calls follow the documented lifecycle: `create` once, then `open` once; `dispose` at any
      time and any number of times. `Terminated`: the promise of `worker.terminate()` resolves. */
  predicate Enabled(s: Server, e: ServerEvent) {
    match e
    case Rpc(pe) => Protocol.Enabled(s.rpc, pe) && (pe.WorkerRuns? ==> NativeOk(s.rpc, pe.native))
    case CallCreate => !s.createCalled
    case CallOpen => s.createCalled && !s.openCalled
    case CallDispose => true
    case TimerFires(id) => id in s.timers
    case Terminated => s.disposing && s.rpc.IsDisposed()
    case UserCloses(fd) => fd in s.connections
  }

  /** The other users of the handle do not dispose it, do not change the epoll set, and their posts
      do not throw. */
  ghost predicate Benign(s: Server, e: ServerEvent)
    requires Enabled(s, e)
  {
    e.Rpc? ==>
      var t := Wired(s, e.e);
      && (forall i :: 0 <= i < |t.rpc.calls| ==> !t.rpc.calls[i].promise.PostFailed?)
      && (forall i :: |s.conts| <= i < |t.rpc.calls| ==> !t.rpc.calls[i].post.name.EpollAddUsock?)
      && (t.rpc.StartedToDispose() ==> s.rpc.StartedToDispose())
  }

  function Step(c: Config, s: Server, e: ServerEvent): Server
    requires Enabled(s, e)
  {
    match e
    case Rpc(pe) =>
      var t := Wired(s, pe);
      if Continues(s, pe) then Continue(c, t, s.conts[s.rpc.queue[0]], s.rpc.outbox[0].result) else t
    case CallCreate => CreateSocketCall(s.(createCalled := true))
    case CallOpen => Open(c, s)
    case CallDispose => DisposeServer(s)
    case TimerFires(id) => Poll(s.(timers := s.timers - {id}))
    case Terminated => s.(socket := Null, disposing := false, disposedEvents := s.disposedEvents + 1)
    case UserCloses(fd) => CloseConnection(s, fd)
  }

  ghost predicate ValidRun(c: Config, s: Server, es: seq<ServerEvent>)
    decreases es
  {
    es == [] || (Enabled(s, es[0]) && Benign(s, es[0]) && ValidRun(c, Step(c, s, es[0]), es[1..]))
  }

  ghost function Run(c: Config, s: Server, es: seq<ServerEvent>): Server
    requires ValidRun(c, s, es)
    decreases es
  {
    if es == [] then s else Run(c, Step(c, s, es[0]), es[1..])
  }
}
