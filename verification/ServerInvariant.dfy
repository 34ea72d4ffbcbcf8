/** The inductive invariant of the server. `m` counts the deliveries whose continuation has run:
    it is `rpc.delivered` between turns and one less within the turn of a delivery. */
module ServerInvariant {
  import opened Wire
  import opened Worker
  import opened Protocol
  import opened Invariant
  import opened Guarantees
  import opened SrtServer

  /** Values that are neither transferred nor refused by a post. */
  predicate Plain(v: Value) { !v.View? && !v.Uncloneable? }

  predicate AllPlain(args: seq<Value>) {
    forall i :: 0 <= i < |args| ==> Plain(args[i])
  }

  /** A continuation belongs to the right kind of call. */
  predicate Fits(post: Post, cont: Cont) {
    && (post.name.EpollAddUsock? ==> cont.Adding? || cont.Subscribing?)
    && (cont.Adding? ==> Adds(post, cont.added) && Plain(cont.added))
    && (cont.Subscribing? ==> Adds(post, cont.listener))
    && (cont.Polling? ==> post.name.EpollUWait?)
    && (cont.Creating? ==> post.name.CreateSocket?)
    && (cont.Accepting? ==> post.name.Accept?)
    && (cont.EpollCreating? ==> post.name.EpollCreate?)
    && (cont.ClosingSocket? ==> post == Post(Close, [cont.closed]))
  }

  ghost predicate ContsOk(conts: seq<Cont>, calls: seq<Call>) {
    && |conts| == |calls|
    && forall i :: 0 <= i < |conts| ==> Fits(calls[i].post, conts[i]) && (!conts[i].Other? ==> !calls[i].hasCallback)
  }

  /** What the worker's calls returned obeys the assumptions on the native binding. */
  ghost predicate OracleOk(execs: seq<Exec>) {
    forall j :: 0 <= j < |execs| && execs[j].native.Returns? ==>
      var name, v := execs[j].post.name, execs[j].native.value;
      && (name.CreateSocket? || name.Accept? || name.EpollCreate? ==> v.Num?)
      && (name.EpollUWait? && v.Events? ==> forall fd :: fd in v.sockets ==> Subscribed(execs[..j], fd))
  }

  ghost predicate RpcPart(s: Server) {
    Inv(s.rpc, 0) && NoThrow(s.rpc.calls) && ContsOk(s.conts, s.rpc.calls) && OracleOk(s.rpc.execs)
  }

  ghost predicate MappedUpTo(conts: seq<Cont>, m: nat, mapped: set<Value>) {
    m <= |conts| && forall i :: 0 <= i < m && conts[i].Adding? ==> conts[i].added in mapped
  }

  /** Sockets asked about are the listener or have been given an entry. */
  ghost predicate QueriesOk(conts: seq<Cont>, socket: Value, mapped: set<Value>) {
    forall i :: 0 <= i < |conts| ==>
      && (conts[i].Querying? ==> Num(conts[i].fd) == socket || Num(conts[i].fd) in mapped)
      && (conts[i].Subscribing? ==> conts[i].listener == socket)
  }

  /** As written, no entry ever leaves the map and no socket event finds its entry missing. */
  ghost predicate TableOk(c: Config, s: Server) {
    && s.connections.Keys <= s.mapped
    && (forall fd :: fd in s.mapped ==> Plain(fd))
    && (!c.storesHandle ==> s.connections.Keys == s.mapped && forall fd :: fd in s.connections ==>
          !s.connections[fd].hasHandle)
    && (forall fd :: fd in s.faults ==> c.storesHandle && Num(fd) in s.mapped)
  }

  ghost predicate MapPart(c: Config, s: Server, m: nat) {
    && TableOk(c, s) && m <= s.rpc.delivered && MappedUpTo(s.conts, m, s.mapped)
    && (!s.rpc.IsDisposed() ==> QueriesOk(s.conts, s.socket, s.mapped))
  }

  ghost predicate CreateOk(s: Server, m: nat) {
    && (s.socket.Null? || s.socket.Num?) && Plain(s.epid) && (s.epid.Undefined? ==> s.rpc.StartedToDispose())
    && (!s.createCalled ==> s.socket == Null && !s.openCalled)
    && (forall i :: 0 <= i < |s.conts| ==>
          && (s.conts[i].Creating? ==> s.createCalled)
          && (s.conts[i].Creating? && m <= i ==> s.socket == Null && !s.openCalled)
          && (s.conts[i].Subscribing? ==> s.openCalled))
    && (forall i, j :: 0 <= i < j < |s.conts| ==> !(s.conts[i].Creating? && s.conts[j].Creating?))
  }

  ghost predicate DisposeOk(s: Server, m: nat) {
    && (forall i :: 0 <= i < |s.conts| ==> (s.conts[i].ClosingSocket? <==> s.closeCall == Some(i)))
    && (s.closeCall.Some? ==> s.closeCall.value < |s.conts| && s.startedToDispose)
    && (forall i :: 0 <= i < |s.conts| && s.conts[i].ClosingSocket? ==>
          s.conts[i].closed.Num? && s.socket == if s.disposedEvents == 0 then s.conts[i].closed else Null)
    && (s.rpc.StartedToDispose() <==> s.closeCall.Some? && s.closeCall.value < m)
    && (s.rpc.StartedToDispose() ==> (s.disposing <==> s.disposedEvents == 0))
    && (s.disposing ==> s.rpc.StartedToDispose())
    && s.disposedEvents <= 1
    && (s.closeCall.Some? && s.disposedEvents == 1 ==> s.rpc.IsDisposed() && s.socket == Null)
    && (s.startedToDispose <==> s.closeCall.Some? || s.disposedEvents == 1)
  }

  ghost predicate Core(c: Config, s: Server, m: nat) {
    RpcPart(s) && MapPart(c, s, m) && CreateOk(s, m) && DisposeOk(s, m)
  }

  // ----- the poll token

  predicate IsToken(cont: Cont) {
    cont.Binding? || cont.Listening? || cont.EpollCreating? || cont.Subscribing? || cont.Polling?
  }

  /** No step of `open` and no poll is under way from position `from` on. */
  ghost predicate NoToken(conts: seq<Cont>, from: nat) {
    forall i :: from <= i < |conts| ==> !IsToken(conts[i])
  }

  ghost predicate OneToken(s: Server, from: nat) {
    && (forall i, j :: from <= i < j < |s.conts| ==> !(IsToken(s.conts[i]) && IsToken(s.conts[j])))
    && (s.timers != {} ==> NoToken(s.conts, from) && s.pollTimer.Some? && s.timers == {s.pollTimer.value})
    && (!s.openCalled ==> NoToken(s.conts, from) && s.timers == {})
  }

  ghost predicate ServerInv(c: Config, s: Server) {
    Core(c, s, s.rpc.delivered) && OneToken(s, s.rpc.delivered)
  }

  // ----- posting

  lemma PlainNotTransferred(args: seq<Value>)
    requires AllPlain(args)
    ensures forall detached :: !PostThrows(detached, args)
  {
    assert forall i :: 0 <= i < |TransferList(args)| ==> TransferList(args)[i] in TransferList(args);
  }

  /** An accepted call with plain arguments. */
  lemma CallAccepted(rpc: State, post: Post)
    requires Inv(rpc, 0) && AllPlain(post.args) && CallOutcome(rpc, post).Promised?
    ensures var t := Invoke(rpc, post, false, false);
            && Inv(t, 0) && t.phase == rpc.phase && t.delivered == rpc.delivered && t.execs == rpc.execs
            && t.calls == rpc.calls + [Call.Call(post, Pending, false, false, false, false, [])]
            && t.taken == rpc.taken && t.outbox == rpc.outbox
            && CallOutcome(rpc, post).id == |rpc.calls|
  {
    PlainNotTransferred(post.args);
    InvokeInv(rpc, post, false, false, 0);
  }

  lemma CallRpc(s: Server, post: Post, cont: Cont)
    requires RpcPart(s) && AllPlain(post.args) && CallOutcome(s.rpc, post).Promised? && Fits(post, cont)
    ensures RpcPart(Await(s, post, cont))
  {
    CallAccepted(s.rpc, post);
    hide Inv, OracleOk, Fits, PostThrows, TransferList, Invoke;
  }

  /** A continuation that may be awaited at any time. */
  predicate Ordinary(s: Server, cont: Cont) {
    && !cont.Creating? && !cont.ClosingSocket?
    && (cont.Querying? ==> Num(cont.fd) == s.socket || Num(cont.fd) in s.mapped)
    && (cont.Subscribing? ==> cont.listener == s.socket && s.openCalled)
  }

  lemma AwaitMap(c: Config, s: Server, rpc: State, cont: Cont, m: nat)
    requires MapPart(c, s, m) && Ordinary(s, cont) && rpc.delivered == s.rpc.delivered && rpc.phase == s.rpc.phase
    ensures MapPart(c, s.(rpc := rpc, conts := s.conts + [cont]), m)
  {
  }

  lemma AwaitLife(s: Server, rpc: State, cont: Cont, m: nat)
    requires CreateOk(s, m) && DisposeOk(s, m) && m <= |s.conts| && Ordinary(s, cont) && rpc.phase == s.rpc.phase
    ensures CreateOk(s.(rpc := rpc, conts := s.conts + [cont]), m)
    ensures DisposeOk(s.(rpc := rpc, conts := s.conts + [cont]), m)
  {
  }

  lemma CallCore(c: Config, s: Server, post: Post, cont: Cont, m: nat)
    requires Core(c, s, m) && AllPlain(post.args) && CallOutcome(s.rpc, post).Promised? && Fits(post, cont)
             && Ordinary(s, cont)
    ensures var t := Await(s, post, cont);
            && Core(c, t, m) && t.rpc.delivered == s.rpc.delivered && t.rpc.phase == s.rpc.phase
            && t == s.(rpc := t.rpc, conts := s.conts + [cont])
  {
    hide RpcPart, CreateOk, DisposeOk, TableOk, QueriesOk, Fits, Ordinary, AllPlain, Invoke;
    CallRpc(s, post, cont);
    var t := Await(s, post, cont);
    AwaitPhase(s, post);
    AwaitMap(c, s, t.rpc, cont, m);
    AwaitLife(s, t.rpc, cont, m);
  }

  lemma AwaitPhase(s: Server, post: Post)
    requires RpcPart(s) && AllPlain(post.args) && CallOutcome(s.rpc, post).Promised?
    ensures var rpc := Invoke(s.rpc, post, false, false);
            rpc.phase == s.rpc.phase && rpc.delivered == s.rpc.delivered
  {
  }

  // ----- event handling keeps the invariant and leaves the poll loop alone

  /** t differs from s by calls outside the poll loop and by table entries. */
  ghost predicate Aside(s: Server, t: Server) {
    && s.conts <= t.conts && (forall i :: |s.conts| <= i < |t.conts| ==> !IsToken(t.conts[i]))
    && t.timers == s.timers && t.pollTimer == s.pollTimer && t.nextTimer == s.nextTimer
    && t.openCalled == s.openCalled && t.socket == s.socket && s.mapped <= t.mapped
    && t.rpc.delivered == s.rpc.delivered && t.rpc.phase == s.rpc.phase
    && t.startedToDispose == s.startedToDispose && t.closeCall == s.closeCall
  }

  lemma AfterAddCore(c: Config, s: Server, fd: Value, m: nat)
    requires Core(c, s, m) && Plain(fd)
    ensures var t := AfterAdd(c, s, fd); Core(c, t, m) && Aside(s, t) && fd in t.mapped
  {
    hide RpcPart, CreateOk, DisposeOk;
    var t := AfterAdd(c, s, fd);
    AddTable(c, s, fd);
    hide TableOk;
    assert CreateOk(t, m) && DisposeOk(t, m) by { SameLife(s, t, m); }
    assert RpcPart(t) by { SameRpc(s, t); }
  }

  lemma AddTable(c: Config, s: Server, fd: Value)
    requires TableOk(c, s) && Plain(fd)
    ensures TableOk(c, AfterAdd(c, s, fd))
  {
    assert s.connections[fd := Connection(c.storesHandle, false)].Keys == s.connections.Keys + {fd};
  }

  /** The table does not matter for the rest of the invariant. */
  lemma SameLife(s: Server, t: Server, m: nat)
    requires CreateOk(s, m) && DisposeOk(s, m)
    requires t == s.(connections := t.connections, mapped := t.mapped, faults := t.faults)
    ensures CreateOk(t, m) && DisposeOk(t, m)
  {
  }

  lemma SameRpc(s: Server, t: Server)
    requires RpcPart(s) && t.rpc == s.rpc && t.conts == s.conts
    ensures RpcPart(t)
  {
  }

  lemma PlainFields(c: Config, s: Server, m: nat)
    requires Core(c, s, m)
    ensures Plain(s.epid) && Plain(s.socket) && (s.socket.Null? || s.socket.Num?)
  {
    hide RpcPart, MapPart, DisposeOk;
  }

  lemma AfterAcceptCore(c: Config, s: Server, fd: Value, m: nat)
    requires Core(c, s, m) && Plain(fd)
    ensures var t := AfterAccept(c, s, fd); Core(c, t, m) && Aside(s, t)
  {
    hide RpcPart, CreateOk, DisposeOk, TableOk, AfterAdd, Await;
    PlainFields(c, s, m);
    var post := Post(EpollAddUsock, [s.epid, fd, EPOLL_IN_ERR]);
    assert post.args[1] == fd;
    match CallOutcome(s.rpc, post)
    case Promised(_) => CallCore(c, s, post, Adding(fd), m);
    case ReturnedUndefined => AfterAddCore(c, s, fd, m);
    case _ =>
  }

  lemma ForgetTable(c: Config, s: Server, fd: Value)
    requires TableOk(c, s) && fd in s.connections && s.connections[fd].hasHandle
    ensures TableOk(c, s.(connections := s.connections - {fd})) && Plain(fd)
  {
  }

  lemma TableChange(c: Config, s: Server, t: Server, m: nat)
    requires Core(c, s, m) && TableOk(c, t)
    requires t == s.(connections := t.connections, faults := t.faults)
    ensures Core(c, t, m) && Aside(s, t)
  {
    hide RpcPart, CreateOk, DisposeOk, TableOk;
    SameLife(s, t, m);
    SameRpc(s, t);
  }

  lemma CloseConnectionCore(c: Config, s: Server, fd: Value, m: nat)
    requires Core(c, s, m) && fd in s.connections
    ensures var t := CloseConnection(s, fd); Core(c, t, m) && Aside(s, t)
  {
    hide RpcPart, CreateOk, DisposeOk, TableOk, Await;
    if s.connections[fd].hasHandle {
      var s' := s.(connections := s.connections - {fd});
      ForgetTable(c, s, fd);
      TableChange(c, s, s', m);
      var post := Post(Close, [fd]);
      if CallOutcome(s'.rpc, post).Promised? {
        CallCore(c, s', post, ClosingConnection, m);
      }
    }
  }

  lemma MissingEntry(c: Config, s: Server, fd: int)
    requires TableOk(c, s) && Num(fd) in s.mapped
    ensures Num(fd) !in s.connections ==> TableOk(c, s.(faults := s.faults + [fd]))
    ensures Num(fd) in s.connections ==>
              TableOk(c, s.(connections := s.connections[Num(fd) := s.connections[Num(fd)].(gotFirstData := true)]))
  {
    if Num(fd) in s.connections {
      assert s.connections[Num(fd) := s.connections[Num(fd)].(gotFirstData := true)].Keys == s.connections.Keys;
    }
  }

  lemma AfterStateCore(c: Config, s: Server, fd: int, status: Value, m: nat)
    requires Core(c, s, m) && (Num(fd) == s.socket || Num(fd) in s.mapped)
    ensures var t := AfterState(c, s, fd, status); Core(c, t, m) && Aside(s, t)
  {
    hide RpcPart, CreateOk, DisposeOk, TableOk, Await, AfterAccept, CloseConnection;
    PlainFields(c, s, m);
    if Num(fd) == s.socket {
      if status == LISTENING {
        var post := Post(Accept, [s.socket]);
        match CallOutcome(s.rpc, post)
        case Promised(_) => CallCore(c, s, post, Accepting, m);
        case ReturnedUndefined => AfterAcceptCore(c, s, Undefined, m);
        case _ =>
      }
    } else if IsBroken(status) {
      if Num(fd) in s.connections {
        CloseConnectionCore(c, s, Num(fd), m);
      }
    } else {
      MissingEntry(c, s, fd);
      TableChange(c, s, AfterState(c, s, fd, status), m);
    }
  }

  lemma HandleEventCore(c: Config, s: Server, fd: int, m: nat)
    requires Core(c, s, m) && (Num(fd) == s.socket || Num(fd) in s.mapped)
    ensures var t := HandleEvent(c, s, fd); Core(c, t, m) && Aside(s, t)
  {
    hide RpcPart, CreateOk, DisposeOk, TableOk, Await, AfterState;
    var post := Post(GetSockState, [Num(fd)]);
    match CallOutcome(s.rpc, post)
    case Promised(_) => CallCore(c, s, post, Querying(fd), m);
    case ReturnedUndefined => AfterStateCore(c, s, fd, Undefined, m);
    case _ =>
  }

  lemma {:induction false} HandleEventsCore(c: Config, s: Server, fds: seq<int>, m: nat)
    requires Core(c, s, m) && forall fd :: fd in fds ==> Num(fd) == s.socket || Num(fd) in s.mapped
    ensures var t := HandleEvents(c, s, fds); Core(c, t, m) && Aside(s, t)
  {
    hide Core, HandleEvent;
    if fds != [] {
      var n := |fds| - 1;
      HandleEventsCore(c, s, fds[..n], m);
      var t := HandleEvents(c, s, fds[..n]);
      assert fds[n] in fds;
      HandleEventCore(c, t, fds[n], m);
    }
  }
}
