/** What the server guarantees in every reachable state, as written and with the connection
    handle kept. */
module ServerGuarantees {
  import opened Wire
  import opened Worker
  import opened Protocol
  import opened Invariant
  import opened Guarantees
  import opened Disposal
  import opened SrtServer
  import opened ServerInvariant
  import opened ServerSteps

  ghost predicate ServerReachable(c: Config, s: Server) {
    exists es :: SrtServer.ValidRun(c, INITIAL, es) && SrtServer.Run(c, INITIAL, es) == s
  }

  lemma {:induction false} ServerRun(c: Config, s: Server, es: seq<ServerEvent>)
    requires ServerInv(c, s) && SrtServer.ValidRun(c, s, es)
    ensures ServerInv(c, SrtServer.Run(c, s, es))
    decreases es
  {
    hide ServerInv, SrtServer.Step, Benign, SrtServer.Enabled;
    if es != [] {
      ServerStep(c, s, es[0]);
      ServerRun(c, SrtServer.Step(c, s, es[0]), es[1..]);
    }
  }

  lemma ServerReachableInv(c: Config, s: Server)
    requires ServerReachable(c, s)
    ensures ServerInv(c, s)
  {
    var es :| SrtServer.ValidRun(c, INITIAL, es) && SrtServer.Run(c, INITIAL, es) == s;
    InitialInv(c);
    hide ServerInv, SrtServer.ValidRun, SrtServer.Run;
    ServerRun(c, INITIAL, es);
  }

  // ----- accepted sockets

  /** In every interleaving of poll, accept and data handlers: when the events of a poll reach
      their handlers, each names the listener or a socket that was given its entry before. As
      written, that entry is still there. */
  lemma AcceptedBeforeSeen(c: Config, s: Server, e: Event, fd: int)
    requires ServerReachable(c, s) && Protocol.Enabled(s.rpc, e) && Continues(s, e)
    requires s.conts[s.rpc.queue[0]].Polling?
    requires s.rpc.outbox[0].result.Events? && fd in s.rpc.outbox[0].result.sockets
    ensures Num(fd) == s.socket || Num(fd) in s.mapped
    ensures Num(fd) == s.socket || c.storesHandle || Num(fd) in s.connections
  {
    hide ServerReachable, OneToken, Continues, CreateOk, DisposeOk, RpcPart;
    ServerReachableInv(c, s);
    PolledSocketsKnown(c, s, e, fd);
  }

  /** As written no connection ever leaves the map, and the throw for a socket without an entry is
      never reached. Where handles are kept, only sockets that had an entry and lost it can reach it. */
  lemma MissingEntriesOnlyAfterClose(c: Config, s: Server)
    requires ServerReachable(c, s)
    ensures !c.storesHandle ==> s.connections.Keys == s.mapped && s.faults == []
    ensures !c.storesHandle ==> forall fd :: fd in s.connections ==> CloseConnection(s, fd) == s
    ensures forall fd :: fd in s.faults ==> Num(fd) in s.mapped
  {
    hide ServerReachable, OneToken, CreateOk, DisposeOk, RpcPart;
    ServerReachableInv(c, s);
    if s.faults != [] {
      var fd := s.faults[0];
      assert fd in s.faults;
      assert c.storesHandle;
    }
  }

  // ----- the poll loop

  /** A step of `open` or a poll, from position `from` on, or a poll timer is outstanding. */
  ghost predicate Alive(s: Server, from: nat) {
    s.timers != {} || exists i :: from <= i < |s.conts| && IsToken(s.conts[i])
  }

  ghost predicate LoopAlive(s: Server) {
    Alive(s, s.rpc.delivered)
  }

  /** At most one of "poll in flight" and "poll timer pending" holds, and at most one of each. */
  lemma OnePoll(c: Config, s: Server, i: nat)
    requires ServerReachable(c, s)
    requires s.rpc.delivered <= i < |s.conts| && s.conts[i].Polling?
    ensures s.timers == {} && forall j :: s.rpc.delivered <= j < |s.conts| && j != i ==> !s.conts[j].Polling?
  {
    hide ServerReachable, Core;
    ServerReachableInv(c, s);
  }

  lemma OneTimer(c: Config, s: Server)
    requires ServerReachable(c, s) && s.timers != {}
    ensures s.pollTimer.Some? && s.timers == {s.pollTimer.value}
    ensures forall j :: s.rpc.delivered <= j < |s.conts| ==> !s.conts[j].Polling?
  {
    hide ServerReachable, Core;
    ServerReachableInv(c, s);
  }

  // A disposing handle accepts no call, so nothing the server does posts one.

  ghost predicate Silent(s: Server, t: Server) {
    t.rpc == s.rpc && t.conts == s.conts && t.timers == s.timers
  }

  lemma StateSilent(c: Config, s: Server, fd: int, status: Value)
    requires s.rpc.StartedToDispose()
    ensures Silent(s, AfterState(c, s, fd, status))
  {
    AcceptSilent(c, s, Undefined);
    CloseSilent(s, Num(fd));
    hide Invoke, Await, IsBroken, AfterAccept, CloseConnection;
  }

  lemma AcceptSilent(c: Config, s: Server, fd: Value)
    requires s.rpc.StartedToDispose()
    ensures Silent(s, AfterAccept(c, s, fd))
  {
    hide Invoke, Await;
  }

  lemma CloseSilent(s: Server, fd: Value)
    requires s.rpc.StartedToDispose()
    ensures fd in s.connections ==> Silent(s, CloseConnection(s, fd))
  {
    hide Invoke, Await;
  }

  lemma {:induction false} EventsSilent(c: Config, s: Server, fds: seq<int>)
    requires s.rpc.StartedToDispose()
    ensures Silent(s, HandleEvents(c, s, fds))
  {
    hide AfterState;
    if fds != [] {
      EventsSilent(c, s, fds[..|fds| - 1]);
      StateSilent(c, HandleEvents(c, s, fds[..|fds| - 1]), fds[|fds| - 1], Undefined);
    }
  }

  ghost predicate Quiet(s: Server, t: Server) {
    t.rpc == s.rpc && t.conts == s.conts && t.timers <= s.timers
  }

  lemma EpollSilent(s: Server, v: Value)
    requires s.rpc.StartedToDispose()
    ensures Quiet(s, AfterEpollCreate(s, v))
  {
    hide Invoke;
  }

  lemma ListenSilent(s: Server, v: Value)
    requires s.rpc.StartedToDispose()
    ensures Quiet(s, AfterListen(s, v))
  {
    hide Invoke, AfterEpollCreate;
    EpollSilent(s, Undefined);
  }

  lemma BindSilent(s: Server, v: Value)
    requires s.rpc.StartedToDispose()
    ensures Quiet(s, AfterBind(s, v))
  {
    hide Invoke, AfterListen;
    ListenSilent(s, Undefined);
  }

  lemma ContinueSilent(c: Config, s: Server, cont: Cont, v: Value)
    requires s.rpc.StartedToDispose()
    ensures var t := Continue(c, s, cont, v);
            t.rpc == s.rpc && t.conts == s.conts && (cont.Polling? || t.timers <= s.timers)
  {
    hide AfterBind, AfterListen, AfterEpollCreate, AfterState, HandleEvents, Invoke;
    match cont
    case Binding => BindSilent(s, v);
    case Listening => ListenSilent(s, v);
    case EpollCreating => EpollSilent(s, v);
    case Querying(fd) => StateSilent(c, s, fd, v);
    case Polling =>
      if v.Events? {
        EventsSilent(c, s, v.sockets);
      }
    case _ =>
  }

  lemma DisposingDelivery(c: Config, s: Server, pe: Event)
    requires ServerInv(c, s) && SrtServer.Enabled(s, Rpc(pe)) && Benign(s, Rpc(pe)) && s.rpc.StartedToDispose()
    ensures var t := SrtServer.Step(c, s, Rpc(pe));
            t.rpc.StartedToDispose() && |t.rpc.calls| == |s.rpc.calls| && (LoopAlive(t) ==> LoopAlive(s))
  {
    hide Core, OneToken, Inv, Protocol.Step, Protocol.Enabled, Continue, Benign, NativeOk, Wired;
    var w, d := Wired(s, pe), s.rpc.delivered;
    InvOf(c, s);
    SizesOf(c, s);
    WiredCore(c, s, pe);
    WiredCalls(s, pe);
    assert w.conts == s.conts;
    if Continues(s, pe) {
      NextOf(c, s, pe);
      ContinueSilent(c, w, s.conts[d], s.rpc.outbox[0].result);
    }
  }

  lemma WiredCalls(s: Server, e: Event)
    requires Inv(s.rpc, 0) && Protocol.Enabled(s.rpc, e) && s.rpc.StartedToDispose() && |s.conts| == |s.rpc.calls|
    ensures var w := Wired(s, e); |w.rpc.calls| == |s.rpc.calls| == |w.conts| && w.rpc.StartedToDispose()
  {
    DrainingStep(s.rpc, e);
    hide Inv, Protocol.Step;
  }

  /** While the handle is disposing no step posts a call, the poll loop is not revived, and a poll
      timer that fires ends it. */
  lemma DisposingLoopStep(c: Config, s: Server, e: ServerEvent)
    requires ServerInv(c, s) && SrtServer.Enabled(s, e) && Benign(s, e) && s.rpc.StartedToDispose()
    ensures var t := SrtServer.Step(c, s, e);
            && t.rpc.StartedToDispose() && |t.rpc.calls| == |s.rpc.calls|
            && (LoopAlive(t) ==> LoopAlive(s) && !e.TimerFires?)
  {
    hide Core, OneToken, Benign, SrtServer.Step, SrtServer.Enabled, LoopAlive;
    match e
    case Rpc(pe) => DisposingDelivery(c, s, pe);
    case TimerFires(id) => TimerEnds(c, s, id);
    case _ => UserCallQuiet(c, s, e); QuietLoop(s, SrtServer.Step(c, s, e));
  }

  lemma QuietLoop(s: Server, t: Server)
    requires Quiet(s, t)
    ensures LoopAlive(t) ==> LoopAlive(s)
  {
  }

  lemma TimerEnds(c: Config, s: Server, id: nat)
    requires ServerInv(c, s) && SrtServer.Enabled(s, TimerFires(id)) && s.rpc.StartedToDispose()
    ensures var t := SrtServer.Step(c, s, TimerFires(id)); t.rpc == s.rpc && !LoopAlive(t)
  {
    hide Core;
  }

  lemma UserCallQuiet(c: Config, s: Server, e: ServerEvent)
    requires ServerInv(c, s) && SrtServer.Enabled(s, e) && s.rpc.StartedToDispose() && !e.Rpc? && !e.TimerFires?
    ensures Quiet(s, SrtServer.Step(c, s, e))
  {
    FlagOf(c, s);
    hide ServerInv, CreateSocketCall, Open, DisposeServer, CloseConnection;
    match e
    case CallCreate => CreateRefused(s.(createCalled := true));
    case CallOpen => OpenRefused(c, s);
    case CallDispose => DisposeQuiet(s);
    case Terminated =>
    case UserCloses(fd) => CloseSilent(s, fd);
  }

  lemma CreateRefused(s: Server)
    requires s.startedToDispose
    ensures CreateSocketCall(s) == s
  {
    hide Invoke, CallOutcome;
  }

  lemma DisposeQuiet(s: Server)
    requires s.startedToDispose
    ensures Quiet(s, DisposeServer(s))
  {
    hide Await, CallOutcome;
  }

  lemma OpenRefused(c: Config, s: Server)
    requires s.startedToDispose
    ensures Open(c, s) == s
  {
  }

  lemma InvOf(c: Config, s: Server)
    requires ServerInv(c, s)
    ensures Inv(s.rpc, 0)
  {
  }

  lemma NextOf(c: Config, s: Server, e: Event)
    requires ServerInv(c, s) && Continues(s, e)
    ensures s.rpc.queue[0] == s.rpc.delivered < |s.conts|
  {
  }

  lemma SizesOf(c: Config, s: Server)
    requires ServerInv(c, s)
    ensures |s.conts| == |s.rpc.calls|
  {
  }

  lemma FlagOf(c: Config, s: Server)
    requires ServerInv(c, s) && s.rpc.StartedToDispose()
    ensures s.startedToDispose
  {
    hide RpcPart, MapPart, CreateOk, OneToken;
  }

  function TimersFired(es: seq<ServerEvent>): nat {
    if es == [] then 0 else (if es[0].TimerFires? then 1 else 0) + TimersFired(es[1..])
  }

  lemma {:induction false} DisposingRun(c: Config, s: Server, es: seq<ServerEvent>)
    requires ServerInv(c, s) && SrtServer.ValidRun(c, s, es) && s.rpc.StartedToDispose()
    ensures |SrtServer.Run(c, s, es).rpc.calls| == |s.rpc.calls|
    ensures TimersFired(es) <= if LoopAlive(s) then 1 else 0
    decreases es
  {
    hide ServerInv, SrtServer.Step, Benign, LoopAlive;
    if es != [] {
      ServerStep(c, s, es[0]);
      DisposingLoopStep(c, s, es[0]);
      assert es[0].TimerFires? ==> LoopAlive(s) by { FiringAlive(s, es[0]); }
      DisposingRun(c, SrtServer.Step(c, s, es[0]), es[1..]);
    }
  }

  /** After the handle has started to dispose no epollUWait (nor any other call) is posted, and the
      poll timer fires at most once more. */
  lemma LoopStops(c: Config, s: Server, es: seq<ServerEvent>)
    requires ServerReachable(c, s) && SrtServer.ValidRun(c, s, es) && s.rpc.StartedToDispose()
    ensures |SrtServer.Run(c, s, es).rpc.calls| == |s.rpc.calls|
    ensures TimersFired(es) <= if LoopAlive(s) then 1 else 0
  {
    ServerReachableInv(c, s);
    hide ServerReachable, ServerInv, LoopAlive;
    DisposingRun(c, s, es);
  }

  lemma FiringAlive(s: Server, e: ServerEvent)
    requires SrtServer.Enabled(s, e)
    ensures e.TimerFires? ==> LoopAlive(s)
  {
  }

  // ----- disposal

  /** The first `dispose` posts the call that closes the socket exactly when the socket is there at
      that moment; otherwise it emits `disposed` at once. Later ones only clear the poll timer. */
  lemma DisposeCloses(c: Config, s: Server)
    requires ServerReachable(c, s)
    ensures var t := DisposeServer(s);
            && (!s.startedToDispose ==>
                  (t.closeCall.Some? <==> s.socket != Null) && (t.disposedEvents == 1 <==> s.socket == Null))
            && (s.startedToDispose ==> t == ClearTimers(s))
  {
    hide ServerReachable, OneToken;
    ServerReachableInv(c, s);
    DisposeStep(c, s);
    PlainFields(c, s, s.rpc.delivered);
    hide RpcPart, MapPart, CreateOk, Await;
  }

  /** However many `dispose` calls overlap: they post at most one call, which closes the socket that
      `create` stored; the worker is dropped only after its reply was delivered; `disposed` is emitted
      at most once, and, when a close was posted, only with the worker gone and the socket null.
      Without a close the worker is never dropped. */
  lemma SocketDisposal(c: Config, s: Server)
    requires ServerReachable(c, s)
    ensures forall i, j ::
              0 <= i < j < |s.conts| ==> !(s.conts[i].ClosingSocket? && s.conts[j].ClosingSocket?)
    ensures s.closeCall.Some? ==>
              var i := s.closeCall.value;
              && i < |s.conts| == |s.rpc.calls| && s.conts[i].ClosingSocket?
              && s.rpc.calls[i].post == Post(Close, [s.conts[i].closed]) && s.conts[i].closed.Num?
              && s.socket == if s.disposedEvents == 0 then s.conts[i].closed else Null
    ensures s.rpc.StartedToDispose() <==> s.closeCall.Some? && s.closeCall.value < s.rpc.delivered
    ensures s.disposedEvents <= 1
    ensures s.disposedEvents == 1 && s.closeCall.Some? ==> s.rpc.IsDisposed() && s.socket == Null
    ensures s.disposedEvents == 1 && s.closeCall.None? ==> !s.rpc.StartedToDispose()
  {
    hide ServerReachable, OneToken, RpcPart, MapPart, CreateOk;
    ServerReachableInv(c, s);
    ClosePosts(s);
  }

  lemma ClosePosts(s: Server)
    requires RpcPart(s)
    ensures |s.conts| == |s.rpc.calls|
    ensures forall i :: 0 <= i < |s.conts| && s.conts[i].ClosingSocket? ==>
              s.rpc.calls[i].post == Post(Close, [s.conts[i].closed])
  {
    hide Inv, OracleOk, NoThrow;
    forall i | 0 <= i < |s.conts| && s.conts[i].ClosingSocket?
      ensures s.rpc.calls[i].post == Post(Close, [s.conts[i].closed])
    {
      assert Fits(s.rpc.calls[i].post, s.conts[i]);
    }
  }

  // ----- why `dispose` needs the socket

  lemma {:induction false} ServerRunExtend(c: Config, s: Server, es: seq<ServerEvent>, e: ServerEvent)
    requires SrtServer.ValidRun(c, s, es)
    requires SrtServer.Enabled(SrtServer.Run(c, s, es), e) && Benign(SrtServer.Run(c, s, es), e)
    ensures SrtServer.ValidRun(c, s, es + [e])
    ensures SrtServer.Run(c, s, es + [e]) == SrtServer.Step(c, SrtServer.Run(c, s, es), e)
    decreases es
  {
    hide SrtServer.Enabled, SrtServer.Step, Benign;
    if es == [] {
      assert ([e])[1..] == [];
    } else {
      ServerRunExtend(c, SrtServer.Step(c, s, es[0]), es[1..], e);
      assert (es + [e])[1..] == es[1..] + [e];
    }
  }

  lemma ServerReachableStep(c: Config, s: Server, e: ServerEvent)
    requires ServerReachable(c, s) && SrtServer.Enabled(s, e) && Benign(s, e)
    ensures ServerReachable(c, SrtServer.Step(c, s, e))
  {
    var es :| SrtServer.ValidRun(c, INITIAL, es) && SrtServer.Run(c, INITIAL, es) == s;
    hide SrtServer.Enabled, SrtServer.Step, Benign;
    ServerRunExtend(c, INITIAL, es, e);
  }

  lemma ServerStartReachable(c: Config)
    ensures ServerReachable(c, INITIAL)
  {
    assert SrtServer.ValidRun(c, INITIAL, []) && SrtServer.Run(c, INITIAL, []) == INITIAL;
  }

  lemma CreateFirst(c: Config, post: Post, s1: Server)
    requires post == Post(CreateSocket, [Flag(false)])
    requires s1 == INITIAL.(createCalled := true, conts := [Creating],
                            rpc := INIT.(lock := 1, queue := [0], inbox := [post],
                                         calls := [Protocol.Call.Call(post, Pending, false, false, false, false, [])]))
    ensures ServerReachable(c, s1)
  {
    ServerStartReachable(c);
    FlagPosts(post.args, {});
    hide ServerReachable, TransferList, PostThrows;
    assert INIT.detached + SetOf([]) == {};
    assert SrtServer.Step(c, INITIAL, CallCreate) == s1;
    ServerReachableStep(c, INITIAL, CallCreate);
  }

  lemma CreateThenDispose(c: Config, post: Post, s1: Server, s2: Server)
    requires post == Post(CreateSocket, [Flag(false)])
    requires s1 == INITIAL.(createCalled := true, conts := [Creating],
                            rpc := INIT.(lock := 1, queue := [0], inbox := [post],
                                         calls := [Protocol.Call.Call(post, Pending, false, false, false, false, [])]))
    requires s2 == s1.(startedToDispose := true, disposedEvents := 1)
    ensures ServerReachable(c, s2)
  {
    CreateFirst(c, post, s1);
    hide ServerReachable;
    assert SrtServer.Step(c, s1, CallDispose) == s2;
    ServerReachableStep(c, s1, CallDispose);
  }

  /** The race that the condition in DisposeCloses is about: `dispose` while `create` awaits its
      reply emits `disposed`; then the reply sets the socket, which nothing closes, and the worker
      stays. */
  lemma DisposeDuringCreateLeaks(c: Config, fd: int)
    ensures exists s :: ServerReachable(c, s) && s.disposedEvents == 1 && s.socket == Num(fd)
                        && !s.rpc.StartedToDispose() && s.rpc.calls != [] && s.rpc.queue == []
  {
    var post := Post(CreateSocket, [Flag(false)]);
    var s1 := INITIAL.(createCalled := true, conts := [Creating],
                       rpc := INIT.(lock := 1, queue := [0], inbox := [post],
                                    calls := [Protocol.Call.Call(post, Pending, false, false, false, false, [])]));
    var s2 := s1.(startedToDispose := true, disposedEvents := 1);
    CreateThenDispose(c, post, s1, s2);
    hide ServerReachable;
    assert post.args[0] == Flag(false);
    var e3, e4 := Rpc(WorkerRuns(Returns(Num(fd)))), Rpc(Delivery([]));
    var s3 := s2.(rpc := WorkerStep(s2.rpc, Returns(Num(fd))));
    assert Wired(s2, WorkerRuns(Returns(Num(fd)))) == s3;
    ServerReachableStep(c, s2, e3);
    assert s3.rpc.outbox == [Reply(Num(fd), None)];
    var s4 := SrtServer.Step(c, s3, e4);
    assert Benign(s3, e4);
    ServerReachableStep(c, s3, e4);
    assert s4.socket == Num(fd);
  }
}
