/** Every step of the server keeps its invariant. */
module ServerSteps {
  import opened Wire
  import opened Worker
  import opened Counting
  import opened Protocol
  import opened Invariant
  import opened Guarantees
  import opened SrtServer
  import opened ServerInvariant

  // ----- the poll loop

  /** The loop neither runs nor waits, from position `from` on. */
  ghost predicate Idle(s: Server, from: nat) {
    NoToken(s.conts, from) && s.timers == {} && s.openCalled
  }

  /** t is a good successor of s that leaves the life cycle alone. */
  ghost predicate Goes(c: Config, s: Server, t: Server, m: nat, from: nat) {
    && Core(c, t, m) && OneToken(t, from)
    && t.rpc.delivered == s.rpc.delivered && t.rpc.phase == s.rpc.phase
  }

  lemma AsideToken(s: Server, t: Server, from: nat)
    requires Aside(s, t)
    ensures OneToken(s, from) ==> OneToken(t, from)
    ensures Idle(s, from) ==> Idle(t, from)
  {
  }

  lemma TokenAwaited(c: Config, s: Server, post: Post, cont: Cont, m: nat, from: nat)
    requires Core(c, s, m) && Idle(s, from)
    requires AllPlain(post.args) && CallOutcome(s.rpc, post).Promised? && Fits(post, cont) && Ordinary(s, cont)
    ensures Goes(c, s, Await(s, post, cont), m, from)
  {
    hide Core, Await, AllPlain, Fits, Ordinary;
    CallCore(c, s, post, cont, m);
  }

  lemma ClearTimersCore(c: Config, s: Server, m: nat)
    requires Core(c, s, m)
    ensures Core(c, ClearTimers(s), m)
  {
    hide TableOk, RpcPart;
    SameRpc(s, ClearTimers(s));
    SameTable(c, s, ClearTimers(s));
  }

  lemma SameTable(c: Config, s: Server, t: Server)
    requires TableOk(c, s) && t.connections == s.connections && t.mapped == s.mapped && t.faults == s.faults
    ensures TableOk(c, t)
  {
  }

  lemma PollGoes(c: Config, s: Server, m: nat, from: nat)
    requires Core(c, s, m) && Idle(s, from)
    ensures Goes(c, s, Poll(s), m, from)
  {
    hide Core, Await;
    var post := Post(EpollUWait, [s.epid, Num(0)]);
    PlainFields(c, s, m);
    ClearTimersCore(c, s, m);
    if !(s.epid == Num(0) || s.rpc.StartedToDispose()) && CallOutcome(s.rpc, post).Promised? {
      TokenAwaited(c, s, post, Polling, m, from);
    }
  }

  lemma SetTimerCore(c: Config, s: Server, m: nat)
    requires Core(c, s, m)
    ensures Core(c, SetTimer(s), m)
  {
    hide TableOk, RpcPart;
    SameRpc(s, SetTimer(s));
    SameTable(c, s, SetTimer(s));
  }

  lemma AfterPollGoes(c: Config, s: Server, events: Value, m: nat, from: nat)
    requires Core(c, s, m) && Idle(s, from)
    requires events.Events? ==> forall fd :: fd in events.sockets ==> Num(fd) == s.socket || Num(fd) in s.mapped
    ensures Goes(c, s, AfterPoll(c, s, events), m, from)
  {
    hide Core, HandleEvents;
    if events.Events? {
      HandleEventsCore(c, s, events.sockets, m);
      var t := HandleEvents(c, s, events.sockets);
      AsideToken(s, t, from);
      SetTimerCore(c, t, m);
    }
  }

  // ----- open

  lemma AfterEpollCreateGoes(c: Config, s: Server, epid: Value, m: nat, from: nat)
    requires Core(c, s, m) && Idle(s, from) && Plain(epid) && (epid.Undefined? ==> s.rpc.StartedToDispose())
    ensures Goes(c, s, AfterEpollCreate(s, epid), m, from)
  {
    hide Core, Await, Poll;
    var s' := s.(epid := epid);
    EpidSet(c, s, epid, m);
    PlainFields(c, s', m);
    if epid != SRT_ERROR {
      var post := Post(EpollAddUsock, [epid, s.socket, EPOLL_IN_ERR]);
      assert post.args[1] == s.socket;
      match CallOutcome(s.rpc, post)
      case Promised(_) => TokenAwaited(c, s', post, Subscribing(s.socket), m, from);
      case ReturnedUndefined => PollGoes(c, s', m, from);
      case _ =>
    }
  }

  lemma EpidSet(c: Config, s: Server, epid: Value, m: nat)
    requires Core(c, s, m) && Plain(epid) && (epid.Undefined? ==> s.rpc.StartedToDispose())
    ensures Core(c, s.(epid := epid), m)
  {
    hide TableOk, RpcPart;
    SameRpc(s, s.(epid := epid));
    SameTable(c, s, s.(epid := epid));
  }

  lemma AfterListenGoes(c: Config, s: Server, result: Value, m: nat, from: nat)
    requires Core(c, s, m) && Idle(s, from)
    ensures Goes(c, s, AfterListen(s, result), m, from)
  {
    hide Core, Await, AfterEpollCreate;
    if result != SRT_ERROR {
      var post := Post(EpollCreate, []);
      match CallOutcome(s.rpc, post)
      case Promised(_) => TokenAwaited(c, s, post, EpollCreating, m, from);
      case ReturnedUndefined => AfterEpollCreateGoes(c, s, Undefined, m, from);
      case _ =>
    }
  }

  lemma AfterBindGoes(c: Config, s: Server, result: Value, m: nat, from: nat)
    requires Core(c, s, m) && Idle(s, from)
    ensures Goes(c, s, AfterBind(s, result), m, from)
  {
    hide Core, Await, AfterListen;
    PlainFields(c, s, m);
    if result != SRT_ERROR {
      var post := Post(Listen, [s.socket, BACKLOG]);
      match CallOutcome(s.rpc, post)
      case Promised(_) => TokenAwaited(c, s, post, Listening, m, from);
      case ReturnedUndefined => AfterListenGoes(c, s, Undefined, m, from);
      case _ =>
    }
  }

  lemma OpenSet(c: Config, s: Server, m: nat, from: nat)
    requires Core(c, s, m) && OneToken(s, from) && !s.openCalled && s.socket != Null
    ensures Core(c, s.(openCalled := true), m) && Idle(s.(openCalled := true), from)
  {
    hide TableOk, RpcPart;
    SameRpc(s, s.(openCalled := true));
    SameTable(c, s, s.(openCalled := true));
  }

  lemma OpenGoes(c: Config, s: Server, m: nat, from: nat)
    requires Core(c, s, m) && OneToken(s, from) && !s.openCalled
    ensures Goes(c, s, Open(c, s), m, from)
  {
    hide Core, Await, AfterBind, OneToken;
    PlainFields(c, s, m);
    if s.socket != Null && !s.startedToDispose {
      var s' := s.(openCalled := true);
      OpenSet(c, s, m, from);
      var post := Post(Bind, [s.socket, Text(c.address), Num(c.port)]);
      match CallOutcome(s.rpc, post)
      case Promised(_) => TokenAwaited(c, s', post, Binding, m, from);
      case ReturnedUndefined => AfterBindGoes(c, s', Undefined, m, from);
      case _ => IdleGoes(c, s', m, from);
    }
  }

  lemma IdleGoes(c: Config, s: Server, m: nat, from: nat)
    requires Core(c, s, m) && Idle(s, from)
    ensures Goes(c, s, s, m, from)
  {
  }

  // ----- create and dispose

  lemma CreateStep(c: Config, s: Server)
    requires ServerInv(c, s) && !s.createCalled
    ensures ServerInv(c, CreateSocketCall(s.(createCalled := true)))
  {
    var m, s', post := s.rpc.delivered, s.(createCalled := true), Post(CreateSocket, [Flag(false)]);
    hide TableOk, RpcPart, Invoke;
    SameRpc(s, s');
    SameTable(c, s, s');
    if s'.socket == Null && !s'.startedToDispose && CallOutcome(s'.rpc, post).Promised? {
      CallRpc(s', post, Creating);
      AwaitPhase(s', post);
      SameTable(c, s', Await(s', post, Creating));
    }
  }

  /** `dispose` with a socket posts the one call that closes it. */
  lemma CloseSocketPosted(c: Config, s: Server, m: nat, post: Post)
    requires Core(c, s, m) && !s.startedToDispose && s.socket.Num? && post == Post(Close, [s.socket])
    ensures CallOutcome(s.rpc, post) == Promised(|s.conts|)
    ensures var t := Await(s.(startedToDispose := true), post, ClosingSocket(s.socket));
            Core(c, t.(closeCall := Some(|s.conts|)), m)
    ensures Await(s, post, ClosingSocket(s.socket)).rpc.delivered == s.rpc.delivered
  {
    hide TableOk, RpcPart, Invoke;
    ContsSize(s);
    CallRpc(s, post, ClosingSocket(s.socket));
    AwaitPhase(s, post);
    var t := Await(s.(startedToDispose := true), post, ClosingSocket(s.socket)).(closeCall := Some(|s.conts|));
    SameRpc(Await(s, post, ClosingSocket(s.socket)), t);
    SameTable(c, s, t);
  }

  lemma ContsSize(s: Server)
    requires RpcPart(s)
    ensures |s.conts| == |s.rpc.calls|
  {
  }

  lemma DisposeWithoutSocket(c: Config, s: Server, m: nat)
    requires Core(c, s, m) && !s.startedToDispose && s.socket == Null
    ensures Core(c, s.(startedToDispose := true, disposedEvents := s.disposedEvents + 1), m)
  {
    hide TableOk, RpcPart;
    SameRpc(s, s.(startedToDispose := true, disposedEvents := s.disposedEvents + 1));
    SameTable(c, s, s.(startedToDispose := true, disposedEvents := s.disposedEvents + 1));
  }

  lemma DisposeStep(c: Config, s: Server)
    requires ServerInv(c, s)
    ensures ServerInv(c, DisposeServer(s))
  {
    hide Core, Await, OneToken, ClearTimers;
    var m, s' := s.rpc.delivered, ClearTimers(s);
    ClearTokens(s, m);
    ClearTimersCore(c, s, m);
    PlainFields(c, s', m);
    if !s'.startedToDispose {
      if s'.socket == Null {
        DisposeWithoutSocket(c, s', m);
        SameToken(s', s'.(startedToDispose := true, disposedEvents := s'.disposedEvents + 1), m);
      } else {
        var post := Post(Close, [s'.socket]);
        CloseSocketPosted(c, s', m, post);
        AwaitFields(s'.(startedToDispose := true), post, ClosingSocket(s'.socket));
        var t := Await(s'.(startedToDispose := true), post, ClosingSocket(s'.socket));
        ClosingToken(s', t.(closeCall := Some(|s'.conts|)), m);
      }
    }
  }

  lemma ClearTokens(s: Server, from: nat)
    requires OneToken(s, from)
    ensures OneToken(ClearTimers(s), from) && ClearTimers(s).rpc.delivered == s.rpc.delivered
  {
  }

  lemma ClosingToken(s: Server, t: Server, from: nat)
    requires OneToken(s, from) && t.conts == s.conts + [ClosingSocket(s.socket)] && t.openCalled == s.openCalled
    requires t.timers == s.timers && t.pollTimer == s.pollTimer
    ensures OneToken(t, from)
  {
  }

  lemma AwaitFields(s: Server, post: Post, cont: Cont)
    ensures var t := Await(s, post, cont);
              t == s.(rpc := t.rpc, conts := s.conts + [cont]) && t.rpc.delivered == s.rpc.delivered
  {
  }

  // ----- deliveries

  /** The reply about to be delivered answers the message of the call at position `delivered`. */
  lemma DeliveredReply(s: Server, e: Event)
    requires RpcPart(s) && Protocol.Enabled(s.rpc, e) && Continues(s, e)
    ensures var d := s.rpc.delivered;
            && s.rpc.queue[0] == d < |s.rpc.calls| && d < |s.rpc.execs| && s.rpc.execs[d].post == s.rpc.calls[d].post
            && s.rpc.outbox[0] == ReplyTo(s.rpc.execs[d].post, s.rpc.execs[d].native)
            && Undefined !in s.rpc.execs[d].post.args
            && forall i :: 0 <= i < d ==> s.rpc.execs[i].post == s.rpc.calls[i].post
  {
    hide ContsOk, OracleOk;
    var d := s.rpc.delivered;
    IdentityPositions(s.rpc.calls);
    assert CallOk(s.rpc.calls[d], ResultAt(s.rpc.taken, d, d));
  }

  /** Any socket that a delivered poll names is the listener or an accepted one whose entry was
      made in an earlier turn: epollAddUsock was executed, so answered and delivered, before it. */
  lemma PolledSocketsKnown(c: Config, s: Server, e: Event, fd: int)
    requires Core(c, s, s.rpc.delivered) && Protocol.Enabled(s.rpc, e) && Continues(s, e)
    requires s.conts[s.rpc.queue[0]].Polling?
    requires s.rpc.outbox[0].result.Events? && fd in s.rpc.outbox[0].result.sockets
    ensures Num(fd) == s.socket || Num(fd) in s.mapped
  {
    hide Inv, CreateOk, DisposeOk, TableOk;
    var d := s.rpc.delivered;
    DeliveredReply(s, e);
    var execs := s.rpc.execs;
    assert Fits(s.rpc.calls[d].post, s.conts[d]);
    assert execs[d].native == Returns(s.rpc.outbox[0].result);
    assert Subscribed(execs[..d], fd);
    var i :| 0 <= i < d && Adds(execs[..d][i].post, Num(fd));
    assert Fits(s.rpc.calls[i].post, s.conts[i]);
  }

  lemma NumberResult(s: Server, e: Event)
    requires RpcPart(s) && Protocol.Enabled(s.rpc, e) && Continues(s, e)
    requires var k := s.conts[s.rpc.queue[0]]; k.Creating? || k.Accepting? || k.EpollCreating?
    ensures s.rpc.outbox[0].result.Num?
  {
    hide Inv;
    DeliveredReply(s, e);
    var d := s.rpc.delivered;
    assert Fits(s.rpc.calls[d].post, s.conts[d]);
  }

  lemma PadConts(conts: seq<Cont>, calls: seq<Call>, calls': seq<Call>)
    requires ContsOk(conts, calls) && SamePosts(calls, calls')
    requires forall i :: |conts| <= i < |calls'| ==> !calls'[i].post.name.EpollAddUsock?
    ensures ContsOk(Pad(conts, |calls'|, Other), calls')
  {
  }

  lemma OracleNext(execs: seq<Exec>, x: Exec)
    requires OracleOk(execs)
    requires x.native.Returns? ==>
               var name, v := x.post.name, x.native.value;
               && (name.CreateSocket? || name.Accept? || name.EpollCreate? ==> v.Num?)
               && (name.EpollUWait? && v.Events? ==> forall fd :: fd in v.sockets ==> Subscribed(execs, fd))
    ensures OracleOk(execs + [x])
  {
    assert forall j :: 0 <= j < |execs| ==> (execs + [x])[..j] == execs[..j];
    assert (execs + [x])[..|execs|] == execs;
  }

  lemma WiredRpc(s: Server, e: Event)
    requires RpcPart(s) && SrtServer.Enabled(s, Rpc(e)) && Benign(s, Rpc(e))
    ensures RpcPart(Wired(s, e)) && |s.conts| == |s.rpc.calls| <= |Wired(s, e).rpc.calls|
  {
    StepInv(s.rpc, e);
    StepEvolves(s.rpc, e);
    StepHistory(s.rpc, e);
    hide Inv, Protocol.Step;
    PadConts(s.conts, s.rpc.calls, Wired(s, e).rpc.calls);
    if e.WorkerRuns? {
      OracleNext(s.rpc.execs, Exec(s.rpc.inbox[0], e.native));
    } else {
      assert s.rpc.execs + [] == s.rpc.execs;
    }
  }

  /** Other traffic pads the continuations and otherwise leaves the server alone. */
  lemma WiredCore(c: Config, s: Server, e: Event)
    requires Core(c, s, s.rpc.delivered) && SrtServer.Enabled(s, Rpc(e)) && Benign(s, Rpc(e))
    ensures var t := Wired(s, e);
            && Core(c, t, s.rpc.delivered) && t == s.(rpc := t.rpc, conts := t.conts)
            && s.conts <= t.conts && (forall i :: |s.conts| <= i < |t.conts| ==> t.conts[i].Other?)
            && t.rpc.delivered == s.rpc.delivered + (if e.Delivery? && !s.rpc.IsDisposed() then 1 else 0)
            && (Continues(s, e) <==> e.Delivery? && !s.rpc.IsDisposed())
  {
    hide RpcPart, MapPart, CreateOk, DisposeOk, Benign, Protocol.Step;
    var t := Wired(s, e);
    WiredRpc(s, e);
    WiredHistory(s, e);
    assert t.conts[..|s.conts|] == s.conts;
    PaddedMap(c, s, t, s.rpc.delivered);
    PaddedLife(s, t, s.rpc.delivered);
  }

  ghost predicate Padded(s: Server, t: Server) {
    && t == s.(rpc := t.rpc, conts := t.conts)
    && s.conts <= t.conts && (forall i :: |s.conts| <= i < |t.conts| ==> t.conts[i].Other?)
    && s.rpc.delivered <= t.rpc.delivered
    && (t.rpc.StartedToDispose() <==> s.rpc.StartedToDispose())
    && (s.rpc.IsDisposed() ==> t.rpc.IsDisposed())
  }

  lemma PaddedMap(c: Config, s: Server, t: Server, m: nat)
    requires MapPart(c, s, m) && Padded(s, t)
    ensures MapPart(c, t, m) && m <= |s.conts|
  {
    SameTable(c, s, t);
    hide TableOk;
  }

  lemma PaddedLife(s: Server, t: Server, m: nat)
    requires CreateOk(s, m) && DisposeOk(s, m) && Padded(s, t) && m <= |s.conts|
    ensures CreateOk(t, m) && DisposeOk(t, m)
  {
  }

  lemma WiredHistory(s: Server, e: Event)
    requires RpcPart(s) && SrtServer.Enabled(s, Rpc(e)) && Benign(s, Rpc(e))
    ensures var t := Wired(s, e);
            && t.rpc.delivered == s.rpc.delivered + (if e.Delivery? && !s.rpc.IsDisposed() then 1 else 0)
            && (Continues(s, e) <==> e.Delivery? && !s.rpc.IsDisposed())
            && (t.rpc.StartedToDispose() <==> s.rpc.StartedToDispose())
            && (s.rpc.IsDisposed() ==> t.rpc.IsDisposed())
  {
    StepHistory(s.rpc, e);
    hide Inv, Protocol.Step;
  }

  // ----- the turn of a delivery

  /** Counting the delivery at position d as handled. */
  lemma Advance(c: Config, s: Server, d: nat)
    requires Core(c, s, d) && d < s.rpc.delivered && d < |s.conts|
    requires !s.conts[d].ClosingSocket? && (s.conts[d].Adding? ==> s.conts[d].added in s.mapped)
    ensures Core(c, s, d + 1)
  {
    hide RpcPart, TableOk, QueriesOk;
  }

  lemma SocketCreated(c: Config, s: Server, d: nat, v: Value)
    requires Core(c, s, d) && d < s.rpc.delivered && d < |s.conts| && s.conts[d].Creating? && v.Num?
             && !s.rpc.IsDisposed()
    ensures Core(c, s.(socket := v), d + 1)
  {
    hide RpcPart;
    SameRpc(s, s.(socket := v));
    SameTable(c, s, s.(socket := v));
    hide TableOk;
  }

  lemma SocketClosed(c: Config, s: Server, d: nat)
    requires Core(c, s, d) && d < s.rpc.delivered && d < |s.conts| && s.conts[d].ClosingSocket?
    ensures Core(c, AfterCloseSocket(s), d + 1)
  {
    hide RpcPart, TableOk, QueriesOk;
    var t := AfterCloseSocket(s);
    CloseRpc(s);
    SameTable(c, s, t);
  }

  lemma CloseRpc(s: Server)
    requires RpcPart(s)
    ensures RpcPart(AfterCloseSocket(s))
  {
    StartDisposeInv(s.rpc, 0);
    hide Inv, OracleOk, ContsOk;
  }

  /** The continuation of a call outside the poll loop. */
  lemma OtherContinuation(c: Config, s: Server, t: Server, d: nat, v: Value)
    requires Core(c, t, d) && d < t.rpc.delivered && d < |t.conts| && !t.rpc.IsDisposed()
    requires OneToken(t, d) && !IsToken(t.conts[d])
    requires t.conts[d].Creating? || t.conts[d].Accepting? ==> v.Num?
    ensures var u := Continue(c, t, t.conts[d], v);
              Core(c, u, d + 1) && OneToken(u, d + 1) && u.rpc.delivered == t.rpc.delivered
  {
    hide Core, OneToken, AfterState, AfterAccept, AfterAdd, AfterCloseSocket;
    var u := Continue(c, t, t.conts[d], v);
    assert OneToken(t, d + 1) by { TokenLater(t, d); }
    match t.conts[d]
    case Creating => SocketCreated(c, t, d, v); SameToken(t, u, d + 1);
    case Querying(fd) =>
      QueryKnown(c, t, d);
      AfterStateCore(c, t, fd, v, d);
      AsideToken(t, u, d + 1);
      Advance(c, u, d);
    case Accepting =>
      AfterAcceptCore(c, t, v, d);
      AsideToken(t, u, d + 1);
      Advance(c, u, d);
    case Adding(fd) =>
      AddedPlain(c, t, d);
      AfterAddCore(c, t, fd, d);
      AsideToken(t, u, d + 1);
      Advance(c, u, d);
    case ClosingSocket(_) => SocketClosed(c, t, d); CloseFields(t); SameToken(t, u, d + 1);
    case _ => Advance(c, t, d);
  }

  lemma CloseFields(s: Server)
    ensures var t := AfterCloseSocket(s);
            t.conts == s.conts && t.timers == s.timers && t.pollTimer == s.pollTimer && t.openCalled == s.openCalled
            && t.rpc.delivered == s.rpc.delivered
  {
  }

  lemma SameToken(s: Server, t: Server, from: nat)
    requires OneToken(s, from) && t.conts == s.conts && t.timers == s.timers && t.pollTimer == s.pollTimer
    requires t.openCalled == s.openCalled
    ensures OneToken(t, from)
  {
  }

  lemma TokenLater(s: Server, d: nat)
    requires OneToken(s, d) && d < |s.conts|
    ensures OneToken(s, d + 1)
    ensures IsToken(s.conts[d]) ==> Idle(s, d + 1)
  {
  }

  lemma QueryKnown(c: Config, s: Server, d: nat)
    requires Core(c, s, d) && d < |s.conts| && s.conts[d].Querying? && !s.rpc.IsDisposed()
    ensures Num(s.conts[d].fd) == s.socket || Num(s.conts[d].fd) in s.mapped
  {
  }

  lemma AddedPlain(c: Config, s: Server, d: nat)
    requires Core(c, s, d) && d < |s.conts| && s.conts[d].Adding?
    ensures Plain(s.conts[d].added)
  {
    hide Inv;
    assert Fits(s.rpc.calls[d].post, s.conts[d]);
  }

  /** The continuation of a step of `open` or of a poll. */
  lemma TokenContinuation(c: Config, t: Server, d: nat, v: Value)
    requires Core(c, t, d) && d < t.rpc.delivered && d < |t.conts| && Idle(t, d + 1) && IsToken(t.conts[d])
    requires t.conts[d].EpollCreating? ==> v.Num?
    requires t.conts[d].Polling? && v.Events? ==> forall fd :: fd in v.sockets ==>
               Num(fd) == t.socket || Num(fd) in t.mapped
    ensures var u := Continue(c, t, t.conts[d], v);
              Core(c, u, d + 1) && OneToken(u, d + 1) && u.rpc.delivered == t.rpc.delivered
  {
    hide Core, OneToken, Idle, AfterBind, AfterListen, AfterEpollCreate, Poll, AfterPoll;
    Advance(c, t, d);
    match t.conts[d]
    case Binding => AfterBindGoes(c, t, v, d + 1, d + 1);
    case Listening => AfterListenGoes(c, t, v, d + 1, d + 1);
    case EpollCreating => AfterEpollCreateGoes(c, t, v, d + 1, d + 1);
    case Subscribing(_) => PollGoes(c, t, d + 1, d + 1);
    case Polling => AfterPollGoes(c, t, v, d + 1, d + 1);
  }

  lemma RpcStep(c: Config, s: Server, e: Event)
    requires ServerInv(c, s) && SrtServer.Enabled(s, Rpc(e)) && Benign(s, Rpc(e))
    ensures ServerInv(c, SrtServer.Step(c, s, Rpc(e)))
  {
    hide Core, OneToken, Idle, Benign, Protocol.Enabled, Protocol.Step, Wired, Continue, NativeOk;
    var d, t := s.rpc.delivered, Wired(s, e);
    WiredCore(c, s, e);
    PaddedToken(s, t, d);
    if Continues(s, e) {
      DeliverySettings(c, s, e);
      var v := s.rpc.outbox[0].result;
      assert t.conts[d] == s.conts[d];
      TokenLater(t, d);
      if IsToken(t.conts[d]) {
        TokenContinuation(c, t, d, v);
      } else {
        OtherContinuation(c, t, t, d, v);
      }
    }
  }

  /** What the continuations may rely on. */
  lemma DeliverySettings(c: Config, s: Server, e: Event)
    requires Core(c, s, s.rpc.delivered) && SrtServer.Enabled(s, Rpc(e)) && Benign(s, Rpc(e)) && Continues(s, e)
    ensures var d, v := s.rpc.delivered, s.rpc.outbox[0].result;
            && s.rpc.queue[0] == d < |s.conts| && !Wired(s, e).rpc.IsDisposed()
            && (s.conts[d].Creating? || s.conts[d].Accepting? || s.conts[d].EpollCreating? ==> v.Num?)
            && (s.conts[d].Polling? && v.Events? ==> forall fd :: fd in v.sockets ==>
                  Num(fd) == s.socket || Num(fd) in s.mapped)
  {
    hide Core, RpcPart, Protocol.Step;
    var d, v := s.rpc.delivered, s.rpc.outbox[0].result;
    RpcOfCore(c, s);
    NextReply(s, e);
    StaysUp(s, e);
    if s.conts[d].Creating? || s.conts[d].Accepting? || s.conts[d].EpollCreating? {
      NumberResult(s, e);
    } else if s.conts[d].Polling? && v.Events? {
      forall fd | fd in v.sockets ensures Num(fd) == s.socket || Num(fd) in s.mapped {
        PolledSocketsKnown(c, s, e, fd);
      }
    }
  }

  /** Replies come back in the order of the calls. */
  lemma NextReply(s: Server, e: Event)
    requires RpcPart(s) && Continues(s, e)
    ensures s.rpc.queue[0] == s.rpc.delivered < |s.conts|
  {
  }

  lemma RpcOfCore(c: Config, s: Server)
    requires Core(c, s, s.rpc.delivered)
    ensures RpcPart(s)
  {
  }

  /** A delivery on which only other users' callbacks act does not drop the worker: a callback that
      could dispose the handle is excluded, and the drain is finished by steps of its own. */
  lemma StaysUp(s: Server, e: Event)
    requires RpcPart(s) && SrtServer.Enabled(s, Rpc(e)) && Benign(s, Rpc(e)) && Continues(s, e)
    ensures !Wired(s, e).rpc.IsDisposed()
  {
    hide Inv;
    var r := s.rpc;
    StepHistory(r, e);
    if r.StartedToDispose() {
      DisposingScript(r, e);
    }
  }

  lemma DisposingScript(r: State, e: Event)
    requires Inv(r, 0) && Protocol.Enabled(r, e) && e.Delivery? && r.StartedToDispose() && !r.IsDisposed()
    ensures !Protocol.Step(r, e).IsDisposed()
  {
    StepHistory(r, e);
    ScriptOnlyAddsCalls(Answered(r), e.script);
    hide Inv;
  }

  lemma PaddedToken(s: Server, t: Server, d: nat)
    requires OneToken(s, d) && s.conts <= t.conts && (forall i :: |s.conts| <= i < |t.conts| ==> t.conts[i].Other?)
    requires t == s.(rpc := t.rpc, conts := t.conts)
    ensures OneToken(t, d)
  {
  }

  lemma TimerStep(c: Config, s: Server, id: nat)
    requires ServerInv(c, s) && id in s.timers
    ensures ServerInv(c, Poll(s.(timers := s.timers - {id})))
  {
    var s' := s.(timers := s.timers - {id});
    assert Idle(s', s.rpc.delivered);
    assert Core(c, s', s.rpc.delivered) by { TimersFree(c, s, s'); }
    hide Core, Poll, Idle;
    PollGoes(c, s', s.rpc.delivered, s.rpc.delivered);
  }

  lemma TimersFree(c: Config, s: Server, t: Server)
    requires Core(c, s, s.rpc.delivered) && t == s.(timers := t.timers)
    ensures Core(c, t, s.rpc.delivered)
  {
    hide TableOk, RpcPart;
    SameRpc(s, t);
    SameTable(c, s, t);
  }

  lemma TerminatedLife(s: Server, m: nat)
    requires CreateOk(s, m) && DisposeOk(s, m) && s.disposing && s.rpc.IsDisposed()
    ensures var t := s.(socket := Null, disposing := false, disposedEvents := s.disposedEvents + 1);
            CreateOk(t, m) && DisposeOk(t, m)
  {
  }

  lemma TerminatedStep(c: Config, s: Server, t: Server)
    requires ServerInv(c, s) && s.disposing && s.rpc.IsDisposed()
    requires t == s.(socket := Null, disposing := false, disposedEvents := s.disposedEvents + 1)
    ensures ServerInv(c, t)
  {
    hide TableOk, RpcPart, QueriesOk, CreateOk, DisposeOk, OneToken;
    SameRpc(s, t);
    SameTable(c, s, t);
    SameToken(s, t, s.rpc.delivered);
    TerminatedLife(s, s.rpc.delivered);
  }

  lemma UserClosesStep(c: Config, s: Server, fd: Value)
    requires ServerInv(c, s) && fd in s.connections
    ensures ServerInv(c, CloseConnection(s, fd))
  {
    hide Core, OneToken, CloseConnection;
    CloseConnectionCore(c, s, fd, s.rpc.delivered);
    AsideToken(s, CloseConnection(s, fd), s.rpc.delivered);
  }

  lemma OpenStep(c: Config, s: Server)
    requires ServerInv(c, s) && !s.openCalled
    ensures ServerInv(c, Open(c, s))
  {
    hide Core, OneToken, Open;
    OpenGoes(c, s, s.rpc.delivered, s.rpc.delivered);
  }

  /** Every step keeps the invariant. */
  lemma ServerStep(c: Config, s: Server, e: ServerEvent)
    requires ServerInv(c, s) && SrtServer.Enabled(s, e) && Benign(s, e)
    ensures ServerInv(c, SrtServer.Step(c, s, e))
  {
    hide ServerInv, Benign, CreateSocketCall, Open, DisposeServer, Poll, CloseConnection, NativeOk, Protocol.Enabled;
    match e
    case Rpc(pe) => RpcStep(c, s, pe);
    case CallCreate => CreateStep(c, s);
    case CallOpen => OpenStep(c, s);
    case CallDispose => DisposeStep(c, s);
    case TimerFires(id) => TimerStep(c, s, id);
    case Terminated => TerminatedStep(c, s, SrtServer.Step(c, s, e));
    case UserCloses(fd) => UserClosesStep(c, s, fd);
  }

  lemma InitialInv(c: Config)
    ensures ServerInv(c, INITIAL)
  {
    InitInv();
  }
}
