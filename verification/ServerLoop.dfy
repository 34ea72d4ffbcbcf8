/** When the poll loop of the server ends: the exact condition, step by step. */
module ServerLoop {
  import opened Wire
  import opened Worker
  import opened Protocol
  import opened Invariant
  import opened SrtServer
  import opened ServerInvariant
  import opened ServerSteps
  import opened ServerGuarantees

  /** No epollUWait can be posted. */
  predicate CannotPoll(s: Server) {
    s.epid == Num(0) || s.epid == Undefined || s.rpc.StartedToDispose()
  }

  /** The reply v to a step of `open` or to a poll ends the loop. */
  predicate EndsAt(s: Server, cont: Cont, v: Value) {
    match cont
    case Polling => !v.Events?
    case Subscribing(_) => CannotPoll(s)
    case _ => v == SRT_ERROR || s.rpc.StartedToDispose()
  }

  /** The step ends the loop: `dispose` clears its timer, or the timer fires when no poll can be
      posted, or the reply that the loop waits for does not let it go on. */
  predicate Ends(s: Server, e: ServerEvent) {
    match e
    case CallDispose => s.timers != {}
    case TimerFires(_) => CannotPoll(s)
    case Rpc(pe) =>
      && Continues(s, pe)
      && var cont := s.conts[s.rpc.queue[0]];
         IsToken(cont) && EndsAt(s, cont, s.rpc.outbox[0].result)
    case _ => false
  }

  lemma Quieter(s: Server, t: Server, from: nat)
    requires Quiet(s, t) && Idle(s, from)
    ensures !Alive(t, from)
  {
  }

  /** An accepted step of the loop keeps it alive. */
  lemma TokenPosted(s: Server, post: Post, cont: Cont, from: nat)
    requires IsToken(cont) && from <= |s.conts|
    ensures Alive(Await(s, post, cont), from)
  {
    hide Invoke;
    assert Await(s, post, cont).conts[|s.conts|] == cont;
  }

  lemma Accepted(rpc: State, post: Post)
    requires !rpc.StartedToDispose() && forall i :: 0 <= i < |post.args| ==> !post.args[i].Undefined?
    ensures CallOutcome(rpc, post) == Promised(|rpc.calls|)
  {
  }

  lemma PollAlive(s: Server, from: nat)
    requires Idle(s, from) && from <= |s.conts|
    ensures Alive(Poll(s), from) <==> !CannotPoll(s)
  {
    hide Await, CallOutcome;
    var post := Post(EpollUWait, [s.epid, Num(0)]);
    if !CannotPoll(s) {
      Accepted(s.rpc, post);
      TokenPosted(s, post, Polling, from);
    } else {
      PollRefused(s);
      Quieter(s, Poll(s), from);
    }
  }

  lemma PollRefused(s: Server)
    requires CannotPoll(s)
    ensures Quiet(s, Poll(s))
  {
    assert [s.epid, Num(0)][0] == s.epid;
    hide Await;
  }

  lemma AfterBindAlive(s: Server, v: Value, from: nat)
    requires Idle(s, from) && from <= |s.conts| && !s.socket.Undefined?
    ensures Alive(AfterBind(s, v), from) <==> !EndsAt(s, Binding, v)
  {
    hide Await, CallOutcome, AfterListen;
    var post := Post(Listen, [s.socket, BACKLOG]);
    if s.rpc.StartedToDispose() {
      BindSilent(s, v);
      Quieter(s, AfterBind(s, v), from);
    } else {
      Accepted(s.rpc, post);
      TokenPosted(s, post, Cont.Listening, from);
    }
  }

  lemma AfterListenAlive(s: Server, v: Value, from: nat)
    requires Idle(s, from) && from <= |s.conts|
    ensures Alive(AfterListen(s, v), from) <==> !EndsAt(s, Cont.Listening, v)
  {
    hide Await, CallOutcome, AfterEpollCreate;
    var post := Post(EpollCreate, []);
    if s.rpc.StartedToDispose() {
      ListenSilent(s, v);
      Quieter(s, AfterListen(s, v), from);
    } else {
      Accepted(s.rpc, post);
      TokenPosted(s, post, EpollCreating, from);
    }
  }

  lemma AfterEpollCreateAlive(s: Server, v: Value, from: nat)
    requires Idle(s, from) && from <= |s.conts| && !s.socket.Undefined? && v.Num?
    ensures Alive(AfterEpollCreate(s, v), from) <==> !EndsAt(s, EpollCreating, v)
  {
    hide Await, CallOutcome, Poll;
    var s', post := s.(epid := v), Post(EpollAddUsock, [v, s.socket, EPOLL_IN_ERR]);
    if s.rpc.StartedToDispose() {
      EpollSilent(s, v);
      Quieter(s, AfterEpollCreate(s, v), from);
    } else {
      Accepted(s.rpc, post);
      TokenPosted(s', post, Subscribing(s.socket), from);
    }
  }

  lemma AfterPollAlive(c: Config, s: Server, v: Value, from: nat)
    requires Idle(s, from)
    ensures Alive(AfterPoll(c, s, v), from) <==> !EndsAt(s, Polling, v)
  {
    hide HandleEvents;
    if v.Events? {
      TimerSet(HandleEvents(c, s, v.sockets));
    }
  }

  lemma TimerSet(s: Server)
    ensures SetTimer(s).timers != {}
  {
    assert s.nextTimer in SetTimer(s).timers;
  }

  lemma LoopContinuation(c: Config, t: Server, d: nat, v: Value)
    requires d < |t.conts| && Idle(t, d + 1) && IsToken(t.conts[d]) && !t.socket.Undefined?
    requires t.conts[d].EpollCreating? ==> v.Num?
    ensures Alive(Continue(c, t, t.conts[d], v), d + 1) <==> !EndsAt(t, t.conts[d], v)
  {
    hide Alive, AfterBind, AfterListen, AfterEpollCreate, Poll, AfterPoll, EndsAt, CannotPoll, Idle;
    match t.conts[d]
    case Binding => AfterBindAlive(t, v, d + 1);
    case Listening => AfterListenAlive(t, v, d + 1);
    case EpollCreating => AfterEpollCreateAlive(t, v, d + 1);
    case Subscribing(_) => PollAlive(t, d + 1); SubscribingEnd(t, t.conts[d], v);
    case Polling => AfterPollAlive(c, t, v, d + 1);
  }

  lemma SubscribingEnd(s: Server, cont: Cont, v: Value)
    requires cont.Subscribing?
    ensures EndsAt(s, cont, v) <==> CannotPoll(s)
  {
  }

  /** What follows any other reply leaves the loop as it is. */
  lemma OtherLoop(c: Config, t: Server, d: nat, v: Value)
    requires Core(c, t, d) && d < t.rpc.delivered && d < |t.conts| && !t.rpc.IsDisposed() && !IsToken(t.conts[d])
    requires t.conts[d].Accepting? ==> v.Num?
    ensures Alive(Continue(c, t, t.conts[d], v), d + 1) <==> Alive(t, d + 1)
  {
    hide Core, AfterState, AfterAccept, AfterAdd, AfterCloseSocket, Alive, Aside;
    var u := Continue(c, t, t.conts[d], v);
    match t.conts[d]
    case Querying(fd) => QueryKnown(c, t, d); AfterStateCore(c, t, fd, v, d); AsideLoop(t, u, d + 1);
    case Accepting => AfterAcceptCore(c, t, v, d); AsideLoop(t, u, d + 1);
    case Adding(fd) => AddedPlain(c, t, d); AfterAddCore(c, t, fd, d); AsideLoop(t, u, d + 1);
    case ClosingSocket(_) => CloseFields(t); SameLoop(t, u, d + 1);
    case Creating => SameLoop(t, u, d + 1);
    case _ =>
  }

  lemma AsideLoop(s: Server, t: Server, from: nat)
    requires Aside(s, t)
    ensures Alive(t, from) <==> Alive(s, from)
  {
    assert forall i :: 0 <= i < |s.conts| ==> t.conts[i] == s.conts[i];
  }

  lemma SameLoop(s: Server, t: Server, from: nat)
    requires t.conts == s.conts && t.timers == s.timers
    ensures Alive(t, from) <==> Alive(s, from)
  {
  }

  /** A reply that no step of the loop awaits moves the loop past its position. */
  lemma PassedBy(t: Server, d: nat)
    requires d < |t.conts| && !IsToken(t.conts[d])
    ensures Alive(t, d + 1) <==> Alive(t, d)
  {
  }

  lemma PaddedLoop(s: Server, t: Server, from: nat)
    requires s.conts <= t.conts && (forall i :: |s.conts| <= i < |t.conts| ==> t.conts[i].Other?)
             && t.timers == s.timers
    ensures Alive(t, from) <==> Alive(s, from)
  {
    assert forall i :: 0 <= i < |s.conts| ==> t.conts[i] == s.conts[i];
  }

  lemma RpcLoop(c: Config, s: Server, e: Event)
    requires ServerInv(c, s) && SrtServer.Enabled(s, Rpc(e)) && Benign(s, Rpc(e))
    ensures LoopAlive(SrtServer.Step(c, s, Rpc(e))) <==> LoopAlive(s) && !Ends(s, Rpc(e))
  {
    hide Core, OneToken, Idle, Benign, Protocol.Enabled, Protocol.Step, Wired, Continue, NativeOk, Alive, EndsAt;
    var d, t := s.rpc.delivered, Wired(s, e);
    WiredCore(c, s, e);
    PaddedToken(s, t, d);
    PaddedLoop(s, t, d);
    if Continues(s, e) {
      DeliverySettings(c, s, e);
      var v := s.rpc.outbox[0].result;
      assert t.conts[d] == s.conts[d];
      if IsToken(t.conts[d]) {
        TokenLater(t, d);
        PlainFields(c, t, d);
        TokenContinuation(c, t, d, v);
        LoopContinuation(c, t, d, v);
        SameEnd(c, s, e, v);
        TokenIsAlive(t, d);
      } else {
        OtherContinuation(c, t, t, d, v);
        OtherLoop(c, t, d, v);
        PassedBy(t, d);
      }
    }
  }

  lemma SameEnd(c: Config, s: Server, e: Event, v: Value)
    requires Core(c, s, s.rpc.delivered) && SrtServer.Enabled(s, Rpc(e)) && Benign(s, Rpc(e)) && Continues(s, e)
    ensures var cont := s.conts[s.rpc.queue[0]]; EndsAt(Wired(s, e), cont, v) <==> EndsAt(s, cont, v)
  {
    RpcOfCore(c, s);
    WiredHistory(s, e);
    hide Core, RpcPart, Benign, Protocol.Step, SrtServer.Enabled;
  }

  lemma TokenIsAlive(s: Server, d: nat)
    requires d < |s.conts| && IsToken(s.conts[d])
    ensures Alive(s, d)
  {
  }

  lemma OpenedStep(c: Config, s: Server, e: ServerEvent)
    requires ServerInv(c, s) && SrtServer.Enabled(s, e) && Benign(s, e) && s.openCalled
    ensures LoopAlive(SrtServer.Step(c, s, e)) <==> LoopAlive(s) && !Ends(s, e)
  {
    hide Core, Benign, Protocol.Enabled;
    match e
    case Rpc(pe) => RpcLoop(c, s, pe);
    case CallCreate => CreateLoop(c, s);
    case CallDispose => DisposeLoop(c, s);
    case TimerFires(id) => TimerLoop(c, s, id);
    case UserCloses(fd) => UserClosesLoop(c, s, fd);
    case _ =>
  }

  /** Once `open` has been called, a step leaves the loop with a step of `open`, a poll or a poll timer
      outstanding exactly when it had one and is not one of the steps that `Ends` describes. */
  lemma LoopEndsExactly(c: Config, s: Server, e: ServerEvent)
    requires ServerReachable(c, s) && SrtServer.Enabled(s, e) && Benign(s, e) && s.openCalled
    ensures LoopAlive(SrtServer.Step(c, s, e)) <==> LoopAlive(s) && !Ends(s, e)
  {
    ServerReachableInv(c, s);
    hide ServerReachable, ServerInv, LoopAlive, Ends, SrtServer.Step, SrtServer.Enabled, Benign;
    OpenedStep(c, s, e);
  }

  /** Before `open` there is no loop. */
  lemma NoLoopBeforeOpen(c: Config, s: Server)
    requires ServerReachable(c, s) && !s.openCalled
    ensures !LoopAlive(s)
  {
    ServerReachableInv(c, s);
    hide Core, ServerReachable;
  }

  lemma StateKeepsOpen(c: Config, s: Server, fd: int, status: Value)
    ensures AfterState(c, s, fd, status).openCalled == s.openCalled
  {
    AcceptKeepsOpen(c, s, Undefined);
    hide Invoke, CallOutcome, AfterAccept, IsBroken;
  }

  lemma AcceptKeepsOpen(c: Config, s: Server, fd: Value)
    ensures AfterAccept(c, s, fd).openCalled == s.openCalled
  {
    hide Invoke, CallOutcome;
  }

  lemma {:induction false} EventsKeepOpen(c: Config, s: Server, fds: seq<int>)
    ensures HandleEvents(c, s, fds).openCalled == s.openCalled
  {
    hide Invoke, CallOutcome, AfterState;
    if fds != [] {
      EventsKeepOpen(c, s, fds[..|fds| - 1]);
      StateKeepsOpen(c, HandleEvents(c, s, fds[..|fds| - 1]), fds[|fds| - 1], Undefined);
    }
  }

  lemma PollKeepsOpen(s: Server)
    ensures Poll(s).openCalled == s.openCalled
  {
    hide Invoke, CallOutcome;
  }

  lemma EpollKeepsOpen(s: Server, v: Value)
    ensures AfterEpollCreate(s, v).openCalled == s.openCalled
  {
    hide Invoke, CallOutcome, Poll;
    PollKeepsOpen(s.(epid := v));
  }

  lemma BindKeepsOpen(s: Server, v: Value)
    ensures AfterBind(s, v).openCalled == AfterListen(s, v).openCalled == s.openCalled
  {
    hide Invoke, CallOutcome, AfterEpollCreate;
    EpollKeepsOpen(s, v);
    EpollKeepsOpen(s, Undefined);
  }

  lemma ContinueKeepsOpen(c: Config, s: Server, cont: Cont, v: Value)
    ensures Continue(c, s, cont, v).openCalled == s.openCalled
  {
    hide Invoke, CallOutcome, HandleEvents, AfterBind, AfterListen, AfterEpollCreate, Poll, AfterState, AfterAccept;
    PollKeepsOpen(s);
    EpollKeepsOpen(s, v);
    BindKeepsOpen(s, v);
    AcceptKeepsOpen(c, s, v);
    if cont.Querying? {
      StateKeepsOpen(c, s, cont.fd, v);
    }
    if cont.Polling? && v.Events? {
      EventsKeepOpen(c, s, v.sockets);
    }
  }

  lemma OpenStays(c: Config, s: Server, e: ServerEvent)
    requires SrtServer.Enabled(s, e) && s.openCalled
    ensures SrtServer.Step(c, s, e).openCalled
  {
    hide Invoke, CallOutcome, Protocol.Step, Continue;
    if e.Rpc? && Continues(s, e.e) {
      ContinueKeepsOpen(c, Wired(s, e.e), s.conts[s.rpc.queue[0]], s.rpc.outbox[0].result);
    }
  }

  lemma {:induction false} EndedRun(c: Config, s: Server, es: seq<ServerEvent>)
    requires ServerInv(c, s) && SrtServer.ValidRun(c, s, es) && s.openCalled && !LoopAlive(s)
    ensures !LoopAlive(SrtServer.Run(c, s, es))
    decreases es
  {
    hide ServerInv, SrtServer.Step, Benign, LoopAlive, SrtServer.Enabled;
    if es != [] {
      ServerStep(c, s, es[0]);
      OpenedStep(c, s, es[0]);
      OpenStays(c, s, es[0]);
      EndedRun(c, SrtServer.Step(c, s, es[0]), es[1..]);
    }
  }

  /** A loop that has ended after `open` is not revived by any run. */
  lemma LoopStaysEnded(c: Config, s: Server, es: seq<ServerEvent>)
    requires ServerReachable(c, s) && SrtServer.ValidRun(c, s, es) && s.openCalled && !LoopAlive(s)
    ensures !LoopAlive(SrtServer.Run(c, s, es))
  {
    ServerReachableInv(c, s);
    hide ServerReachable, ServerInv, LoopAlive, SrtServer.Run, SrtServer.ValidRun;
    EndedRun(c, s, es);
  }

  lemma AliveKept(s: Server, t: Server)
    requires s.conts <= t.conts && (forall i :: |s.conts| <= i < |t.conts| ==> !IsToken(t.conts[i]))
    requires t.timers == s.timers && t.rpc.delivered == s.rpc.delivered
    ensures LoopAlive(t) <==> LoopAlive(s)
  {
    assert forall i :: 0 <= i < |s.conts| ==> t.conts[i] == s.conts[i];
  }

  lemma CreateLoop(c: Config, s: Server)
    requires ServerInv(c, s)
    ensures LoopAlive(CreateSocketCall(s.(createCalled := true))) <==> LoopAlive(s)
  {
    hide Await, Alive;
    var s', post := s.(createCalled := true), Post(CreateSocket, [Flag(false)]);
    AwaitFields(s', post, Creating);
    AliveKept(s, CreateSocketCall(s'));
  }

  lemma UserClosesLoop(c: Config, s: Server, fd: Value)
    requires ServerInv(c, s) && fd in s.connections
    ensures LoopAlive(CloseConnection(s, fd)) <==> LoopAlive(s)
  {
    hide Core, OneToken, CloseConnection, Alive;
    CloseConnectionCore(c, s, fd, s.rpc.delivered);
    AliveKept(s, CloseConnection(s, fd));
  }

  lemma TimerLoop(c: Config, s: Server, id: nat)
    requires ServerInv(c, s) && id in s.timers
    ensures LoopAlive(Poll(s.(timers := s.timers - {id}))) <==> !CannotPoll(s)
  {
    var s' := s.(timers := s.timers - {id});
    assert Idle(s', s.rpc.delivered);
    assert s.rpc.delivered <= |s.conts| by { hide Inv; }
    hide Core, Poll, Idle;
    PollAlive(s', s.rpc.delivered);
    PollKeeps(s');
  }

  lemma PollKeeps(s: Server)
    ensures Poll(s).rpc.delivered == s.rpc.delivered
  {
  }

  lemma DisposeLoop(c: Config, s: Server)
    requires ServerInv(c, s)
    ensures LoopAlive(DisposeServer(s)) <==> LoopAlive(s) && s.timers == {}
  {
    hide Core, Await, AfterCloseSocket, Alive;
    ClearedLoop(s);
    var s' := ClearTimers(s);
    AwaitFields(s'.(startedToDispose := true), Post(Close, [s'.socket]), ClosingSocket(s'.socket));
    CloseFields(s'.(startedToDispose := true));
    AliveKept(s', DisposeServer(s));
  }

  lemma ClearedLoop(s: Server)
    requires OneToken(s, s.rpc.delivered)
    ensures LoopAlive(ClearTimers(s)) <==> LoopAlive(s) && s.timers == {}
  {
  }
}
