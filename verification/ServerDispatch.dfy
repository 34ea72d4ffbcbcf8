/** What the server does in each turn: which call it posts, with which arguments, and what it changes
    (src/srt-server.ts:189-318, src/srt-socket-async.ts:38-132). The numbers of the native API are
    written out: 1 + 8 is the event mask, 3 the listening status, 6, 8 and 9 the broken ones. */
module ServerDispatch {
  import opened Wire
  import opened Worker
  import opened Counting
  import opened Protocol
  import opened Invariant
  import opened Guarantees
  import opened SrtServer
  import opened ServerInvariant
  import opened ServerSteps
  import opened ServerGuarantees

  /** From s to t exactly one call is posted, with this message, and `cont` awaits it. */
  ghost predicate Posts(s: Server, t: Server, post: Post, cont: Cont) {
    && |t.rpc.calls| == |s.rpc.calls| + 1 && t.rpc.calls[|s.rpc.calls|].post == post
    && t.rpc.inbox == s.rpc.inbox + [post] && t.conts == s.conts + [cont] && t.rpc.phase == s.rpc.phase
  }

  ghost predicate PostsNothing(s: Server, t: Server) {
    |t.rpc.calls| == |s.rpc.calls| && t.rpc.inbox == s.rpc.inbox && t.conts == s.conts && t.rpc.phase == s.rpc.phase
  }

  /** The reply to the call that `cont` awaits is delivered, with result v. */
  ghost predicate Replies(c: Config, s: Server, e: Event, cont: Cont, v: Value) {
    && ServerReachable(c, s) && SrtServer.Enabled(s, Rpc(e)) && Benign(s, Rpc(e)) && Continues(s, e)
    && s.conts[s.rpc.queue[0]] == cont && s.rpc.outbox[0].result == v && !cont.Other?
  }

  // ----- the delivery itself

  /** The delivery of a reply to a call of the server settles that call and nothing else. */
  lemma OwnReply(c: Config, s: Server, e: Event, cont: Cont, v: Value) returns (u: Server)
    requires Replies(c, s, e, cont, v)
    ensures u == s.(rpc := u.rpc) && PostsNothing(s, u) && SrtServer.Enabled(s, Rpc(e))
    ensures u.rpc.lock == s.rpc.lock - (if Rejected(s) then 0 else 1)
    ensures SrtServer.Step(c, s, Rpc(e)) == Continue(c, u, cont, v)
    ensures ServerInv(c, s)
  {
    u := Wired(s, e);
    hide ServerReachable, ServerInv, Inv, Benign, NativeOk, Continue;
    ServerReachableInv(c, s);
    RpcOfInv(c, s);
    NextReply(s, e);
    NoCallback(s, s.rpc.delivered);
    hide RpcPart;
  }

  predicate Rejected(s: Server) {
    s.rpc.queue != [] && s.rpc.queue[0] < |s.rpc.calls| && s.rpc.calls[s.rpc.queue[0]].rejected
  }

  lemma RpcOfInv(c: Config, s: Server)
    requires ServerInv(c, s)
    ensures RpcPart(s) && |s.conts| == |s.rpc.calls|
  {
  }

  lemma NoCallback(s: Server, i: nat)
    requires RpcPart(s) && i < |s.conts| && !s.conts[i].Other?
    ensures i < |s.rpc.calls| && !s.rpc.calls[i].hasCallback
  {
  }

  lemma LivePost(s: Server, post: Post, cont: Cont)
    requires s.rpc.phase.Live? && AllPlain(post.args) && Undefined !in post.args
    ensures CallOutcome(s.rpc, post).Promised?
    ensures var t := Await(s, post, cont);
            Posts(s, t, post, cont) && t == s.(rpc := t.rpc, conts := t.conts) && s.rpc.calls <= t.rpc.calls
  {
    PlainNotTransferred(post.args);
    hide PostThrows, TransferList;
  }

  lemma PostsAfter(s: Server, t: Server, u: Server, post: Post, cont: Cont)
    requires PostsNothing(s, t) && Posts(t, u, post, cont)
    ensures Posts(s, u, post, cont)
  {
  }

  lemma Fields(c: Config, s: Server)
    requires ServerInv(c, s)
    ensures Plain(s.epid) && (s.socket.Null? || s.socket.Num?) && (s.epid.Undefined? ==> s.rpc.StartedToDispose())
  {
    hide RpcPart, MapPart, DisposeOk, OneToken;
  }

  // ----- a socket's state

  /** Data: exactly the entry of that socket is marked, and nothing is posted; without an entry the handler
      throws. */
  lemma DataReply(c: Config, s: Server, e: Event, fd: int, v: Value)
    requires Replies(c, s, e, Querying(fd), v) && Num(fd) != s.socket
    requires v != Num(6) && v != Num(8) && v != Num(9)
    ensures var t := SrtServer.Step(c, s, Rpc(e));
            && PostsNothing(s, t) && t == s.(rpc := t.rpc, connections := t.connections, faults := t.faults)
            && if Num(fd) in s.connections
               then t.connections == s.connections[Num(fd) := Connection(s.connections[Num(fd)].hasHandle, true)]
                    && t.faults == s.faults
               else t.connections == s.connections && t.faults == s.faults + [fd]
  {
    hide Replies, ServerInv, SrtServer.Step, SrtServer.Enabled;
    var u := OwnReply(c, s, e, Querying(fd), v);
  }

  /** A broken socket: no data is reported. A connection that keeps its handle loses its entry, and on a
      live handle its socket is closed; otherwise nothing happens. */
  lemma BrokenReply(c: Config, s: Server, e: Event, fd: int, v: Value)
    requires Replies(c, s, e, Querying(fd), v) && Num(fd) != s.socket
    requires v == Num(6) || v == Num(8) || v == Num(9)
    ensures var t := SrtServer.Step(c, s, Rpc(e));
            && t == s.(rpc := t.rpc, conts := t.conts, connections := t.connections)
            && if Num(fd) in s.connections && s.connections[Num(fd)].hasHandle
               then t.connections == s.connections - {Num(fd)}
                    && (s.rpc.phase.Live? ==> Posts(s, t, Post(Close, [Num(fd)]), ClosingConnection))
               else t.connections == s.connections && PostsNothing(s, t)
  {
    hide Replies, ServerInv, SrtServer.Step, SrtServer.Enabled, Await;
    var u := OwnReply(c, s, e, Querying(fd), v);
    if Num(fd) in s.connections {
      CloseTurn(u, Num(fd));
      if s.connections[Num(fd)].hasHandle && s.rpc.phase.Live? {
        PostsAfter(s, u, CloseConnection(u, Num(fd)), Post(Close, [Num(fd)]), ClosingConnection);
      }
    }
    hide Posts, PostsNothing, CloseConnection;
  }

  /** Closing a connection, for its user or for the handler. */
  lemma CloseTurn(s: Server, fd: Value)
    requires fd in s.connections && Plain(fd)
    ensures var t := CloseConnection(s, fd);
            && t == s.(rpc := t.rpc, conts := t.conts, connections := t.connections)
            && if s.connections[fd].hasHandle
               then t.connections == s.connections - {fd}
                    && (s.rpc.phase.Live? && !fd.Undefined? ==> Posts(s, t, Post(Close, [fd]), ClosingConnection))
               else t == s
  {
    hide Await;
    var s', post := s.(connections := s.connections - {fd}), Post(Close, [fd]);
    AwaitKeeps(s', post, ClosingConnection);
    if s.rpc.phase.Live? && !fd.Undefined? {
      LivePost(s', post, ClosingConnection);
      SameBefore(s, s', Await(s', post, ClosingConnection), post, ClosingConnection);
    }
    hide Posts;
  }

  lemma AwaitKeeps(s: Server, post: Post, cont: Cont)
    ensures var t := Await(s, post, cont); t == s.(rpc := t.rpc, conts := t.conts)
  {
  }

  /** The listener: it accepts exactly in the listening state. */
  lemma ListenerReply(c: Config, s: Server, e: Event, fd: int, v: Value)
    requires Replies(c, s, e, Querying(fd), v) && Num(fd) == s.socket
    ensures var t := SrtServer.Step(c, s, Rpc(e));
            && (v != Num(3) ==> PostsNothing(s, t) && t == s.(rpc := t.rpc))
            && (v == Num(3) && s.rpc.phase.Live? ==>
                  Posts(s, t, Post(Accept, [s.socket]), Accepting) && t == s.(rpc := t.rpc, conts := t.conts))
  {
    hide Replies, ServerInv, SrtServer.Step, SrtServer.Enabled, Await;
    var u := OwnReply(c, s, e, Querying(fd), v);
    var post := Post(Accept, [s.socket]);
    if v == Num(3) && s.rpc.phase.Live? {
      LivePost(u, post, Accepting);
      PostsAfter(s, u, Await(u, post, Accepting), post, Accepting);
    }
  }

  /** The accepted socket is subscribed, with its own number, for input and errors. */
  lemma AcceptReply(c: Config, s: Server, e: Event, v: Value)
    requires Replies(c, s, e, Accepting, v) && s.rpc.phase.Live?
    ensures var t := SrtServer.Step(c, s, Rpc(e));
            && Posts(s, t, Post(EpollAddUsock, [s.epid, v, Num(9)]), Adding(v))
            && t == s.(rpc := t.rpc, conts := t.conts)
  {
    hide Replies, ServerInv, SrtServer.Step, SrtServer.Enabled, Await;
    var u := OwnReply(c, s, e, Accepting, v);
    NumberReply(c, s, e, Accepting, v);
    Fields(c, s);
    var post := Post(EpollAddUsock, [s.epid, v, Num(9)]);
    LivePost(u, post, Adding(v));
    PostsAfter(s, u, Await(u, post, Adding(v)), post, Adding(v));
  }

  lemma NumberReply(c: Config, s: Server, e: Event, cont: Cont, v: Value)
    requires Replies(c, s, e, cont, v) && (cont.Accepting? || cont.Creating? || cont.EpollCreating?)
    ensures v.Num?
  {
    ServerReachableInv(c, s);
    RpcOfInv(c, s);
    NextReply(s, e);
    hide ServerReachable, ServerInv, RpcPart, Benign;
    NumberResult(s, e);
  }

  /** Then it has its entry, without data so far. */
  lemma AddReply(c: Config, s: Server, e: Event, fd: Value, v: Value)
    requires Replies(c, s, e, Adding(fd), v)
    ensures var t := SrtServer.Step(c, s, Rpc(e));
            && PostsNothing(s, t) && t.connections == s.connections[fd := Connection(c.storesHandle, false)]
            && t == s.(rpc := t.rpc, connections := t.connections, mapped := s.mapped + {fd})
  {
    hide Replies, ServerInv, SrtServer.Step, SrtServer.Enabled;
    var u := OwnReply(c, s, e, Adding(fd), v);
  }

  /** A user closes a connection. */
  lemma UserCloseStep(c: Config, s: Server, fd: Value)
    requires ServerReachable(c, s) && fd in s.connections
    ensures var t := SrtServer.Step(c, s, UserCloses(fd));
            && t == s.(rpc := t.rpc, conts := t.conts, connections := t.connections)
            && if s.connections[fd].hasHandle
               then t.connections == s.connections - {fd}
                    && (s.rpc.phase.Live? && !fd.Undefined? ==> Posts(s, t, Post(Close, [fd]), ClosingConnection))
               else t == s
  {
    ServerReachableInv(c, s);
    MappedPlain(c, s, fd);
    UserClosesIs(c, s, fd);
    hide ServerReachable, ServerInv, Posts, CloseConnection, SrtServer.Step, SrtServer.Enabled;
    CloseTurn(s, fd);
  }

  lemma UserClosesIs(c: Config, s: Server, fd: Value)
    requires fd in s.connections
    ensures SrtServer.Step(c, s, UserCloses(fd)) == CloseConnection(s, fd)
  {
    hide CloseConnection;
  }

  lemma SameBefore(s: Server, s': Server, t: Server, post: Post, cont: Cont)
    requires s'.rpc == s.rpc && s'.conts == s.conts && Posts(s', t, post, cont)
    ensures Posts(s, t, post, cont)
  {
  }

  lemma MappedPlain(c: Config, s: Server, fd: Value)
    requires ServerInv(c, s) && fd in s.connections
    ensures Plain(fd)
  {
    hide RpcPart, CreateOk, DisposeOk, OneToken;
  }

  lemma ReplyPosts(s: Server, u: Server, post: Post, cont: Cont)
    requires PostsNothing(s, u) && u.rpc.phase.Live? && AllPlain(post.args) && Undefined !in post.args
    ensures CallOutcome(u.rpc, post).Promised?
    ensures var t := Await(u, post, cont); Posts(s, t, post, cont) && t == u.(rpc := t.rpc, conts := t.conts)
  {
    hide Await;
    LivePost(u, post, cont);
    PostsAfter(s, u, Await(u, post, cont), post, cont);
  }

  // ----- create and open

  /** On a live handle `create` asks for a receiver socket, once, and `dispose` forbids it. */
  lemma CreateCall(c: Config, s: Server)
    requires ServerReachable(c, s) && SrtServer.Enabled(s, CallCreate) && s.rpc.phase.Live?
    ensures var t := SrtServer.Step(c, s, CallCreate);
            && t == s.(rpc := t.rpc, conts := t.conts, createCalled := true)
            && if s.startedToDispose then PostsNothing(s, t)
               else Posts(s, t, Post(CreateSocket, [Flag(false)]), Creating)
  {
    ServerReachableInv(c, s);
    NoSocketYet(c, s);
    hide ServerReachable, ServerInv, Await;
    var s', post := s.(createCalled := true), Post(CreateSocket, [Flag(false)]);
    assert PostsNothing(s, s');
    ReplyPosts(s, s', post, Creating);
    hide Posts, PostsNothing;
    AwaitKeeps(s', post, Creating);
  }

  lemma NoSocketYet(c: Config, s: Server)
    requires ServerInv(c, s) && !s.createCalled
    ensures s.socket == Null
  {
    hide RpcPart, MapPart, DisposeOk, OneToken;
  }

  /** The socket is the number that the reply carries. */
  lemma CreateReply(c: Config, s: Server, e: Event, v: Value)
    requires Replies(c, s, e, Creating, v)
    ensures var t := SrtServer.Step(c, s, Rpc(e));
            PostsNothing(s, t) && t == s.(rpc := t.rpc, socket := v)
  {
    hide Replies, ServerInv, SrtServer.Step, SrtServer.Enabled, Await;
    var u := OwnReply(c, s, e, Creating, v);
  }

  /** `open` binds the socket to the configured address and port. */
  lemma OpenCall(c: Config, s: Server)
    requires ServerReachable(c, s) && SrtServer.Enabled(s, CallOpen) && s.rpc.phase.Live?
    ensures var t := SrtServer.Step(c, s, CallOpen);
            && t == s.(rpc := t.rpc, conts := t.conts, openCalled := t.openCalled)
            && if s.startedToDispose || s.socket == Null then t == s
               else t.openCalled && Posts(s, t, Post(Bind, [s.socket, Text(c.address), Num(c.port)]), Binding)
  {
    ServerReachableInv(c, s);
    Fields(c, s);
    OpenIs(c, s);
    hide ServerReachable, ServerInv, Open, Posts, SrtServer.Step, SrtServer.Enabled;
    if !s.startedToDispose && s.socket != Null {
      OpenTurn(c, s);
    } else {
      OpenRefused(c, s);
    }
  }

  lemma OpenTurn(c: Config, s: Server)
    requires s.rpc.phase.Live? && s.socket.Num? && !s.startedToDispose
    ensures var t := Open(c, s);
            && t == s.(rpc := t.rpc, conts := t.conts, openCalled := true)
            && Posts(s, t, Post(Bind, [s.socket, Text(c.address), Num(c.port)]), Binding)
  {
    hide Await, AfterBind, CallOutcome;
    var s', post := s.(openCalled := true), Post(Bind, [s.socket, Text(c.address), Num(c.port)]);
    assert PostsNothing(s, s');
    hide Posts, PostsNothing;
    ReplyPosts(s, s', post, Binding);
  }

  lemma OpenRefused(c: Config, s: Server)
    requires s.startedToDispose || s.socket == Null
    ensures Open(c, s) == s
  {
  }

  /** A failed bind, that is -1, ends the opening; after any other the socket listens, with a backlog of 0xFFFF. */
  lemma BindReply(c: Config, s: Server, e: Event, v: Value)
    requires Replies(c, s, e, Binding, v) && s.rpc.phase.Live?
    ensures var t := SrtServer.Step(c, s, Rpc(e));
            && t == s.(rpc := t.rpc, conts := t.conts)
            && if v == Num(-1) then PostsNothing(s, t)
               else Posts(s, t, Post(Listen, [s.socket, Num(65535)]), Cont.Listening)
  {
    hide Replies, ServerInv, SrtServer.Step, SrtServer.Enabled, Await;
    var u := OwnReply(c, s, e, Binding, v);
    Fields(c, s);
    hide AfterListen;
    ReplyPosts(s, u, Post(Listen, [s.socket, Num(65535)]), Cont.Listening);
  }

  /** A failed listen ends the opening; after any other an epoll container is created. */
  lemma ListenReply(c: Config, s: Server, e: Event, v: Value)
    requires Replies(c, s, e, Cont.Listening, v) && s.rpc.phase.Live?
    ensures var t := SrtServer.Step(c, s, Rpc(e));
            && t == s.(rpc := t.rpc, conts := t.conts)
            && if v == Num(-1) then PostsNothing(s, t) else Posts(s, t, Post(EpollCreate, []), EpollCreating)
  {
    hide Replies, ServerInv, SrtServer.Step, SrtServer.Enabled, Await;
    var u := OwnReply(c, s, e, Cont.Listening, v);
    hide AfterEpollCreate;
    ReplyPosts(s, u, Post(EpollCreate, []), EpollCreating);
  }

  /** The container's id is kept, and the listener subscribed to it for input and errors. */
  lemma EpollReply(c: Config, s: Server, e: Event, v: Value)
    requires Replies(c, s, e, EpollCreating, v) && s.rpc.phase.Live?
    ensures var t := SrtServer.Step(c, s, Rpc(e));
            && t == s.(rpc := t.rpc, conts := t.conts, epid := if v == Num(-1) then s.epid else v)
            && if v == Num(-1) then PostsNothing(s, t)
               else Posts(s, t, Post(EpollAddUsock, [v, s.socket, Num(9)]), Subscribing(s.socket))
  {
    hide Replies, ServerInv, SrtServer.Step, SrtServer.Enabled, Await;
    var u := OwnReply(c, s, e, EpollCreating, v);
    Fields(c, s);
    NumberReply(c, s, e, EpollCreating, v);
    hide Poll;
    var u' := u.(epid := v);
    assert PostsNothing(s, u');
    ReplyPosts(s, u', Post(EpollAddUsock, [v, s.socket, Num(9)]), Subscribing(s.socket));
  }

  // ----- the poll loop

  /** A poll of the container with timeout 0, unless its id is 0. */
  lemma PollTurn(s: Server, u: Server)
    requires PostsNothing(s, u) && s.rpc.phase.Live? && Plain(u.epid) && !u.epid.Undefined?
    ensures var t := Poll(u);
            if u.epid == Num(0) then t == u.(timers := t.timers, pollTimer := None)
            else Posts(s, t, Post(EpollUWait, [u.epid, Num(0)]), Polling) && t == u.(rpc := t.rpc, conts := t.conts)
  {
    hide Await;
    ReplyPosts(s, u, Post(EpollUWait, [u.epid, Num(0)]), Polling);
  }

  /** Once the listener is subscribed the first poll is posted. */
  lemma SubscribeReply(c: Config, s: Server, e: Event, listener: Value, v: Value)
    requires Replies(c, s, e, Subscribing(listener), v) && s.rpc.phase.Live? && s.epid != Num(0)
    ensures var t := SrtServer.Step(c, s, Rpc(e));
            && t == s.(rpc := t.rpc, conts := t.conts)
            && Posts(s, t, Post(EpollUWait, [s.epid, Num(0)]), Polling)
  {
    hide Replies, ServerInv, SrtServer.Step, SrtServer.Enabled, Await;
    var u := OwnReply(c, s, e, Subscribing(listener), v);
    Fields(c, s);
    hide Poll;
    PollTurn(s, u);
  }

  /** A firing poll timer polls again. */
  lemma TimerTurn(c: Config, s: Server, id: nat)
    requires ServerReachable(c, s) && SrtServer.Enabled(s, TimerFires(id)) && s.rpc.phase.Live? && s.epid != Num(0)
    ensures var t := SrtServer.Step(c, s, TimerFires(id));
            && t == s.(rpc := t.rpc, conts := t.conts, timers := s.timers - {id})
            && Posts(s, t, Post(EpollUWait, [s.epid, Num(0)]), Polling)
  {
    ServerReachableInv(c, s);
    Fields(c, s);
    TimerIs(c, s, id);
    hide ServerReachable, ServerInv, Poll, SrtServer.Step, SrtServer.Enabled;
    var s' := s.(timers := s.timers - {id});
    assert PostsNothing(s, s');
    hide Posts, PostsNothing;
    PollTurn(s, s');
  }

  lemma TimerIs(c: Config, s: Server, id: nat)
    requires SrtServer.Enabled(s, TimerFires(id))
    ensures SrtServer.Step(c, s, TimerFires(id)) == Poll(s.(timers := s.timers - {id}))
  {
    hide Poll;
  }

  /** Each event of a poll has its handler, which asks for the state of its own socket, in order. */
  ghost predicate AsksFor(s: Server, t: Server, fds: seq<int>) {
    && |t.rpc.calls| == |s.rpc.calls| + |fds| && |t.rpc.inbox| == |s.rpc.inbox| + |fds|
    && |t.conts| == |s.conts| + |fds| && t.rpc.inbox[..|s.rpc.inbox|] == s.rpc.inbox
    && t.conts[..|s.conts|] == s.conts && t.rpc.phase == s.rpc.phase
    && forall k :: 0 <= k < |fds| ==>
         && t.rpc.calls[|s.rpc.calls| + k].post == Post(GetSockState, [Num(fds[k])])
         && t.rpc.inbox[|s.rpc.inbox| + k] == Post(GetSockState, [Num(fds[k])])
         && t.conts[|s.conts| + k] == Querying(fds[k])
  }

  lemma {:induction false} EventsAsk(c: Config, s: Server, u: Server, fds: seq<int>)
    requires PostsNothing(s, u) && s.rpc.phase.Live?
    ensures var t := HandleEvents(c, u, fds); AsksFor(s, t, fds) && t == u.(rpc := t.rpc, conts := t.conts)
  {
    hide Await;
    if fds != [] {
      var n := |fds| - 1;
      EventsAsk(c, s, u, fds[..n]);
      var t, post := HandleEvents(c, u, fds[..n]), Post(GetSockState, [Num(fds[n])]);
      hide HandleEvents;
      LivePost(t, post, Querying(fds[n]));
      OneMore(s, t, Await(t, post, Querying(fds[n])), fds[..n], fds[n]);
      assert fds[..n] + [fds[n]] == fds;
    }
  }

  lemma OneMore(s: Server, t: Server, t': Server, fds: seq<int>, fd: int)
    requires AsksFor(s, t, fds) && Posts(t, t', Post(GetSockState, [Num(fd)]), Querying(fd))
    requires t.rpc.calls <= t'.rpc.calls
    ensures AsksFor(s, t', fds + [fd])
  {
  }

  /** The handlers of all events of a poll are started, and the one next poll timer is set; a result that is
      no event list stops the loop. */
  lemma PollReply(c: Config, s: Server, e: Event, v: Value)
    requires Replies(c, s, e, Polling, v) && s.rpc.phase.Live?
    ensures var t := SrtServer.Step(c, s, Rpc(e));
            if !v.Events? then t == s.(rpc := t.rpc) && PostsNothing(s, t)
            else
              && AsksFor(s, t, v.sockets) && t.timers == {s.nextTimer} && t.pollTimer == Some(s.nextTimer)
              && t == s.(rpc := t.rpc, conts := t.conts, timers := t.timers, pollTimer := t.pollTimer,
                         nextTimer := s.nextTimer + 1)
  {
    hide Replies, ServerInv, SrtServer.Step, SrtServer.Enabled, Await;
    var u := OwnReply(c, s, e, Polling, v);
    NoTimerWhilePolling(c, s, e, v);
    hide HandleEvents;
    if v.Events? {
      EventsAsk(c, s, u, v.sockets);
    }
  }

  lemma NoTimerWhilePolling(c: Config, s: Server, e: Event, v: Value)
    requires Replies(c, s, e, Polling, v)
    ensures s.timers == {}
  {
    ServerReachableInv(c, s);
    RpcOfInv(c, s);
    NextReply(s, e);
    hide ServerReachable, Core, RpcPart, Benign;
  }

  // ----- dispose

  /** The first `dispose` with a socket closes that socket. */
  lemma DisposeCall(c: Config, s: Server)
    requires ServerReachable(c, s) && s.rpc.phase.Live? && !s.startedToDispose && s.socket != Null
    ensures var t := SrtServer.Step(c, s, CallDispose);
            && Posts(s, t, Post(Close, [s.socket]), ClosingSocket(s.socket))
            && t.startedToDispose && t.closeCall == Some(|s.rpc.calls|) && t.pollTimer == None
            && t.disposedEvents == s.disposedEvents && t.socket == s.socket && t.connections == s.connections
  {
    ServerReachableInv(c, s);
    Fields(c, s);
    DisposeIs(c, s);
    hide ServerReachable, ServerInv, Await, SrtServer.Step;
    var s', post := ClearTimers(s).(startedToDispose := true), Post(Close, [s.socket]);
    assert PostsNothing(s, s');
    hide Posts, PostsNothing, ClearTimers;
    ClearedFields(s);
    ReplyPosts(s, s', post, ClosingSocket(s.socket));
    LiveId(s', post);
  }

  lemma OpenIs(c: Config, s: Server)
    requires SrtServer.Enabled(s, CallOpen)
    ensures SrtServer.Step(c, s, CallOpen) == Open(c, s)
  {
    hide Open;
  }

  lemma DisposeIs(c: Config, s: Server)
    ensures SrtServer.Step(c, s, CallDispose) == DisposeServer(s)
  {
    hide DisposeServer;
  }

  lemma ClearedFields(s: Server)
    ensures var t := ClearTimers(s); t == s.(timers := t.timers, pollTimer := None)
  {
  }

  lemma LiveId(s: Server, post: Post)
    requires CallOutcome(s.rpc, post).Promised?
    ensures CallOutcome(s.rpc, post) == Promised(|s.rpc.calls|)
  {
  }

  /** The reply to that close starts the disposal of the handle, whatever it says: the worker is dropped in
      the same turn when no other call is outstanding. */
  lemma CloseReply(c: Config, s: Server, e: Event, closed: Value, v: Value)
    requires Replies(c, s, e, ClosingSocket(closed), v) && s.rpc.phase.Live?
    ensures var t := SrtServer.Step(c, s, Rpc(e));
            && t == s.(rpc := t.rpc, disposing := true)
            && t.rpc.phase == if s.rpc.lock - (if Rejected(s) then 0 else 1) > 0 then Draining else Gone
  {
    hide Replies, ServerInv, SrtServer.Step, SrtServer.Enabled, Await;
    var u := OwnReply(c, s, e, ClosingSocket(closed), v);
  }

  /** The reply to the close of a connection changes nothing. */
  lemma ConnectionCloseReply(c: Config, s: Server, e: Event, v: Value)
    requires Replies(c, s, e, ClosingConnection, v)
    ensures var t := SrtServer.Step(c, s, Rpc(e));
            t == s.(rpc := t.rpc) && PostsNothing(s, t)
  {
    hide Replies, ServerInv, SrtServer.Step, SrtServer.Enabled, Await;
    var u := OwnReply(c, s, e, ClosingConnection, v);
  }
}
