/** What the server does in the turns that come after its handle has started to dispose: its calls return
    nothing, and the awaiting code goes on with `undefined` (src/async-api.ts:204-212,
    src/srt-server.ts:217-311). */
module ServerDraining {
  import opened Wire
  import opened Worker
  import opened Counting
  import opened Protocol
  import opened Invariant
  import opened Guarantees
  import opened SrtServer
  import opened ServerInvariant
  import opened ServerSteps
  import opened ServerGuarantees
  import opened ServerDispatch

  lemma DrainingCall(rpc: State, post: Post)
    requires rpc.phase.Draining? || rpc.phase.Drained?
    ensures CallOutcome(rpc, post).ReturnedUndefined?
  {
  }

  ghost predicate Draining(s: Server) { s.rpc.phase.Draining? || s.rpc.phase.Drained? }

  // ----- handlers under way

  /** An accept that is answered now still makes its entry, without a subscription. */
  lemma AcceptDraining(c: Config, s: Server, e: Event, v: Value)
    requires Replies(c, s, e, Accepting, v) && Draining(s)
    ensures var t := SrtServer.Step(c, s, Rpc(e));
            && PostsNothing(s, t) && t.connections == s.connections[v := Connection(c.storesHandle, false)]
            && t == s.(rpc := t.rpc, connections := t.connections, mapped := s.mapped + {v})
  {
    hide Replies, ServerInv, SrtServer.Step, SrtServer.Enabled, Await;
    var u := OwnReply(c, s, e, Accepting, v);
    DrainingCall(u.rpc, Post(EpollAddUsock, [s.epid, v, Num(9)]));
  }

  /** A listener that is found listening now makes an entry under `undefined`. */
  lemma ListenerDraining(c: Config, s: Server, e: Event, fd: int, v: Value)
    requires Replies(c, s, e, Querying(fd), v) && Num(fd) == s.socket && v == Num(3) && Draining(s)
    ensures var t := SrtServer.Step(c, s, Rpc(e));
            && PostsNothing(s, t) && t.connections == s.connections[Undefined := Connection(c.storesHandle, false)]
            && t == s.(rpc := t.rpc, connections := t.connections, mapped := s.mapped + {Undefined})
  {
    hide Replies, ServerInv, SrtServer.Step, SrtServer.Enabled, Await;
    var u := OwnReply(c, s, e, Querying(fd), v);
    DrainingCall(u.rpc, Post(Accept, [s.socket]));
    DrainingCall(u.rpc, Post(EpollAddUsock, [s.epid, Undefined, Num(9)]));
  }

  /** A broken socket whose connection keeps its handle only loses its entry. */
  lemma BrokenDraining(c: Config, s: Server, e: Event, fd: int, v: Value)
    requires Replies(c, s, e, Querying(fd), v) && Num(fd) != s.socket && Draining(s)
    requires v == Num(6) || v == Num(8) || v == Num(9)
    ensures PostsNothing(s, SrtServer.Step(c, s, Rpc(e)))
  {
    hide Replies, ServerInv, SrtServer.Step, SrtServer.Enabled, Await;
    var u := OwnReply(c, s, e, Querying(fd), v);
    DrainingCall(u.rpc, Post(Close, [Num(fd)]));
  }

  // ----- the events of a last poll

  /** Each event of a socket with an entry is taken for data, whatever the state of the socket, each other
      one throws; events of the listener do nothing. */
  ghost predicate TakenForData(s: Server, t: Server, fds: seq<int>) {
    && t.connections.Keys == s.connections.Keys
    && (forall k :: k in s.connections ==>
          && t.connections[k].hasHandle == s.connections[k].hasHandle
          && (t.connections[k].gotFirstData <==>
                s.connections[k].gotFirstData || exists i :: 0 <= i < |fds| && k == Num(fds[i]) && k != s.socket))
    && (t.faults == s.faults <==>
          forall i :: 0 <= i < |fds| ==> Num(fds[i]) == s.socket || Num(fds[i]) in s.connections)
  }

  lemma EventDraining(c: Config, s: Server, fd: int)
    requires Draining(s)
    ensures var t := HandleEvent(c, s, fd);
            && t == s.(connections := t.connections, faults := t.faults)
            && if Num(fd) == s.socket then t == s
               else if Num(fd) in s.connections
               then t.faults == s.faults
                    && t.connections == s.connections[Num(fd) := Connection(s.connections[Num(fd)].hasHandle, true)]
               else t.connections == s.connections && t.faults == s.faults + [fd]
  {
    DrainingCall(s.rpc, Post(GetSockState, [Num(fd)]));
    hide CallOutcome, Await;
  }

  lemma {:induction false} EventsDraining(c: Config, s: Server, fds: seq<int>)
    requires Draining(s)
    ensures var t := HandleEvents(c, s, fds);
            t == s.(connections := t.connections, faults := t.faults) && s.faults <= t.faults && TakenForData(s, t, fds)
  {
    if fds != [] {
      var n := |fds| - 1;
      EventsDraining(c, s, fds[..n]);
      var t := HandleEvents(c, s, fds[..n]);
      EventDraining(c, t, fds[n]);
      OneMoreTaken(s, t, HandleEvent(c, t, fds[n]), fds[..n], fds[n]);
      assert fds[..n] + [fds[n]] == fds;
    }
  }

  lemma OneMoreTaken(s: Server, t: Server, t': Server, fds: seq<int>, fd: int)
    requires TakenForData(s, t, fds) && s.faults <= t.faults && t.socket == s.socket
    requires if Num(fd) == s.socket then t' == t
             else if Num(fd) in t.connections
             then t'.faults == t.faults
                  && t'.connections == t.connections[Num(fd) := Connection(t.connections[Num(fd)].hasHandle, true)]
             else t'.connections == t.connections && t'.faults == t.faults + [fd]
    ensures TakenForData(s, t', fds + [fd])
  {
    assert (fds + [fd])[|fds|] == fd;
    assert forall i :: 0 <= i < |fds| ==> (fds + [fd])[i] == fds[i];
  }

  lemma PollDraining(c: Config, s: Server, e: Event, v: Value)
    requires Replies(c, s, e, Polling, v) && Draining(s) && v.Events?
    ensures var t := SrtServer.Step(c, s, Rpc(e));
            && PostsNothing(s, t) && TakenForData(s, t, v.sockets)
            && t.timers == {s.nextTimer} && t.pollTimer == Some(s.nextTimer)
            && t == s.(rpc := t.rpc, connections := t.connections, faults := t.faults, timers := t.timers,
                       pollTimer := t.pollTimer, nextTimer := s.nextTimer + 1)
  {
    hide Replies, ServerInv, SrtServer.Step, SrtServer.Enabled, Await;
    var u := OwnReply(c, s, e, Polling, v);
    NoTimerWhilePolling(c, s, e, v);
    EventsDraining(c, u, v.sockets);
    hide HandleEvents;
  }

  // ----- opening and polling

  /** A bind or a listen that succeeds now leaves an undefined epoll id, and the loop does not start. */
  lemma OpeningDraining(c: Config, s: Server, e: Event, cont: Cont, v: Value)
    requires Replies(c, s, e, cont, v) && (cont.Binding? || cont.Listening?) && Draining(s)
    ensures var t := SrtServer.Step(c, s, Rpc(e));
            && PostsNothing(s, t)
            && t == if v == Num(-1) then s.(rpc := t.rpc)
                    else s.(rpc := t.rpc, epid := Undefined, timers := t.timers, pollTimer := None)
  {
    hide Replies, ServerInv, SrtServer.Step, SrtServer.Enabled, Await;
    var u := OwnReply(c, s, e, cont, v);
    DrainingCall(u.rpc, Post(Listen, [s.socket, Num(65535)]));
    DrainingCall(u.rpc, Post(EpollCreate, []));
    DrainingCall(u.rpc, Post(EpollAddUsock, [Undefined, s.socket, Num(9)]));
    hide CallOutcome;
  }

  /** The other replies of the opening, and a firing timer, do not poll any more. */
  lemma EpollDraining(c: Config, s: Server, e: Event, cont: Cont, v: Value)
    requires Replies(c, s, e, cont, v) && (cont.EpollCreating? || cont.Subscribing?) && Draining(s)
    ensures var t := SrtServer.Step(c, s, Rpc(e));
            && PostsNothing(s, t)
            && t == if cont.EpollCreating? && v == Num(-1) then s.(rpc := t.rpc)
                    else s.(rpc := t.rpc, epid := if cont.EpollCreating? then v else s.epid,
                            timers := t.timers, pollTimer := None)
  {
    hide Replies, ServerInv, SrtServer.Step, SrtServer.Enabled, Await;
    var u := OwnReply(c, s, e, cont, v);
    DrainingCall(u.rpc, Post(EpollAddUsock, [v, s.socket, Num(9)]));
    hide CallOutcome;
  }

  lemma TimerDraining(c: Config, s: Server, id: nat)
    requires ServerReachable(c, s) && SrtServer.Enabled(s, TimerFires(id)) && !s.rpc.phase.Live?
    ensures SrtServer.Step(c, s, TimerFires(id)) == s.(timers := {}, pollTimer := None)
  {
    hide ServerReachable, SrtServer.Step;
    Pending(s, id);
    OneTimer(c, s);
    TimerIs(c, s, id);
    hide SrtServer.Enabled;
    LastTimer(s, id);
  }

  lemma Pending(s: Server, id: nat)
    requires SrtServer.Enabled(s, TimerFires(id))
    ensures id in s.timers
  {
  }

  lemma LastTimer(s: Server, id: nat)
    requires id in s.timers && s.pollTimer.Some? && s.timers == {s.pollTimer.value} && !s.rpc.phase.Live?
    ensures Poll(s.(timers := s.timers - {id})) == s.(timers := {}, pollTimer := None)
  {
    hide Await, CallOutcome;
    assert s.timers - {id} == {} && {} - {id} == {};
  }
}
