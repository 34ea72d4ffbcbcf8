/** The code of SRTServer and of SRTSocketAsync (src/srt-server.ts:152-319,
    src/srt-socket-async.ts:15-132), over the handle of AsyncApi, each method proved to take the
    corresponding step of SrtServer. A method ends at its next `await`; what follows that `await`
    is a method of its own. */
module ServerCode {
  import opened Wire
  import opened Worker
  import opened Counting
  import opened Protocol
  import opened SrtServer
  import opened AsyncApi

  lemma NothingAwaits(c: Config, s: Server, v: Value)
    ensures Continue(c, s, Other, v) == s
  {
  }

  class SRTServer {
    const config: Config
    const asyncSrt: AsyncSRT
    var socket: Value
    var epid: Value
    var pollEventsTimer: Option<nat>
    var connectionMap: map<Value, Connection>
    var startedToDispose: bool

    /** The pending poll timers of the event loop. */
    var timers: set<nat>
    var nextTimer: nat
    /** What awaits each call's reply. */
    var conts: seq<Cont>
    /** `dispose` awaits the disposal of the handle. */
    var disposing: bool
    ghost var createCalled: bool
    ghost var openCalled: bool
    ghost var mapped: set<Value>
    ghost var faults: seq<int>
    ghost var closeCall: Option<nat>
    ghost var disposedEvents: nat

    ghost predicate Valid()
      reads this, asyncSrt
    {
      asyncSrt.Valid()
    }

    ghost function Abs(): Server
      reads this, asyncSrt, asyncSrt.thread
    {
      Server(asyncSrt.Abs(), conts, socket, epid, pollEventsTimer, timers, nextTimer, connectionMap,
             createCalled, openCalled, startedToDispose, disposing, mapped, faults, closeCall, disposedEvents)
    }

    constructor (config: Config, asyncSrt: AsyncSRT)
      requires asyncSrt.Valid() && asyncSrt.Abs() == INIT
      ensures Valid() && this.config == config && this.asyncSrt == asyncSrt && Abs() == INITIAL
    {
      this.config, this.asyncSrt := config, asyncSrt;
      socket, epid, pollEventsTimer, connectionMap, startedToDispose := Null, Null, None, map[], false;
      timers, nextTimer, conts, disposing, createCalled, openCalled := {}, 0, [], false, false, false;
      mapped, faults, closeCall, disposedEvents := {}, [], None, 0;
    }

    /** A call of the handle whose promise is awaited by `cont`. */
    method Call(name: Method, args: seq<Value>, cont: Cont) returns (outcome: Outcome)
      requires Valid()
      modifies this`conts, asyncSrt, asyncSrt.thread`inbox
      ensures Valid()
      ensures outcome == CallOutcome(old(Abs()).rpc, Post(name, args))
      ensures Abs() == if outcome.Promised? then Await(old(Abs()), Post(name, args), cont) else old(Abs())
    {
      outcome := asyncSrt.CreateAsyncWorkPromise(name, args, false, false);
      if outcome.Promised? {
        conts := conts + [cont];
      }
    }

    // ----- event handling

    /** `_handleEvent` up to its first `await`. */
    method HandleEvent(fd: int)
      requires Valid()
      modifies this, asyncSrt, asyncSrt.thread`inbox
      ensures Valid()
      ensures Abs() == SrtServer.HandleEvent(config, old(Abs()), fd)
    {
      hide Await, CallOutcome, AfterState, AsyncSRT.Abs, AsyncSRT.Valid;
      var outcome := Call(GetSockState, [Num(fd)], Querying(fd));
      if outcome.ReturnedUndefined? {
        OnState(fd, Undefined);
      }
    }

    method OnState(fd: int, status: Value)
      requires Valid()
      modifies this, asyncSrt, asyncSrt.thread`inbox
      ensures Valid()
      ensures Abs() == AfterState(config, old(Abs()), fd, status)
    {
      hide Await, CallOutcome, AfterAccept, CloseConnection, IsBroken, DataFrom, AsyncSRT.Abs, AsyncSRT.Valid;
      if Num(fd) == socket {
        if status == LISTENING {
          var outcome := Call(Accept, [socket], Accepting);
          if outcome.ReturnedUndefined? {
            OnAccept(Undefined);
          }
        }
      } else if IsBroken(status) {
        if Num(fd) in connectionMap {
          CloseConnectionOf(Num(fd));
        }
      } else {
        OnData(fd);
      }
    }

    method OnData(fd: int)
      requires Valid()
      modifies this
      ensures Valid()
      ensures Abs() == DataFrom(old(Abs()), fd)
    {
      hide AsyncSRT.Abs, AsyncSRT.Valid;
      if Num(fd) !in connectionMap {
        faults := faults + [fd];
        return;
      }
      var connection := connectionMap[Num(fd)];
      connectionMap := connectionMap[Num(fd) := connection.(gotFirstData := true)];
    }

    method OnAccept(fd: Value)
      requires Valid()
      modifies this, asyncSrt, asyncSrt.thread`inbox
      ensures Valid()
      ensures Abs() == AfterAccept(config, old(Abs()), fd)
    {
      hide Await, CallOutcome, AfterAdd, AsyncSRT.Abs, AsyncSRT.Valid;
      var outcome := Call(EpollAddUsock, [epid, fd, EPOLL_IN_ERR], Adding(fd));
      if outcome.ReturnedUndefined? {
        OnAdd(fd);
      }
    }

    /** The constructor of the connection ignores its first argument unless `storesHandle`. */
    method OnAdd(fd: Value)
      requires Valid()
      modifies this
      ensures Valid()
      ensures Abs() == AfterAdd(config, old(Abs()), fd)
    {
      hide AsyncSRT.Abs, AsyncSRT.Valid;
      var connection := Connection(config.storesHandle, false);
      connectionMap := connectionMap[fd := connection];
      mapped := mapped + {fd};
    }

    /** `close` of a connection, with its `closing` listener. */
    method CloseConnectionOf(fd: Value)
      requires Valid() && fd in connectionMap
      modifies this, asyncSrt, asyncSrt.thread`inbox
      ensures Valid()
      ensures Abs() == CloseConnection(old(Abs()), fd)
    {
      hide Await, CallOutcome, AsyncSRT.Abs, AsyncSRT.Valid;
      if !connectionMap[fd].hasHandle {
        return;
      }
      connectionMap := connectionMap - {fd};
      var _ := Call(Close, [fd], ClosingConnection);
    }

    // ----- polling

    method ClearTimers()
      requires Valid()
      modifies this`timers, this`pollEventsTimer
      ensures Valid()
      ensures Abs() == SrtServer.ClearTimers(old(Abs()))
    {
      hide AsyncSRT.Abs, AsyncSRT.Valid;
      if pollEventsTimer.Some? {
        timers := timers - {pollEventsTimer.value};
        pollEventsTimer := None;
      }
    }

    /** `_pollEvents` up to its `await`. */
    method PollEvents()
      requires Valid()
      modifies this, asyncSrt, asyncSrt.thread`inbox
      ensures Valid()
      ensures Abs() == Poll(old(Abs()))
    {
      hide Await, CallOutcome, SrtServer.ClearTimers;
      if epid == Num(0) || asyncSrt.startedToDispose {
        ClearTimers();
        return;
      }
      var _ := Call(EpollUWait, [epid, Num(0)], Polling);
    }

    /** The rest of `_pollEvents`; awaiting `undefined` or a number makes it throw at `forEach`. */
    method OnEvents(events: Value)
      requires Valid()
      modifies this, asyncSrt, asyncSrt.thread`inbox
      ensures Valid()
      ensures Abs() == AfterPoll(config, old(Abs()), events)
    {
      hide SrtServer.HandleEvent, SetTimer;
      if !events.Events? {
        return;
      }
      for i := 0 to |events.sockets|
        invariant Valid()
        invariant Abs() == HandleEvents(config, old(Abs()), events.sockets[..i])
      {
        assert events.sockets[..i + 1][..i] == events.sockets[..i];
        HandleEvent(events.sockets[i]);
      }
      assert events.sockets[..|events.sockets|] == events.sockets;
      ScheduleNext();
    }

    /** `clearTimeout` and `setTimeout`. */
    method ScheduleNext()
      requires Valid()
      modifies this`timers, this`pollEventsTimer, this`nextTimer
      ensures Valid()
      ensures Abs() == SetTimer(old(Abs()))
    {
      hide AsyncSRT.Abs, AsyncSRT.Valid;
      if pollEventsTimer.Some? {
        timers := timers - {pollEventsTimer.value};
      }
      timers := timers + {nextTimer};
      pollEventsTimer := Some(nextTimer);
      nextTimer := nextTimer + 1;
    }

    method OnTimer(id: nat)
      requires Valid() && SrtServer.Enabled(Abs(), TimerFires(id))
      modifies this, asyncSrt, asyncSrt.thread`inbox
      ensures Valid()
      ensures Abs() == SrtServer.Step(config, old(Abs()), TimerFires(id))
    {
      hide Poll;
      timers := timers - {id};
      PollEvents();
    }

    // ----- create and open

    method Create()
      requires Valid() && SrtServer.Enabled(Abs(), CallCreate)
      modifies this, asyncSrt, asyncSrt.thread`inbox
      ensures Valid()
      ensures Abs() == SrtServer.Step(config, old(Abs()), CallCreate)
    {
      hide Await, CallOutcome, AsyncSRT.Abs, AsyncSRT.Valid;
      createCalled := true;
      if socket != Null {
        return;
      }
      if startedToDispose {
        return;
      }
      var outcome := Call(CreateSocket, [Flag(false)], Creating);
      if outcome.ReturnedUndefined? {
        socket := Undefined;
      }
    }

    /** `open` and `_open` up to its first `await`. */
    method Open()
      requires Valid()
      modifies this, asyncSrt, asyncSrt.thread`inbox
      ensures Valid()
      ensures Abs() == SrtServer.Open(config, old(Abs()))
    {
      hide Await, CallOutcome, AfterBind, AsyncSRT.Abs, AsyncSRT.Valid;
      if socket == Null {
        return;
      }
      if startedToDispose {
        return;
      }
      openCalled := true;
      var outcome := Call(Bind, [socket, Text(config.address), Num(config.port)], Binding);
      if outcome.ReturnedUndefined? {
        OnBind(Undefined);
      }
    }

    method OnBind(result: Value)
      requires Valid()
      modifies this, asyncSrt, asyncSrt.thread`inbox
      ensures Valid()
      ensures Abs() == AfterBind(old(Abs()), result)
    {
      hide Await, CallOutcome, AfterListen, AsyncSRT.Abs, AsyncSRT.Valid;
      if result == SRT_ERROR {
        return;
      }
      var outcome := Call(Listen, [socket, BACKLOG], Cont.Listening);
      if outcome.ReturnedUndefined? {
        OnListen(Undefined);
      }
    }

    method OnListen(result: Value)
      requires Valid()
      modifies this, asyncSrt, asyncSrt.thread`inbox
      ensures Valid()
      ensures Abs() == AfterListen(old(Abs()), result)
    {
      hide Await, CallOutcome, AfterEpollCreate, AsyncSRT.Abs, AsyncSRT.Valid;
      if result == SRT_ERROR {
        return;
      }
      var outcome := Call(EpollCreate, [], EpollCreating);
      if outcome.ReturnedUndefined? {
        OnEpollCreate(Undefined);
      }
    }

    method OnEpollCreate(result: Value)
      requires Valid()
      modifies this, asyncSrt, asyncSrt.thread`inbox
      ensures Valid()
      ensures Abs() == AfterEpollCreate(old(Abs()), result)
    {
      hide Await, CallOutcome, Poll, AsyncSRT.Abs, AsyncSRT.Valid;
      if result == SRT_ERROR {
        return;
      }
      epid := result;
      var outcome := Call(EpollAddUsock, [epid, socket, EPOLL_IN_ERR], Subscribing(socket));
      if outcome.ReturnedUndefined? {
        PollEvents();
      }
    }

    // ----- dispose

    /** `dispose` of the server up to its first `await`. */
    method Dispose()
      requires Valid()
      modifies this, asyncSrt, asyncSrt.thread`inbox
      ensures Valid()
      ensures Abs() == DisposeServer(old(Abs()))
    {
      hide Await, SrtServer.ClearTimers, AfterCloseSocket, AsyncSRT.Abs, AsyncSRT.Valid;
      ClearTimers();
      if startedToDispose {
        return;
      }
      startedToDispose := true;
      if socket == Null {
        disposedEvents := disposedEvents + 1;
        return;
      }
      var outcome := Call(Close, [socket], ClosingSocket(socket));
      match outcome
      case Promised(id) => closeCall := Some(id);
      case ReturnedUndefined => OnSocketClosed();
      case _ =>
    }

    method OnSocketClosed()
      requires Valid()
      modifies this, asyncSrt
      ensures Valid()
      ensures Abs() == AfterCloseSocket(old(Abs()))
    {
      hide AsyncSRT.Abs, AsyncSRT.Valid;
      asyncSrt.Dispose();
      disposing := true;
    }

    /** The rest of `dispose`, once the handle has been disposed of. */
    method OnTerminated()
      requires Valid() && SrtServer.Enabled(Abs(), Terminated)
      modifies this
      ensures Valid()
      ensures Abs() == SrtServer.Step(config, old(Abs()), Terminated)
    {
      hide AsyncSRT.Abs, AsyncSRT.Valid;
      socket := Null;
      disposing := false;
      disposedEvents := disposedEvents + 1;
    }

    // ----- the turn of a delivery

    method Resume(cont: Cont, result: Value)
      requires Valid()
      modifies this, asyncSrt, asyncSrt.thread`inbox
      ensures Valid()
      ensures Abs() == Continue(config, old(Abs()), cont, result)
    {
      hide AfterBind, AfterListen, AfterEpollCreate, Poll, AfterPoll, AfterState, AfterAccept, AfterAdd,
          AfterCloseSocket;
      match cont
      case Other =>
      case Creating => socket := result;
      case Binding => OnBind(result);
      case Listening => OnListen(result);
      case EpollCreating => OnEpollCreate(result);
      case Subscribing(_) => PollEvents();
      case Polling => OnEvents(result);
      case Querying(fd) => OnState(fd, result);
      case Accepting => OnAccept(result);
      case Adding(fd) => OnAdd(fd);
      case ClosingConnection =>
      case ClosingSocket(_) => OnSocketClosed();
    }

    /** A turn of other code that uses the handle. */
    method OthersAct(action: Action)
      requires Valid()
      modifies this`conts, asyncSrt, asyncSrt.thread`inbox
      ensures Valid()
      ensures Abs() == SrtServer.Step(config, old(Abs()), Rpc(Main(action)))
    {
      hide Act, Continue;
      asyncSrt.RunCallback([action]);
      OneAction(old(asyncSrt.Abs()), action);
      conts := Pad(conts, |asyncSrt.closures|, Other);
    }

    /** The turn in which the worker's oldest reply is delivered: what awaits the call it answers
        runs before the next reply. `script` is what the callback of another user's call does. */
    method OnReply(script: seq<Action>)
      requires Valid() && SrtServer.Enabled(Abs(), Rpc(Delivery(script)))
      modifies this, asyncSrt, asyncSrt.thread
      ensures Valid()
      ensures Abs() == SrtServer.Step(config, old(Abs()), Rpc(Delivery(script)))
    {
      hide Deliver, Continue;
      var result := asyncSrt.thread.outbox[0].result;
      var cont := Other;
      if asyncSrt.worker != null && |asyncSrt.workCbQueue| > 0 && asyncSrt.workCbQueue[0] < |conts| {
        cont := conts[asyncSrt.workCbQueue[0]];
      }
      asyncSrt.OnWorkerMessage(script);
      conts := Pad(conts, |asyncSrt.closures|, Other);
      NothingAwaits(config, Abs(), result);
      Resume(cont, result);
    }
  }
}
