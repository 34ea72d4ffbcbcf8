# Asynchronous SRT calls: a verified model

`AsyncSRT` runs the calls of a native SRT binding on one worker thread. The main thread queues a
callback, posts a message and pairs every reply with the oldest callback: no request id travels in
either direction. On top of that protocol sit a lock counter, per-call timeouts, an error slot, a
`dispose()` that drains before it terminates the worker, a server whose poll, accept and data
handlers interleave freely, and two burst writers, a reader loop and a slicer/merger pair.

This project models these parts in Dafny and proves what they promise, for every input, every
interleaving and every run.

## How the model is organised

One turn of the event loop, or one message handled by the worker, is one atomic step. Every step
exists twice. A specification (`Protocol`, `WriteModes`, `SrtServer`) is a function on immutable
states, and the invariants and theorems are proved about it. A class (`AsyncSRT`, `Burst`,
`SRTServer`, `WorkerThread`) updates its fields in place, statement by statement, as the program
does; each of its methods ends where the program suspends, and `Abs()` after the method equals the
specified step of `Abs()` before it.

| files | content |
|---|---|
| Wire, Worker | values, messages, transfer lists, when a post throws; the worker's handler and its two channels |
| Protocol, Invariant, Guarantees, Disposal | the call protocol, its inductive invariant, pairing, error slot, lock, settling, drain |
| Calls, DisposeEnding | what one call, its timeout, its callback and its reply do, exactly; when `dispose()` can end |
| AsyncApi | the code of the handle |
| Ownership | which buffers the main thread has lost, and to which call |
| WriteModes, WriteModesInvariant, WriteModesGuarantees, WriteModesReports, WriteModesIndex, EndToEnd | both burst writers sharing a handle with any other traffic; what reaches the native `write` |
| BurstWriter, ReaderWriter | the code of the writers and of `writeChunks` |
| Server, ServerInvariant, ServerSteps, ServerGuarantees, ServerLoop | the server as a client of the protocol (module `SrtServer`) |
| ServerDispatch, ServerDraining | what the server posts and changes in each turn, with the native constants written out; the turns on a handle that is disposing |
| ServerCode | the code of the server and of its socket base class |
| Tools, WaitFor, ReadModes | slicing and merging, the polling wait, the reader loop |
| Counting | counting in sequences, and padding them |

Native calls answer anything: a value or an exception, chosen anew for every message. Timers fire at
any moment at which they are pending. The callbacks that a user passes may post further calls and
dispose the handle, any number of times and in any order (`script`), before they return or throw.

## What is assumed

* A handle starts with a fresh worker, and only its own code uses the worker.
* `postMessage` may throw: for a value that cannot be cloned, a buffer that is already detached or
  one that is listed twice. The protocol theorems do not assume that it does not; they say exactly
  what holds then. For the writers and the server the posts of the *other* users of the handle are
  assumed not to throw (`Benign`), as one such post misaligns every later reply.
* Writers: the chunks are independent buffers, as the documentation of the writers demands, nobody
  else transfers a chunk before it is written, and `writesPerTick` is at least 1.
* Server: `create` is called once, then `open` once; `dispose` any number of times at any moment.
  `createSocket`, `accept` and `epollCreate` return numbers when they return, and `epollUWait` names
  only sockets that were subscribed. Other users of the server's handle neither dispose it nor
  subscribe sockets. `Config.storesHandle` is false for the code as written and true for a variant in
  which the connection object keeps its handle; the theorems hold for both unless they say otherwise.

## Where the code differs from its documentation or its evident purpose

The model follows the code.

* A post that throws leaves its callback queued and its lock taken (src/async-api.ts:188-189). From
  then on every reply goes to the callback of an earlier call. `PairingExact` gives the exact
  condition for one reply, `QueueIsWhatIsInFlight` for the queue, `LockCounts` for the lock,
  `Quiescent` for the end of the drain, and `MisalignedAfterThrow` a run that shows it. As the lock stays
  taken, `dispose()` may then never end: `DisposeEndsExactly` says when, `DisposeHangs` is a state.
* The slicer tests the previous offset. When the chunk size does not divide the length it makes one
  pass more and appends an empty chunk (src/tools.ts:18-25); merging such a list into a buffer of the
  exact size throws (src/tools.ts:60-62). `SlicesExact` and `SliceThenMerge` say exactly when,
  `ThreeInTwos` is an input. With a negative offset that chunk can even hold bytes (`ExtraChunk`).
* On a handle that is being disposed a write resolves without having been posted, so the writers call
  `onWrite` for it and finish as if it had been written (src/async-api.ts:204-212, 321-325).
  `SkipsExactly` states at which steps, `AllReportedWerePosted` in which runs, `ReportsExact` what is
  reported; `LoopAfterDispose` and `IntervalAfterDispose` are runs that show it.
* The second argument of `onWrite` is named an index of a chunk (src/async-write-modes.ts:100, 125-126),
  but counts the calls. It is wrong after a failed write (`IndexLagsAfterFailure`), and without any
  failure when the interval writer reports skipped chunks before pending replies (`IndicesSwapped`).
  `IndexOnDelivery`, `IndexOnSkip` and `IndexIsChunk` say exactly when it is right.
* `waitForCondition` is documented to return a negative number when the condition asks to stop
  (src/tools.ts:94); it does so at the attempt limit and at a deadline too (`NegativeMeansStopExact`).
  The resolve after its loop is reached only with a limit that is not a whole number; the contract says
  exactly when.
* The flag that should end `readChunks` after failures is never set (src/async-read-modes.ts:29, 37),
  so failed reads are retried without end (`OnlyFailures`).
* The amount that `readChunks` reads beyond the minimum is documented to be less than one MTU
  (src/async-reader-writer.ts:33-34). It is less than one *read buffer*: with the default arguments the
  documented bound fails (`DefaultsBreakTheBound`), and `DocumentedBoundExact` says when it holds.
* `SRTServerConnection` never stores its handle (src/srt-server.ts:29-32). `isClosed()` is always
  true, `close()` does nothing, and no entry ever leaves the connection map.
* `dispose()` of a socket is documented as repeatable after a failure
  (src/srt-socket-async.ts:57-59), but its flag stays set and later calls return at once. Without a
  socket, which includes the time while `create` awaits its reply, it emits `disposed` and leaves the
  handle and the socket that `create` then stores alive. `DisposeCloses` gives the exact condition,
  `DisposeDuringCreateLeaks` a run.
* While the handle drains its calls return nothing, and the server's awaiting code goes on with
  `undefined`. An accept that is answered then gets an entry without a subscription, a listener that is
  found listening gets an entry under `undefined`, and every event of a socket with an entry is taken for
  data, whatever its state (src/async-api.ts:204-212, src/srt-server.ts:247-288; `AcceptDraining`,
  `ListenerDraining`, `PollDraining`).

## Model

| member | source | states |
|---|---|---|
| Wire.ExtractTransferListFromParams | src/async-helpers.ts:35-43 | the loop collects, in argument order, the transfer list that the contract of TransferList characterises |
| Wire.TransferList | src/async-helpers.ts:35-43 | a buffer is transferred exactly when some argument is a view of it |
| Wire.TransferListExact | src/async-helpers.ts:35-43 | one entry for each argument that is a view, in the order of the arguments, also where two views share a buffer |
| Worker.WorkerThread.PostMessage | src/async-api.ts:185-189 | a post either throws and changes nothing or appends the message to the worker's inbox |
| Worker.WorkerThread.OnMessage | src/async-worker.ts:42-80 | each message is taken in order and answered by exactly one reply on each of the three reply paths |
| AsyncApi.WorkerTurn | src/async-worker.ts:42-80 | the handler takes the worker's step of the protocol |
| AsyncApi.AsyncSRT.constructor | src/async-api.ts:60-76 | a new handle is in the initial state of the protocol |
| AsyncApi.AsyncSRT.PostAsyncWork | src/async-api.ts:172-190 | the callback is queued even when the post throws; the message is sent and its buffers are lost only when it does not |
| AsyncApi.AsyncSRT.CreateAsyncWorkPromise | src/async-api.ts:193-260 | which of the four outcomes a call has, and the whole new state: lock, closure, queue, message, detached buffers |
| AsyncApi.AsyncSRT.Write | src/async-api.ts:318-321 | the length is read before the post detaches the buffer |
| AsyncApi.AsyncSRT.Dispose | src/async-api.ts:117-136 | a first call with a free lock drops the worker at once, with a taken lock it starts the drain; later calls change nothing |
| AsyncApi.AsyncSRT.SeeDrained | src/async-api.ts:130-136 | one evaluation of the polled condition: it ends the polling exactly when the lock level is not positive and otherwise changes nothing |
| AsyncApi.AsyncSRT.ClearWorker | src/async-api.ts:137-145 | dropping the worker empties the callback queue |
| Calls.PostThrowsExactly | src/async-api.ts:185-189 | a post throws exactly for a value that cannot be cloned, a view of a detached buffer or two views of one buffer |
| Calls.InvocationExact | src/async-api.ts:193-260 | each of the four outcomes and its condition; an accepted call has its own closure, with the timeout and the callback it asked for, its place in the queue and its share of the lock, also when its post throws |
| Calls.TimerStep | src/async-api.ts:250-257 | a timeout can fire after a step exactly when it could before and the step is neither its firing nor the delivery of its call's reply |
| Calls.TimeoutPending | src/async-api.ts:221-259 | over any run: the timeout of an accepted call can fire exactly until it has fired or the call is answered if the call asked for one, and never otherwise |
| Calls.TimeoutFiring | src/async-api.ts:250-257 | the firing times a pending promise out, lowers the lock by one, marks the call and leaves everything else as it is |
| Calls.TimeoutThenReply | src/async-api.ts:224-257 | a run in which the reply of an accept comes after its timeout |
| Calls.ScriptInOrder | src/async-api.ts:242-246 | the calls and disposals of a callback happen in their order |
| Calls.NoCallbackNoAction | src/async-api.ts:224-249 | a call without callback is only settled by its delivery |
| Calls.DisposeInCallback | src/async-api.ts:224-249 | a dispose from inside a callback drains, since the call's share of the lock is released after it, unless the call had timed out and the lock is free |
| Calls.InvokeInCallback | src/async-api.ts:224-249 | a call from inside a callback on a live handle is accepted in the same turn, behind what is queued |
| Calls.WorkerReplies | src/async-worker.ts:57-78 | every message gets one reply: the native result without an error, or -1 with the error thrown |
| Calls.UndefinedArgumentReply | src/async-worker.ts:48-53 | a message with an undefined argument is answered without result and error |
| Calls.DisposeExact | src/async-api.ts:117-145 | a first dispose drops the worker in the same turn exactly when the lock is free and otherwise only starts the drain; later ones change nothing |
| AsyncApi.AsyncSRT.RunCallback | src/async-api.ts:242-246 | whatever sequence of calls and disposals a callback makes is a sequence of protocol steps within the turn |
| AsyncApi.AsyncSRT.OnResult | src/async-api.ts:224-249 | a result before the timeout settles the promise, runs the callback and releases the lock after it; one after the timeout only runs the callback |
| AsyncApi.AsyncSRT.OnWorkerMessage | src/async-api.ts:148-170 | a reply takes the oldest callback, records the error, and is ignored once the worker is dropped |
| AsyncApi.AsyncSRT.OnTimeout | src/async-api.ts:250-257 | the timeout rejects the promise, releases the lock and marks the call |
| Invariant.StepInv | src/async-api.ts:117-260 | every step of the protocol, with re-entrant calls, timeouts, throwing posts and disposal, keeps the invariant that ties queue, channels, closures, lock and error slot together |
| Invariant.PositionExact | src/async-api.ts:172-190 | the k-th posted message is that of the k-th accepted call exactly when no post up to that call threw |
| Guarantees.PairingExact | src/async-api.ts:148-190 | for every accepted call k: its promise is resolved exactly when reply k was delivered before a timeout and its post did not throw, and then with the result of reply k, which also is all its callback ever gets; reply k answers the k-th posted message, which is call k's own exactly when no post up to call k threw |
| Guarantees.QueueIsWhatIsInFlight | src/async-api.ts:148-190 | until the worker is dropped, the outbox and then the inbox hold, in order, the reply or the message of each undelivered call whose post did not throw, and the callback queue lists exactly these calls if and only if no post has thrown |
| Guarantees.MisalignedAfterThrow | src/async-api.ts:188-189 | after a write of a chunk that is already detached, a reachable state in which that write is answered with another call's result, whose own callback never runs and whose lock stays taken |
| Guarantees.ErrorSlot | src/async-api.ts:82-104 | getError is the message of the latest delivered call that failed, and null exactly when none failed |
| Guarantees.LockCounts | src/async-api.ts:192-259 | between turns the lock level is the number of unsettled promises plus the calls whose post threw and which have not timed out; never negative |
| Guarantees.SettlesOnce | src/async-api.ts:221-259 | over any run a settled promise keeps its value and each callback is given at most one result |
| Guarantees.LateReply | src/async-api.ts:224-236 | a reply after the timeout gives the callback its result and changes neither the promise nor the lock, nor any other call |
| Ownership.TransferredOnce | src/async-helpers.ts:35-43 | in every reachable state the lost buffers are exactly those in the transfer list of a post that did not throw, each in one such list and there once |
| Disposal.DrainRun | src/async-api.ts:127-136 | from the start of disposing no call is accepted in any run, 2*inbox + outbox drops by exactly the number of worker steps and deliveries, and the lock only falls |
| Disposal.DrainProgress | src/async-api.ts:127-136 | while a message or reply is under way, a worker step or a delivery is possible |
| Disposal.DrainTerminates | src/async-api.ts:127-145 | without throwing posts the lock is 0 after 2*inbox + outbox steps and in every later state |
| Disposal.Quiescent | src/async-api.ts:127-136 | with nothing under way the drain condition holds exactly when every call left in the queue has timed out; those are as many as the posts that threw |
| Disposal.DrainEnds | src/async-api.ts:130-145 | the drain's condition is seen exactly when the lock is 0, and then the drain runs to its end: worker dropped, queue empty, calls as they were |
| Disposal.DisposeEnds | src/async-api.ts:127-145 | without throwing posts every run of 2*inbox + outbox worker steps and deliveries can be continued until the worker is dropped |
| DisposeEnding.DisposeEndsExactly | src/async-api.ts:127-145 | on every reachable disposing handle, with throwing posts or not: some run ends the disposal exactly when each of the last calls, as many as posts have thrown, has timed out or still can; without throws there are none |
| DisposeEnding.DisposeHangs | src/async-api.ts:188-189 | a reachable state, after a second write of one chunk, whose dispose no run ends |
| Disposal.AbandonsNoLiveCall | src/async-api.ts:137-145 | every callback that is dropped belongs to a call that was already rejected; all others got their result |
| Disposal.FrozenOnceDisposed | src/async-api.ts:148-152 | once the worker is dropped no timeout is armed and no run changes a closure, a promise, the lock or the error slot |
| Tools.SliceBufferToChunks | src/tools.ts:9-28 | the loop ends, and its fresh, pairwise distinct chunks are the pieces of the window between multiples of the chunk size, for any offset and length, also negative or out of range |
| Tools.SlicesExact | src/tools.ts:9-28 | in an in-range window the chunks concatenate to it, none exceeds the size, the first floor(n/m) are full, and their number is n/m when m divides n and otherwise floor(n/m)+2 with an empty last one |
| Tools.AnyWindow | src/tools.ts:17-26 | for any offset and length, the bytes of every chunk: what lies beyond the source is cut off, and a bound below zero counts from its end |
| Tools.ExtraChunk | src/tools.ts:18-25 | when the size does not divide the length, the chunk of the extra pass is empty, except exactly where its start is in the source and the window ends before it, when it repeats bytes from outside the window |
| Tools.GetChunksTotalByteLength | src/tools.ts:35-37 | the total is the length of the concatenation |
| Tools.CopyAll | src/tools.ts:58-66 | the loop throws exactly when all chunks but the last fill the target; in either case each byte of the target is that of the concatenation as far as it reaches and otherwise the old one |
| Tools.CopyChunksIntoBuffer | src/tools.ts:53-67 | the same for a given target, and for its own allocation, which holds the concatenation exactly |
| Tools.SliceThenMerge | src/tools.ts:9-67 | slicing and merging restores the source; for a target of any length it throws exactly when there are chunks and the target is no longer than those before the last: the source but its last m bytes when m divides the length, else the whole source |
| Tools.ThreeInTwos | src/tools.ts:18-25 | three bytes in chunks of two give an empty third chunk, and the merge into three bytes throws |
| WaitFor.WaitForCondition | src/tools.ts:116-192 | the first attempt that decides is the last one begun and its verdict is the value the wait resolves to; it stays unresolved exactly while every attempt so far was refused and another is due, or when the condition hangs; all resolves of a run agree, but for the one after the loop, which is reached under an exact condition; the timer may fire at any suspension; a positive limit bounds the attempts and, with that many answers, makes the wait resolve, any other limit is none |
| WaitFor.NegativeMeansStopExact | src/tools.ts:92-96 | the documented meaning of a negative value, that the condition asked to stop, holds for all runs exactly without a limit and without a deadline |
| ReadModes.ReadChunks | src/async-read-modes.ts:19-47 | over strictly increasing indices of the reads used, the chunks are exactly the byte arrays and the onError calls exactly the results -1 and null, in order; the loop throws exactly when its last read is neither; otherwise it stops at the first read that reaches the minimum and so overshoots by less than one read buffer |
| ReadModes.DocumentedBoundExact | src/async-reader-writer.ts:28-44 | for all arguments: every stream whose reads fit the buffer overshoots the minimum by less than an MTU exactly when the read buffer is no larger than the MTU (or holds nothing); with no positive minimum nothing is read |
| ReadModes.WorstOvershoot | src/async-read-modes.ts:27-46 | the stream that overshoots most, by one byte less than the read buffer |
| ReadModes.DefaultsBreakTheBound | src/async-reader-writer.ts:6-8 | with the default arguments a stream overshoots by at least one MTU |
| ReadModes.OnlyFailures | src/async-read-modes.ts:29-41 | reads that all fail never end the loop, however many they are |
| BurstWriter.Burst.WriteNext | src/async-write-modes.ts:110-127 | one write takes the next chunk and keeps the unposted chunks attached |
| BurstWriter.Burst.Tick | src/async-write-modes.ts:108-131 | a tick takes the next writesPerTick chunks or all that are left |
| BurstWriter.Burst.RunLoop | src/async-write-modes.ts:106-131 | the loop up to its next suspension, also on a handle that is disposing or gone |
| BurstWriter.Burst.OnInterval | src/async-write-modes.ts:190-209 | the tick whose loop clears the interval in the first round that finds no chunk: it stays set exactly when a whole tick's chunks were left |
| BurstWriter.Burst.Start | src/async-write-modes.ts:184-188 | the call of either writer makes its first tick synchronously |
| BurstWriter.Burst.OnSettled | src/async-write-modes.ts:121-127 | onWrite gets the length taken before the transfer and the running index; a failed write rejects the loop |
| BurstWriter.Burst.OthersAct | src/async-api.ts:193-260 | calls and disposals by other users of the handle leave the writer's own state alone |
| BurstWriter.Burst.OnReply | src/async-write-modes.ts:106-131 | the whole turn in which a write's reply arrives, up to the loop's next suspension |
| WriteModesGuarantees.YieldingStep | src/async-write-modes.ts:104-131 | every step, of the loop or of other traffic, keeps the loop's invariant |
| WriteModesGuarantees.YieldingLoop | src/async-write-modes.ts:104-131 | at most writesPerTick writes are outstanding, onWrite has got (length, index) for the settled chunks in order, a finished loop took ceil(n/w) ticks, and a loop that has not stopped has its worker and a message or reply under way: once all are delivered it has finished, unless a write failed |
| WriteModesGuarantees.TickStart | src/async-write-modes.ts:106-109 | when a tick starts, everything posted so far has settled and chunkWrittenIdx equals chunkIndex |
| WriteModesGuarantees.FirstFailureStops | src/async-write-modes.ts:106-131 | the loop has rejected exactly when a write has failed; with the first failure at index f exactly min(n, w*(floor(f/w)+1)) chunks are ever posted, and no run starts another tick |
| WriteModesGuarantees.ReportsWithoutPosting | src/async-api.ts:204-212 | either writer called on a handle with a worker posts nothing in that turn exactly when disposing has started, and then reports a tick's or all its chunks as written |
| WriteModesReports.SkipsExactly | src/async-write-modes.ts:104-209 | a step of either writer reports chunks without posting them exactly when the writer goes on with chunks left on a handle that is disposing and has its worker; how many, and that the loop then finishes |
| WriteModesReports.AllReportedWerePosted | src/async-write-modes.ts:104-209 | over whole runs of either writer, every chunk given to onWrite was posted exactly when no such step happened and the writer was not called on such a handle |
| WriteModesReports.ReportsExact | src/async-write-modes.ts:121-127 | with failures and disposal, for both writers: the i-th onWrite call gets the length of its chunk and i; those for posted chunks are the successful writes in order, the others the chunks right behind the posted ones in order; when none was skipped, the i-th call is about the i-th successful write |
| WriteModesIndex.IndexOnDelivery | src/async-write-modes.ts:121-127 | the call for a successful write of chunk k carries index k exactly when as many earlier writes failed as chunks were skipped; for the yielding loop, exactly when no earlier write failed |
| WriteModesIndex.IndexOnSkip | src/async-write-modes.ts:104-209 | a step that skips reports the next chunks in order, with their own indices exactly when every posted write has succeeded, which always holds for the yielding loop |
| WriteModesIndex.OnWriteActs | src/async-write-modes.ts:121-127 | onWrite runs in the turn of the reply, after the lock is released: a dispose from inside it drops the worker in that turn exactly when no other call is outstanding |
| WriteModesIndex.IndexIsChunk | src/async-write-modes.ts:121-127 | for every call of every run of both writers, in whatever order replies and ticks came: exactly when its index is that of its chunk |
| WriteModesIndex.IndexLagsAfterFailure | src/async-write-modes.ts:181-209 | a run in which the write of chunk 0 fails and chunk 1 is reported with index 0 |
| WriteModesIndex.IndicesSwapped | src/async-write-modes.ts:181-209 | a run without a failed write in which chunk 1 is reported with index 0 and then chunk 0 with index 1 |
| WriteModesReports.LoopAfterDispose | src/async-write-modes.ts:104-131 | a run in which the handle is disposed after the first of two chunks was posted: the loop finishes with two reports and one post |
| WriteModesReports.IntervalAfterDispose | src/async-write-modes.ts:181-209 | the same for the interval writer |
| EndToEnd.ExecutedPrefix | src/async-write-modes.ts:104-209 | for either writer, the k-th native write executed for it is the write of chunk k, whole, to its socket; there are at least as many as are settled and at most as many as are posted |
| EndToEnd.PostedExactly | src/async-write-modes.ts:104-209 | for either writer, the k-th post is the write of chunk k to its socket |
| EndToEnd.SettledExactly | src/async-write-modes.ts:117-127 | for either writer, the k-th settled write succeeded exactly when the native write of chunk k returned something other than -1 |
| EndToEnd.ExplicitScheduling | src/async-write-modes.ts:181-209 | the interval is cleared by tick floor(n/w)+1, counting the synchronous one, and not before |
| EndToEnd.SchedulersEquivalent | src/async-write-modes.ts:134-209 | both schedulers post prefixes of one sequence of writes at any time, and the whole of it when done |
| EndToEnd.HandleReachable | src/async-write-modes.ts:104-209 | the handle of either writer is always in a state the protocol reaches, so pairing, lock, drain and ownership hold for it |
| EndToEnd.WriterMoves | src/async-reader-writer.ts:14-26 | for either writer, the buffer of each posted chunk is lost by the write of that chunk and by no other call; any other buffer only by a call of somebody else |
| EndToEnd.WriteChunksEndToEnd | src/async-reader-writer.ts:14-26 | the k-th post, and the k-th native write executed, is the write of slice k in its own buffer to the given socket; the payloads of the executed native writes are always a prefix of the buffer and finally all of it; the posts transfer the buffers of the posted chunks in order, each by its own write alone; the source's buffer is lost exactly when another user's call transferred it |
| ReaderWriter.BufferTable.IdOf | src/async-helpers.ts:35-43 | an array has one number for ever, and two arrays never share one |
| ReaderWriter.AsyncReaderWriter.ViewsFor | src/async-reader-writer.ts:21-25 | the chunks of the slicer, told apart by identity, become write arguments with the numbers of their own arrays |
| ReaderWriter.AsyncReaderWriter.WriteChunks | src/async-reader-writer.ts:14-26 | slicing and starting the loop yields a writer to which the end-to-end theorem applies; that the chunks' buffers are distinct and none is the source's follows from the arrays that the slicer allocates |
| ServerCode.SRTServer.constructor | src/srt-server.ts:152-184 | a new server is in the initial state |
| ServerCode.SRTServer.HandleEvent | src/srt-server.ts:247-248 | a handler runs up to its first await without waiting for the others |
| ServerCode.SRTServer.OnState | src/srt-server.ts:250-288 | the branch on the socket and its status: accept, close, data, or the throw for a missing entry |
| ServerCode.SRTServer.OnData | src/srt-server.ts:280-288 | data on a known socket marks its connection, on an unknown one it throws |
| ServerCode.SRTServer.OnAccept | src/srt-server.ts:254-255 | an accepted socket is subscribed before it gets its entry |
| ServerCode.SRTServer.OnAdd | src/srt-server.ts:256-265 | the entry is made once the subscription has been answered |
| ServerCode.SRTServer.CloseConnectionOf | src/srt-server.ts:122-131 | closing a connection that keeps its handle removes the entry and posts the close; as written nothing happens |
| ServerCode.SRTServer.PollEvents | src/srt-server.ts:294-301 | a poll is posted unless the epoll id is 0 or the handle is disposing, when the timer is cleared |
| ServerCode.SRTServer.OnEvents | src/srt-server.ts:301-311 | all handlers are started, then the one next poll timer is set; a result that is no event list stops the loop |
| ServerCode.SRTServer.OnTimer | src/srt-server.ts:310-310 | a firing timer polls again |
| ServerCode.SRTServer.ClearTimers | src/srt-server.ts:313-318 | the pending poll timer is cancelled and forgotten |
| ServerCode.SRTServer.Create | src/srt-socket-async.ts:38-50 | a socket is created unless there is one or disposing has started |
| ServerCode.SRTServer.Open | src/srt-socket-async.ts:116-126 | opening needs a socket and no disposing, and posts the bind |
| ServerCode.SRTServer.OnBind | src/srt-server.ts:219-223 | a failed bind stops the opening, another result posts the listen |
| ServerCode.SRTServer.OnListen | src/srt-server.ts:223-228 | a failed listen stops the opening, another result posts the epoll creation |
| ServerCode.SRTServer.OnEpollCreate | src/srt-server.ts:228-242 | the epoll id is stored and the listener subscribed before the first poll |
| ServerCode.SRTServer.Dispose | src/srt-socket-async.ts:70-82 | dispose clears the timer, then closes the socket, or emits disposed when there is none |
| ServerCode.SRTServer.OnSocketClosed | src/srt-socket-async.ts:76-77 | the handle is disposed of only after the close was answered |
| ServerCode.SRTServer.OnTerminated | src/srt-socket-async.ts:77-81 | the socket is null when disposed is emitted |
| ServerCode.SRTServer.OthersAct | src/async-api.ts:193-260 | calls and disposals by other users of the handle leave the server's own state alone |
| ServerCode.SRTServer.OnReply | src/srt-server.ts:217-311 | the turn of a reply runs exactly the continuation of the call it answers |
| ServerSteps.ServerStep | src/srt-server.ts:189-318 | every step, in any interleaving with other traffic, keeps the server's invariant |
| ServerSteps.PolledSocketsKnown | src/srt-server.ts:247-303 | the subscription of a socket was executed and delivered before any poll that names it is delivered |
| ServerDispatch.DataReply | src/srt-server.ts:279-288 | a status other than 6, 8 and 9 of a socket that is not the listener marks exactly the entry of that socket, or throws without one, and posts nothing |
| ServerDispatch.BrokenReply | src/srt-server.ts:268-278 | a status 6, 8 or 9 reports no data; an entry that keeps its handle goes, and on a live handle the close of exactly that socket is posted; otherwise nothing happens |
| ServerDispatch.UserCloseStep | src/srt-server.ts:122-131 | the same for a user who closes a connection |
| ServerDispatch.ListenerReply | src/srt-server.ts:250-254 | the listener accepts, on its own socket, exactly with status 3, and otherwise nothing happens |
| ServerDispatch.AcceptReply | src/srt-server.ts:254-255 | the accepted socket is subscribed, under the number that the reply carries, with mask 9 |
| ServerDispatch.AddReply | src/srt-server.ts:256-265 | only then exactly that socket gets an entry, without data so far |
| ServerDispatch.CreateCall | src/srt-socket-async.ts:38-47 | on a live handle a receiver socket is asked for unless dispose was called |
| ServerDispatch.CreateReply | src/srt-socket-async.ts:47-49 | the socket is the number that the reply carries |
| ServerDispatch.OpenCall | src/srt-server.ts:217-219 | on a live handle opening binds the socket to address and port in that order, with a socket and before dispose, and does nothing otherwise |
| ServerDispatch.BindReply | src/srt-server.ts:219-223 | -1 ends the opening, any other result makes the socket listen with a backlog of 65535 |
| ServerDispatch.ListenReply | src/srt-server.ts:223-228 | -1 ends the opening, after any other result an epoll container is created |
| ServerDispatch.EpollReply | src/srt-server.ts:228-240 | -1 ends the opening, any other result is the id to which the listener is subscribed with mask 9 |
| ServerDispatch.SubscribeReply | src/srt-server.ts:240-242 | the first poll, of that container with timeout 0, follows the subscription |
| ServerDispatch.TimerTurn | src/srt-server.ts:310-310 | a firing timer posts the same poll |
| ServerDispatch.PollReply | src/srt-server.ts:301-311 | on a live handle each event has its own state query, in the order of the events, and one new timer is left; a result that is no event list changes nothing |
| ServerDispatch.DisposeCall | src/srt-socket-async.ts:70-76 | a first dispose posts the close of the socket, and forgets the timer |
| ServerDispatch.CloseReply | src/srt-socket-async.ts:76-77 | the reply, whatever it says, starts the handle's disposal, which drops the worker in that turn exactly when no other call holds the lock |
| ServerDispatch.ConnectionCloseReply | src/srt-server.ts:276-277 | the reply to a connection's close changes nothing |
| ServerDraining.AcceptDraining | src/srt-server.ts:254-265 | an accept that is answered on a disposing handle makes its entry without a subscription |
| ServerDraining.ListenerDraining | src/srt-server.ts:253-265 | a listener found listening on a disposing handle makes an entry under undefined |
| ServerDraining.BrokenDraining | src/srt-server.ts:268-278 | a broken socket's close is not posted any more |
| ServerDraining.PollDraining | src/srt-server.ts:301-311 | the events of a last poll mark exactly the entries of the sockets they name other than the listener's, without a state query, and throw exactly when one of them has no entry; a timer is set once more |
| ServerDraining.OpeningDraining | src/srt-server.ts:219-242 | a bind or listen that succeeds now leaves an undefined epoll id and no poll |
| ServerDraining.EpollDraining | src/srt-server.ts:228-242 | a container created now is kept, and not polled |
| ServerDraining.TimerDraining | src/srt-server.ts:294-299 | a timer that fires now ends the loop |
| ServerGuarantees.AcceptedBeforeSeen | src/srt-server.ts:247-311 | in every interleaving an epoll event that reaches its handler names the listener or a socket already given an entry; as written the entry is still there |
| ServerGuarantees.MissingEntriesOnlyAfterClose | src/srt-server.ts:279-287 | as written the map has an entry for every accepted socket, closing a connection changes nothing and the throw is never reached; with handles kept only a removed entry can reach it |
| ServerGuarantees.OnePoll | src/srt-server.ts:294-311 | while a poll is in flight there is no second one and no pending timer |
| ServerGuarantees.OneTimer | src/srt-server.ts:305-317 | a pending timer is the only one, it is the remembered one, and no poll is in flight |
| ServerGuarantees.LoopStops | src/srt-server.ts:294-299 | once the handle is disposing no run posts a call and the timer fires at most once more |
| ServerGuarantees.DisposeCloses | src/srt-socket-async.ts:70-82 | a first dispose posts a close exactly when the socket is there and otherwise emits disposed at once; later ones only clear the timer |
| ServerGuarantees.SocketDisposal | src/srt-socket-async.ts:70-82 | over all overlapping disposals at most one call is posted, it closes the socket that create stored, the handle is disposed of only after its reply, disposed is emitted at most once and then with the worker gone and the socket null |
| ServerGuarantees.DisposeDuringCreateLeaks | src/srt-socket-async.ts:38-82 | a reachable state with disposed emitted, the created socket set, nothing in flight and the handle alive |
| ServerLoop.LoopEndsExactly | src/srt-server.ts:189-318 | after open, an open step, poll or timer is outstanding after a step exactly when one was before and the step is none of the listed ones: dispose with a timer pending, a firing with the handle disposing or no epoll id, or a reply that does not let the loop go on |
| ServerLoop.NoLoopBeforeOpen | src/srt-server.ts:217-242 | before open none is outstanding |
| ServerLoop.LoopStaysEnded | src/srt-server.ts:294-311 | no run revives a loop that has ended after open |

## Left out

* The native binding, the SRT enumerations, module loading, the client wrapper and the stream
  classes are not part of this model; native calls answer arbitrarily.
* `getReaderWriter`, `read` and `write` of SRTServerConnection, and closing a connection object that
  has already left the map: as written each is a single branch on a handle that is never stored.
* `setSocketFlags`, the passphrase check, `cloneChunks`, `isSafeFloat`, `wait`, logging, and the
  values that `dispose` and `terminate` return.
* Durations and the delay arithmetic of `setTimeout`; a pending timer may fire at any time.
* Event listeners run as steps of their own after the step that emits; what an `opened` listener
  does between storing the epoll id and subscribing the listener is not modelled.
* What the host does with a rejected promise that nobody handles, such as the one derived from each
  write of a writer that fails.
* SharedArrayBuffer, errors that escape the worker's handler, and messages without a method.
* Tools.SliceBufferToChunks: the chunk size is not negative; with a negative one the loop of the program does not end.
* Tools.CopyChunksIntoBuffer: the target is not one of the chunks and shares no memory with them.
* WaitFor.WaitForCondition: a run is described as far as its attempts are given; that the clock reaches a deadline is an input.
* ReadModes.ReadChunks: takes the results its reads resolve to; it does not claim that the loop ends, since failing reads are retried for ever.
* WriteModesGuarantees.YieldingLoop: `writesPerTick` is at least 1, since with less the loop spins without end; `onWrite` does not throw, and on a disposing handle, where it can change nothing, it is only logged.
* AsyncApi.AsyncSRT.Dispose: the exit code that the promise resolves to is not modelled.
* ServerGuarantees.SocketDisposal: says nothing about a handle that its other users dispose of.
