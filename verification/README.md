# xfnet in Dafny

A model of the protocols of xfnet, a reactor-style networking library in C++11, and proofs about them.
The system calls themselves are not modelled; what is modelled is the code around them:

- **Transfers.** `Stream::Send` and `Stream::Recv` in their three forms (cursor, scatter/gather list, timed), with the
  kernel as an arbitrary finite script of answers: n bytes, `EAGAIN`, `EINTR`, another error; a read of nothing is the
  end of the stream. A theorem about every script is a theorem about every fragmentation.
  Files: `Kernel.dfy`, `Transfer.dfy`, `IoVecs.dfy`, `Streams.dfy`.
- **The length-prefixed echo server.** The incremental parser and the resumable writer of the example server, on top of
  `Stream`, against the plain function that splits a byte string into frames; and `Send` called from any thread against
  `HandleWrite`. Files: `Framing.dfy`, `Echo.dfy`, `Outbox.dfy`.
- **`BlockingQueue` as a monitor** with two condition variables and `notify_one`. A step is one critical section, any
  number of threads take part, and sleeping threads and woken-but-not-resumed threads are explicit. Whole calls, through
  any number of waits, are followed from start to return. Files: `QueueMonitor.dfy`, `Queue.dfy`.
- **The timer worker pool**, shut down by one null handler ("pill") per worker, built on the monitor. File: `TimerPool.dfy`.
- **The event loops.** The handler map against the epoll interest set, the dispatch of one batch, the loop thread batch
  after batch while other threads register handlers, and the two-phase stop of a group of loops.
  Files: `Registry.dfy`, `Dispatch.dfy`, `Reactor.dfy`, `LoopGroup.dfy`.
- **Work distribution.** Addresses between the two queues of `TcpClient`, round-robin over a wrapping 32-bit counter, and
  the ownership of file descriptors. Files: `TcpClient.dfy`, `RoundRobin.dfy`, `FdOwnership.dfy`.

Code that updates fields or arrays is a class with methods, each proved against a specification function or a state
machine; what the library promises is then proved about that function or machine, over all inputs and all runs.

## Where the code and its comments or evident intent differ

The code is modelled as it stands, and the theorem says exactly when it does what it is for.

- The non-blocking `Send` and `Recv` move the pointer by what is left after the subtraction (src/net/stream.cpp:72-73 and
  179-180), the timed ones by what has moved (149-150, 244-245). Both rules are in the model, as `ByRemaining` and
  `ByCount`. `Transfer.CursorExact`: a call touches the right bytes and hands back the right cursor if and only if each of
  its system calls moved all that was asked for or exactly half of it. `Transfer.SafeSizes`: the code as written is safe
  whatever the kernel does if and only if at most two bytes are asked for. `Transfer.WrittenRuleStrays` and
  `Echo.SplitHeadMisread` are failing inputs. The echo invariant is stated for both rules, on the condition that the moves
  so far were good; under `ByCount` that is no condition. That condition is exact for the cursor; for the bytes it is
  sufficient only, since a misplaced byte may happen to have the right value.
- `UpdateIov` tests no count (src/net/stream.cpp:97-111), although its callers loop on the count and pass it complete
  transfers as well. Both the walk as written and the walk with that guard are in the model. `IoVecs.WalkExact`: the walk
  as written stays in memory if and only if something is left of all the entries from `iov` on; a single entry that has
  moved whole is a failing input (`IoVecs.WholeEntryLeavesMemory`). With the guard, `Streams.Stream.SendV` and `RecvV` are
  right for every list; without it a call leaves memory if and only if the whole list moves and nothing but empty entries
  follows it (for which lists no answers of the kernel bring that about says `Streams.StaysInMemoryExact`); otherwise it is
  right, except that the count it leaves after a complete transfer is zero if and only if the very next entry is
  non-empty, and negative otherwise.
- `EventLoop::Register` leaves the map entry in place when `EPOLL_CTL_ADD` fails (src/net/event_loop.cpp:74-82).
  `Registry.Agreement` says exactly when the map and epoll agree.
- `SetCapacity` notifies no producer (include/xfnet/queue.h:38-42), and a timed call reports a timeout without testing the
  queue again (66-69, 117-120), which can swallow a notification. `QueueMonitor.SetCapacityExact`: no wakeup can be lost if
  and only if the capacity is not raised. `QueueMonitor.LateTimeOutExact`: no wakeup can be lost if and only if no time
  limit is used where another thread may wait as well; the connect queue of `TcpClient`, with its one timed consumer, meets
  that (`TcpClient.ConnectThreadWakes`). `RaiseLoses`, `ConsumerLoses` and `ProducerLoses` are runs in which a wakeup is
  lost. All other steps lose none.
- A timed `Send` can return -2, which its header comment does not list (include/xfnet/stream.h:94-95).
  `Transfer.TimedSendResets` says exactly when.
- `InitTime` casts the interval to `int` before dividing (src/net/timer_manager.cpp:56). `TimerPool.InitTimeExact`: the
  time is right if and only if the interval is below 2^31 ms.

## Assumptions

- A `write` on a stream socket that is asked for more than nothing does not answer 0 (only `CursorExact` and its
  neighbours use this). The size of one system call fits the `int` that takes its answer.
- A 32-bit `int` is stored in little-endian order. A negative frame length ends the process, in `resize` or at the assertion
  behind `Recv`; the parser is modelled up to that point.
- The queues of the timer pool and of `TcpClient` have their default capacity and do not fill up.
- A handler whose `Send` is called is registered, and `Modify` succeeds. The only descriptor of a handler is its own, so that
  closing it takes the handler out of epoll.
- The state fields are sequentially consistent; every callback, `Select` and poll returns.

## Model

| member | source | states |
|---|---|---|
| `Transfer.CallShape` | src/net/stream.cpp:64-92 | for every script a call returns 1 exactly when nothing is left and -2 only from a read; the size handed back is the old size less the bytes moved |
| `Transfer.CallRest` | src/net/stream.cpp:75-89 | a call uses up the answers of the kernel from the front and returns 0 only at EAGAIN or where the answers end |
| `Transfer.CallEnds` | src/net/stream.cpp:172-203 | for every script: a call returns -1 if and only if it was answered with an error and -2 if and only if a read was answered with nothing, and it moves what the kernel was ready to move, up to all that was asked for; an interruption ends nothing |
| `Transfer.GoodMovesInPlace` | src/net/stream.cpp:65-92 | if every system call moved all or half of what was asked (always so under the timed loops' rule), the bytes moved are the next ones of the buffer, in order, and the cursor denotes the others |
| `Transfer.CursorExact` | src/net/stream.cpp:72-73 | the call is in place if and only if all its moves were of that kind, for every script |
| `Transfer.SafeSizes` | src/net/stream.cpp:65-92 | the code as written is in place for every script if and only if at most two bytes are asked for |
| `Transfer.WrittenRuleStrays` | src/net/stream.cpp:179-180 | a failing input: four bytes moved as one and three land at offsets 0, 3, 4 and 5 |
| `Transfer.AgainIsInvisible` | src/net/stream.cpp:77-80 | stopping at EAGAIN and entering again with the returned cursor is one call for which the kernel never said EAGAIN |
| `Transfer.ResumedIsOneCall` | src/net/stream.cpp:65-92 | any number of resumed calls together have the effect of one uninterrupted call |
| `Transfer.ResumedDelivers` | src/net/stream.cpp:65-92 | under either rule, resumed calls move the buffer once and in order if and only if every move was a good one, which under the rule of the timed loops it always is; they report 1 exactly at the end |
| `Transfer.TimedRefines` | src/net/stream.cpp:142-169 | a timed call whose waits succeed moves the same bytes, with the same verdict, as the resumed non-blocking calls |
| `Transfer.TimedCodes` | include/xfnet/stream.h:94-101 | for every script and every answers of poll a timed call moves a prefix of the buffer in order and returns 1 exactly if it is all of it |
| `Transfer.TimedEnds` | src/net/stream.cpp:142-169 | why a timed call ends short: an error of the kernel or of poll, the end of the stream or a reset, or a wait that timed out |
| `Transfer.TimedSendResets` | src/net/stream.cpp:154-161 | some script makes a timed send return -2 if and only if the first wait that fails reports a reset |
| `Streams.Stream.Send` | src/net/stream.cpp:65-92 | the loop puts out exactly the bytes, and hands back exactly the cursor and code, of the described call |
| `Streams.Stream.Recv` | src/net/stream.cpp:172-203 | the loop stores the peer's next bytes at exactly the described addresses and nowhere else |
| `Streams.SendDelivers` | src/net/stream.cpp:65-92 | what a send with good moves puts out is, byte by byte, what lies at the start of the buffer |
| `Streams.RecvDelivers` | src/net/stream.cpp:172-203 | a receive with good moves fills the start of the buffer with the peer's next bytes, address by address, and changes no other address |
| `Streams.Stream.SendTimed` | src/net/stream.cpp:142-169 | likewise for the timed send, poll's failures handed through |
| `Streams.Stream.RecvTimed` | src/net/stream.cpp:237-269 | likewise for the timed receive |
| `IoVecs.FlatAt` | src/net/stream.cpp:118 | the order of a transfer: byte i of entry j is the one at its base plus i and comes behind all bytes of the entries before it |
| `IoVecs.LeftIsDrop` | src/net/stream.cpp:94-112 | the guarded walk leaves a list that flattens to the old flattening without its first k addresses, for every k up to the whole, zero-length entries included |
| `IoVecs.WalkExact` | src/net/stream.cpp:97-111 | the walk as written stays in memory if and only if something is left, and then leaves what the guarded walk leaves |
| `IoVecs.WholeEntryLeavesMemory` | src/net/stream.cpp:99-104 | a failing input: one entry, moved whole |
| `IoVecs.ListAfterUpdate` | src/net/stream.cpp:94-112 | the walk as written on a list with any entries or none behind it: when it leaves memory, the unmoved part after a partial transfer, the exact sign of the count after a complete one |
| `IoVecs.UpdateIov` | src/net/stream.cpp:94-112 | the walk in place, as written: it strays exactly if the size is not below the total of the entries, and otherwise leaves the specified entries and none before them changed |
| `IoVecs.GuardedUpdateIov` | src/net/stream.cpp:94-116 | the walk in place under the callers' guard, for any transfer of the list up to all of it, with nothing required behind it |
| `IoVecs.UpdateList` | src/net/stream.cpp:116-122 | either walk on a list: the rest of it denotes exactly the unmoved bytes, entries behind it keep their values, and it strays exactly if unguarded, the whole has moved and only empty entries follow |
| `Streams.Stream.SendV` | src/net/stream.cpp:114-140 | for every list, guarded or as written: emits exactly the first n bytes the list denotes, and entry by entry the byte behind all those of the entries before it and i of its own is the one at its base plus i; leaves memory exactly if unguarded, all of it went out and only empty entries follow; otherwise returns 1 exactly after the whole and else leaves a list that denotes exactly the other bytes |
| `Streams.Stream.RecvV` | src/net/stream.cpp:205-235 | fills the first n addresses of the list with the peer's next n bytes; if no two entries share an address, byte i of each entry is the peer's byte at that place of the transfer, and nothing outside the entries changes; the same promises about the list and about leaving memory |
| `Streams.StaysInMemoryExact` | src/net/stream.cpp:114-140 | without a guard a call on a list stays in memory whatever the kernel answers if and only if a non-empty entry follows the list, or it reads into a list of no bytes |
| `Streams.VectorCallShape` | src/net/stream.cpp:114-140 | what the calls above describe: a prefix moves, 1 means all of it, any other code a proper remainder, -2 only from a read |
| `Streams.LandedInBuffers` | src/net/stream.cpp:205-235 | separate buffers read back the peer's bytes consecutively, and no other address has changed |
| `Framing.EncodeDecode` | tools/server_example.cpp:68-70 | storing the length just read restores the four header bytes |
| `Framing.SplitIntoFrames` | tools/server_example.cpp:28-29 | the plain splitting yields complete frames only and leaves no complete frame behind |
| `Framing.SplitUnique` | tools/server_example.cpp:28-29 | cutting a string into complete frames and an incomplete rest is possible in one way only, that of the splitting |
| `Framing.SplitInPieces` | tools/server_example.cpp:50-93 | reading a stream in two pieces gives the frames of the whole |
| `Framing.PackIsFrame` | tools/client_example.cpp:59-64 | what the client sends for a message is a frame: its length in four little-endian bytes and then the message itself |
| `Framing.RoundTrip` | tools/client_example.cpp:59-64 | splitting what a client sends for any list of messages, empty ones included, gives the messages back |
| `Echo.TestEventHandler.constructor` | tools/server_example.cpp:34-41 | a fresh handler satisfies the invariant |
| `Echo.TestEventHandler.Send` | tools/server_example.cpp:43-49 | appends the packet, arms write interest, and keeps "written, unsent and queued bytes are what was handed in" |
| `Echo.TestEventHandler.HandleRead` | tools/server_example.cpp:50-93 | keeps the echo invariant for every fragmentation, hands the new frames to Send in order, and returns true only when the kernel had nothing more; of the answers it took, it closes the connection if and only if one was an error or an empty read, and it aborts only on a negative length, so without these it returns true; a head that arrives alone leads to a body of the length m_head then holds |
| `Echo.TestEventHandler.SendFront` | tools/server_example.cpp:110-120 | a write keeps the echo invariant; a complete one leads into the window before pop_front, where the front packet is out and still queued |
| `Echo.TestEventHandler.WriteRound` | tools/server_example.cpp:96-124 | one round through that window and out of it keeps the invariant |
| `Echo.TestEventHandler.HandleWrite` | tools/server_example.cpp:94-126 | keeps the invariant, removes packets only from the front, and closes the connection if and only if a write was answered with an error; otherwise it stops only with all out and write interest off, or at EAGAIN with packets left and write interest on |
| `Echo.EchoInvariant` | tools/server_example.cpp:43-126 | inside the loops and between callbacks: bytes read are bytes written, unsent end of the packet in flight, packets queued and the partial frame in the fields, and byte i written is byte i of the peer's stream; between callbacks the frames handed on are exactly the splitting of the bytes read |
| `Echo.EchoInWindow` | tools/server_example.cpp:120-123 | the same equation in the window after a complete write and before pop_front |
| `Echo.Serve` | tools/server_example.cpp:50-126 | so after any run of callbacks on any answers of the kernel, and the output is a prefix of the peer's stream, byte by byte; without an error or an empty read among the answers the connection is not closed, and only a negative length aborts |
| `Echo.MessagesEchoed` | tools/client_example.cpp:59-64 | if what was received is the frames of some messages, empty ones included, exactly those frames were handed on, nothing is left over, and once all is written they are what was written |
| `Echo.SplitHeadMisread` | tools/server_example.cpp:56-68 | a failing input of the code as written, whatever m_head held before: a head that arrives as one byte and three is read as a length above 2^24 instead of 261 |
| `Echo.MisreadHead` | tools/server_example.cpp:50-93 | HandleRead on that input goes on to wait for a body of more than 2^24 bytes, and the echo invariant fails |
| `Outbox.StepKeepsInv` | tools/server_example.cpp:43-49 | every critical section and every write, on any answers of the kernel and under either cursor rule, keeps the arming of write interest and, as long as the moves are good, the account of the bytes, also between a complete write and its pop_front |
| `Outbox.NoStrandedOutput` | tools/server_example.cpp:98-123 | in every interleaving of senders and for any moves: packets queued means write interest armed, outside HandleWrite it is armed only then, and the front packet is there whenever it is written or popped |
| `Outbox.OutputInOrder` | tools/server_example.cpp:43-126 | in every interleaving with good moves: what is written is the start of everything handed in, in lock order, and all of it once write interest is off |
| `QueueMonitor.StepKeepsAwake` | include/xfnet/queue.h:50-126 | every step but a late timeout and a rise of the capacity keeps: next to a sleeping consumer each entry has a woken consumer, next to a sleeping producer each free slot has a woken producer |
| `QueueMonitor.LateTimeOutExact` | include/xfnet/queue.h:115-121 | over all runs of given callers, late timeouts lose no wakeup if and only if no time limit is used on a condition where another thread may wait |
| `QueueMonitor.SetCapacityExact` | include/xfnet/queue.h:38-42 | from every reachable state, setting the capacity loses no wakeup if and only if it does not raise it |
| `QueueMonitor.ConsumerLoses` | include/xfnet/queue.h:112-126 | for any two consumers of which one has a time limit: a run that ends with the other asleep next to an entry and nobody woken |
| `QueueMonitor.ProducerLoses` | include/xfnet/queue.h:61-74 | the same for two producers, next to a free slot |
| `QueueMonitor.RaiseLoses` | include/xfnet/queue.h:38-42 | for any rise of the capacity: a run that leaves a producer asleep next to a free slot, with nobody woken |
| `QueueMonitor.NoLostWakeup` | include/xfnet/queue.h:50-126 | in every interleaving in which the capacity is never raised and late timeouts do not occur or hit only lone waiters: entries and free slots are covered one for one by woken threads, the capacity holds, and a sleeping producer and a sleeping consumer are never stuck together |
| `QueueMonitor.Linearizable` | include/xfnet/queue.h:50-126 | in every interleaving the values pushed are, in commit order, the values popped and then the queue |
| `Queue.WholePush` | include/xfnet/queue.h:50-74 | in every interleaving and through any number of waits, a push has appended nothing while it waits, nothing ever if it gives up, which takes a time limit, and its value exactly once otherwise |
| `Queue.WholePop` | include/xfnet/queue.h:100-126 | in every interleaving a pop takes exactly one entry if it returns, and none while it waits or when it gives up, which takes a time limit |
| `Queue.HistoryOfRun` | include/xfnet/queue.h:50-126 | over every run the histories grow by exactly what its steps commit, and what one thread pushes and pops is exactly its share |
| `Queue.PushInHistory` | include/xfnet/queue.h:50-74 | so the history holds the value of a push exactly once under its thread, or not at all if it gives up or waits |
| `Queue.PopInHistory` | include/xfnet/queue.h:100-126 | likewise one entry for a pop |
| `Queue.WaitEnds` | include/xfnet/queue.h:103-121 | behind any run of the other threads a wait ends exactly with the next thing its own thread does: let run on after it was woken, it has the mutex again, and a timeout ends it; until then it goes on |
| `Queue.CallEnds` | include/xfnet/queue.h:50-126 | over every run in which its thread begins no other call, a sleeping call still waits exactly if its thread does, reports a timeout exactly if its thread gave up, and is done otherwise: notified, let run and with room or an entry there, it gets on |
| `Queue.BlockingQueue.Wait` | include/xfnet/queue.h:103-106 | a wait runs other threads' steps until this one, woken, is let run on or gives up, exactly where `Queue.WaitEnds` says; its place, value and time limit do not change meanwhile |
| `Queue.BlockingQueue.Push` | include/xfnet/queue.h:50-74 | the whole call with its wait loop, whatever other threads do: its own steps have appended the value exactly once if it returns true, and nothing if it times out or still waits; with room it returns at once, and otherwise it is done, timed out or waiting exactly as `Queue.CallEnds` says |
| `Queue.BlockingQueue.Pop` | include/xfnet/queue.h:100-126 | the whole call: its own steps have taken exactly the value handed back, or nothing and the argument is unchanged; with an entry there it returns at once, and otherwise it is done, timed out or waiting exactly as `Queue.CallEnds` says |
| `Queue.BlockingQueue.TryPush` | include/xfnet/queue.h:76-86 | without waiting: appends and notifies one consumer if there is room, and otherwise changes nothing |
| `Queue.BlockingQueue.TryPop` | include/xfnet/queue.h:88-99 | without waiting: takes the front and notifies one producer, or changes nothing |
| `TimerPool.RunKeepsInv` | src/net/timer_manager.cpp:102-116 | in every run the pills taken are the workers gone, and each handler popped is being executed or has been, once |
| `TimerPool.ExactShutdown` | src/net/timer_manager.cpp:42-52 | when Join returns, what was popped is what was pushed up to the last pill, each handler among it was executed exactly once, every worker took exactly one pill, and the rest of the queue lies behind the last pill |
| `TimerPool.NoDeadlock` | src/net/timer_manager.cpp:44-49 | after the pills are pushed some worker can take a step until all have exited, without spurious wakeups |
| `TimerPool.ShutdownEnds` | src/net/timer_manager.cpp:102-116 | the workers take at most a computed number of further steps however timers fire, and once they have, Join can return |
| `TimerPool.StepUsesWork` | src/net/timer_handler.cpp:27-38 | an expiring timer does not add to that number, a worker's step lowers it |
| `TimerPool.WorkThread` | src/net/timer_manager.cpp:102-116 | with no other worker in between: every entry in front of the first pill is a handler whose callback is executed, in order and each once; takes the pill and leaves the rest |
| `TimerPool.TimerManager.Stop` | src/net/timer_manager.cpp:42-52 | with timers expiring and workers running in any order: Stop returns, the pool is shut exactly with one pill for each worker, every handler queued before has been executed, and the loop thread has returned |
| `TimerPool.TimerManager.StopLoop` | src/net/timer_manager.cpp:51 | stopping the loop at the end, while timers go on expiring in its last Select, leaves the pool shut and the loop stopped with at most one Select since it was asked |
| `TimerPool.TimerManager.Join` | src/net/timer_manager.cpp:49 | the wait for the workers ends, in any order of their steps |
| `TimerPool.InitTimeExact` | src/net/timer_manager.cpp:54-60 | the timer gets the interval asked for if and only if that is below 2^31 ms; the nanoseconds are always below 10^9, and above the bound the seconds are those of the negative cast value, truncated towards zero |
| `Registry.StepKeepsInv` | src/net/event_loop.cpp:72-99 | where every handler stands, over the four half-steps of Register and Unregister and the taking and losing of shared pointers |
| `Registry.Agreement` | src/net/event_loop.cpp:72-99 | in every disciplined interleaving epoll points only to handlers in the map, to ones an Unregister in flight keeps alive, or to ones whose DEL failed and that are held outside; at rest map and epoll agree if and only if no failed ADD is left in the map and none of the last kind exists; with nothing held outside, only failed ADDs matter |
| `Registry.AgreementWithoutFailures` | src/net/event_loop.cpp:72-99 | if epoll_ctl never fails, map and epoll are equal whenever no call is in flight, and epoll has only handlers in the map or in the hands of an Unregister at any time |
| `Registry.RunKeepsHeld` | src/net/stream.cpp:37-44 | in every run, disciplined or not, every handler epoll points to is alive, as its destruction closes the descriptor |
| `Registry.EarlyUnregisterLoses` | src/net/event_loop.cpp:85-99 | from any state, an Unregister that overtakes the ADD of its handler leaves it watched outside the map, and silently unwatched once Register's caller lets go of it |
| `Registry.EventLoop.Register` | src/net/event_loop.cpp:72-83 | an uninterrupted Register is the two half-steps; a failed ADD leaves the map entry |
| `Registry.EventLoop.Unregister` | src/net/event_loop.cpp:85-99 | an uninterrupted Unregister, with the destruction of the handler if h_ptr was the last pointer; a handler not in the map is no failure |
| `Dispatch.PlanExact` | src/net/selector.cpp:91-109 | which callbacks an event leads to: HandleRead exactly if readable, HandleWrite exactly if writable and no HandleRead returned false, HandleError exactly if in error and neither did, in this order and each once |
| `Dispatch.Selector.DispatchOne` | src/net/selector.cpp:86-109 | the callbacks for one event, in order, stopping at the first false; all on a handler in the map if and only if none that unregistered lets another follow |
| `Dispatch.Selector.Select` | src/net/selector.cpp:80-110 | the same for a batch of handlers in the map, while other threads register handlers; callbacks that keep their contract are always safe |
| `Reactor.WaitGivesGoodBatch` | src/net/selector.cpp:84-89 | whatever batch epoll_wait returns, its handlers are all in the map at that moment |
| `Reactor.StepKeepsInv` | src/net/selector.cpp:80-110 | every step of the loop thread and of other threads' Register keeps the registry, the rest of the batch and the current handler in order |
| `Reactor.NoAbsentHandler` | src/net/selector.cpp:80-110 | over any number of Select calls, with other threads' two-step registrations in between, no callback is made on a handler absent from the map |
| `Reactor.BatchDispatched` | src/net/selector.cpp:86-110 | nothing reported is passed over: from one epoll_wait until the next, whatever other threads do, the callbacks made are exactly those the batch calls for, event by event in its order, each cut off after the first HandleRead or HandleWrite that returned false |
| `Reactor.FailedDelIsDispatched` | src/net/event_handler.cpp:40-43 | the condition used there is needed: a DEL that fails for a watched handler held elsewhere can lead to a callback on a handler outside the map |
| `Reactor.FailedDelIsReachable` | src/net/selector.cpp:80-95 | the state that starts from is reached: register, one event, and an Unregister in its callback |
| `LoopGroup.StopIsExact` | src/net/event_loop.cpp:127-137 | in every interleaving: when Stop returns every thread has returned and every loop is STOPPED, and no loop completes more than one Select after it was asked, counted over the steps of the run |
| `LoopGroup.StopEnds` | src/net/event_loop.cpp:102-137 | after the first pass every step uses up work, and one is possible until Stop returns |
| `LoopGroup.EventLoopGroup.Stop` | src/net/event_loop.cpp:127-137 | the two loops, with the threads taking any turns in between: ends with every thread returned, every loop stopped, and at most one Select completed since each was asked |
| `TcpClient.StepConserves` | src/net/tcp_client.cpp:64-101 | every step keeps each address in as many places as it was added times |
| `TcpClient.EveryAddressAccounted` | src/net/tcp_client.cpp:64-101 | so in every run with concurrent adds: connect queue, failed queue, in hand, served or dropped |
| `TcpClient.MigrationKeepsOrder` | src/net/tcp_client.cpp:83-86 | the migration loop, with concurrent adds, moves the failed queue in order and without loss, at every moment; at its end all of it has moved |
| `TcpClient.TcpClient.Migrate` | src/net/tcp_client.cpp:83-86 | the loop, with other threads adding at every step: the failed queue moves to the connect queue whole and in order, and no address is lost |
| `TcpClient.TcpClient.Connect` | src/net/tcp_client.cpp:77-101 | for every state of the queues, with other threads adding while the Pop waits and while it dials, a late timeout included: an address that could not be dialled is given up, one accepted is served, one refused goes to the failed queue, with the other places unchanged and the connect queue its rest followed by the adds; true exactly for an accepted one; every address still accounted for |
| `TcpClient.ConnectThreadWakes` | src/net/tcp_client.cpp:77-88 | the connect thread is the one waiter on its queue, so even late timeouts lose no wakeup: it never sleeps on next to an address |
| `RoundRobin.Assigner.Pick` | src/net/tcp_server.cpp:88 | the wrapping counter picks, at assignment k, loop k mod 2^32 mod n |
| `RoundRobin.PicksInTurn` | src/net/tcp_server.cpp:88 | the loops take turns: the first assignment goes to loop 0, each further one to the next loop, and only a wrap of the counter starts again with loop 0 |
| `RoundRobin.Balanced` | src/net/tcp_client.cpp:72 | after any number of assignments two loads differ by at most one plus the number of wraps |
| `RoundRobin.AlwaysBalanced` | include/xfnet/tcp_server.h:36 | the loads stay within one forever if and only if the number of loops divides 2^32; the default of four does |
| `FdOwnership.StepKeepsOwned` | include/xfnet/stream.h:48-52 | opening, wrapping, moving, closing and destroying keep: each open descriptor has exactly one owner |
| `FdOwnership.MoveThenDestroy` | include/xfnet/stream.h:48-54 | after a move, destroying the stream moved from closes nothing, and destroying the one moved to closes exactly the descriptor |
| `FdOwnership.LinearOwnership` | src/net/stream.cpp:26-44 | over every sequence of these, no descriptor is held twice, each is closed as often as opened less the once it may be open, and none stays open without an owner |
| `FdOwnership.Connect` | src/net/connector.cpp:29-59 | the stream returned holds the descriptor if and only if some connect succeeded with nothing but interruptions and sockets found writable before it; otherwise it is invalid and the descriptor was closed |

## Left out

- Real sockets, `poll`, `epoll`, `timerfd` and `errno` plumbing; they appear as scripts of answers and an interest set.
- `Address` parsing and printing, socket options, `Acceptor::Open`, signal setup, version numbers: thin wrappers.
- Wall-clock time and the accuracy of timers and timeouts; a timeout is a step that may happen at any time.
- Weak-memory effects of the `volatile` state fields.
- `RemoveTimer` from another thread while a batch is dispatched; `Dispatch.Selector.Select` excludes it.
- `Start` and `Stop` of `TcpServer` and `TcpClient` and the failures of thread creation: sequences of calls modelled elsewhere.
- Queues that fill up between the threads of `TcpClient` or of the timer pool.
- Builds with assertions switched off, where a negative frame length does not end the process.
- Allocation failures and exceptions.
- TimerPool.WorkThread: one worker with no other in between; all interleavings are those of the pool's steps, in `TimerPool.ExactShutdown` and `TimerPool.TimerManager.Stop`.
- Registry.EventLoop.Register: not interrupted by other threads; the interleavings are those of the half-steps, in `Registry.Agreement`.
- Registry.EventLoop.Unregister: likewise.
- Dispatch.Selector.Select: one batch, taken to be of handlers in the map; that this holds, and for batch after batch, is `Reactor.WaitGivesGoodBatch` and `Reactor.NoAbsentHandler`.
