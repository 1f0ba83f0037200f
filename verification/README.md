# Verified models of gsdm and State Threads

This project models the parts of the repository whose correctness rests on arguments that no single
function body shows, and proves those arguments with Dafny 4.11. `dafny verify dfyconfig.toml` checks
everything.

System calls, clocks and readiness are inputs: a short write, an interrupted call, the set of ready
descriptors, the time, the address that the allocator picks. Everything is proved for every choice of
them.

| file | models | form |
|---|---|---|
| `TimeoutHeap.dfy` | the pointer-linked timeout heap of State Threads and the clock pass | classes with pointers rewritten in place |
| `Lists.dfy`, `ThreadStates.dfy` | lists without repetition; what a thread object records | values |
| `Scheduler.dfy` | the whole thread scheduler as a step machine: run, I/O, zombie, condition and mutex queues | values and steps; every run is covered |
| `CallEffects.dfy` | what each library call answers and leaves behind, in terms of the states before and after its step | lemmas |
| `VirtualProcessor.dfy` | the same calls as code that assigns to thread objects and to the real timeout heap, proved equal to the steps | class |
| `EventSpec.dfy` | what an event system owes the scheduler: reference counts and the wake-up relation | values |
| `SelectSystem.dfy`, `PollSystem.dfy`, `EpollSystem.dfy` | the three event systems, each proved against `EventSpec` | classes |
| `CommandQueue.dfy`, `CommandCalls.dfy` | the lock-free command queue between two threads, one atomic access at a time, and what its calls do from beginning to end | step machine over an explicit heap |
| `LruSpec.dfy`, `LruHoldings.dfy`, `LruCache.dfy` | the LRU cache: as a bounded map, what its reference counts mean, and as hash chains with back-pointers | values, and a class over an explicit heap |
| `WebSocket.dfy`, `WebSocketProtocol.dfy`, `WebSocketWire.dfy` | the WebSocket parser and printer: on byte sequences, as the object that parses and unmasks in place, and byte by byte on the wire | values, and a class |
| `Bytes.dfy`, `IoBuffer.dfy`, `SendPath.dfy` | the growing byte buffer and the path of a sent message through it | classes |
| `VectoredIo.dfy` | scattered reads and gathered writes that may move any number of bytes | class and arrays |
| `LocalTime.dfy` | the integer conversion from seconds to a calendar date | 32-bit arithmetic |
| `Composition.dfy` | that the event systems wake what the scheduler model assumes of dispatch | lemmas |
| `Timers.dfy` | the timer pass and the result that keeps the worker loop going | class |

## What was found

Most of what the code promises holds without conditions. Where it does not, the exact condition is proved:

* A message that is accepted by `SendMsg` is appended to the stream, but a refused one may already be
  partly on the wire. This cannot happen exactly if the message is at most one byte longer than
  `send_buffer_size_`, or more than 8 MiB are waiting (`SendPath.OrderIsKeptWhen`). Over a run the stream
  is the accepted messages exactly if nothing of a refused one leaked (`SendPath.EveryRunIsOrdered`). Both
  presuppose that no message overtakes waiting bytes. `SendMsg` keeps their number in 32 bits, and takes
  2^32 waiting bytes for none: it then sends the next message in front of them and stops asking to be told
  when it can write. This cannot happen exactly if fewer than 2^32 bytes wait, or one flush cannot bring
  their number to a multiple of that (`SendPath.NeverOvertakesWhen`). It does not happen in a run in which
  no sum of waiting bytes and message leaves 32 bits; one from a new connection in which it happens, and in
  which nothing is refused, is `SendPath.OrderCanBeLost`. The
  bound on the waiting bytes holds exactly if their number and the message length do not wrap around in
  32 bits (`SendPath.BoundIsKeptWhen`). `SendMsg` reports success for a message that it drops exactly
  when the connection is not connected (`SendPath.SuccessIsSilentWhen`).
* `IOBuffer::EnsureSize` narrows the growth it wants to 32 bits. It leaves the requested room exactly if
  it does not stretch the request, or stretching carries nothing out of the low 32 bits, or the request is
  no larger than the smallest chunk (`IoBuffer.GrowthLeavesRoom`, and for up to 12 GiB more simply
  `IoBuffer.GrowthBelow12GiB`). Below 3 GiB nothing is lost (`IoBuffer.SmallBuffersGrow`), at 3 GiB it can
  be (`IoBuffer.TruncationExample`), and then the copy behind it runs past the end of the array. The
  output buffer of a connection stays below 3 GiB if its limit is at most 1 GiB
  (`SendPath.Connection.SendMsg`).
* The weight test of the LRU cache wraps around in 64 bits. Insertion respects the limits exactly if the
  sum does not wrap, or the cache is full of entries in use, or what makes way for the entry is heavy
  enough (`LruSpec.InsertRespectsLimitsWhen`); with a limit below half of the range nothing is
  (`LruSpec.InsertBelowHalfRange`, with an instance in `LruSpec.WrapAroundExample`). Over a run the limits
  hold all along exactly if every insertion meets that condition; everything else that is proved of the
  cache holds of every run (`LruSpec.EveryRunRespectsLimits`).
* A WebSocket message arrives as it was sent exactly if its length fits in 32 bits: the length of the
  collected fragments is cut to that (`WebSocket.DeliveredWhen`). A call that uses 2 GiB or more of the
  data reports a negative number, like one that closes (`WebSocketProtocol.WSProtocol.HandlerProtocol`).
* A condition signal can be lost without a trace: `st_cond_timedwait` hides a signal spent on it exactly
  if an interrupt followed before the thread ran (`Scheduler.WaitResult`,
  `Scheduler.InterruptSwallowsSignal`); a run from the start in which this happens is
  `Scheduler.SwallowingRunExists`. It is never lost to a timeout.
* After an interrupted `epoll_wait` the worker loop takes a point in time for a sleeping time
  (`Timers.Pulse`). Only then does it sleep for longer than a second.
* `gsdm_localtime_r` accepts a negative zone, and is right exactly if the zone's clock does not stand
  before 1970 (`LocalTime.LocalTimeR`).
* A WebSocket close is acted upon exactly if its payload is two bytes long (`WebSocket.CloseIsSeenWhen`);
  section 5.5.1 of RFC 6455 also allows a close without a status code and one with a reason.
* A timer pass ends exactly if every due timer has a positive period (`Timers.PassEndsWhen`).
* epoll tells a woken poll more than poll does when a descriptor is in error, but wakes the same threads
  (`EpollSystem.WideningWakesTheSame`).

## Model

| member | source | states |
|---|---|---|
| TimeoutHeap.Vp.HeapInsert | 3rdparty/st/sched.c:339-372 | the walk steered by the bits of the index puts the thread into the left-complete tree with every link, index and due order right, whatever node it displaces on the way |
| TimeoutHeap.Vp.Insert | 3rdparty/st/sched.c:339-372 | inserting at the next free number leaves a valid heap of the old nodes and the new one |
| TimeoutHeap.Vp.HeapDelete | 3rdparty/st/sched.c:378-448 | a valid heap of the other nodes is left, and the links of the removed thread are null |
| TimeoutHeap.Vp.SiftDown | 3rdparty/st/sched.c:413-445 | moving the former last node down past its earlier child repairs the order |
| TimeoutHeap.Vp.AddSleepQ | 3rdparty/st/sched.c:451-457 | the sleep queue stays a valid heap and gains exactly this thread, due timeout after the last clock |
| TimeoutHeap.Vp.DelSleepQ | 3rdparty/st/sched.c:460-464 | the sleep queue stays a valid heap and loses exactly this thread |
| TimeoutHeap.Vp.CheckClock | 3rdparty/st/sched.c:467-497 | exactly the sleepers due by now become runnable, appended in non-decreasing due order, exactly those in COND_WAIT are marked timed out, and a valid heap of the others is left |
| TimeoutHeap.RootIsFirst | 3rdparty/st/sched.c:473-477 | nobody in a heap is due before its root |
| TimeoutHeap.SinkOrder | 3rdparty/st/sched.c:424-442 | exchanging a node with its earlier child leaves only the new position to be repaired |
| TimeoutHeap.NextIndex | 3rdparty/st/sched.c:351-367 | the bits of the target index name the path from the root: each step appends one binary digit |
| Scheduler.EveryRunIsDisciplined | 3rdparty/st/sched.c:60-312 | over every run no thread is on the run queue twice, every thread but the current and the idle one is on the run queue, on the sleep queue and on the zombie queue exactly as its state says, and the current thread, the only one that a call puts on the sleep queue, is not on it |
| Scheduler.StepKeeps | 3rdparty/st/sched.c:60-128 | no step of any thread, of the clock or of dispatch breaks the invariant or touches a thread that is gone |
| Scheduler.IdleSeesOnlyWaiters | 3rdparty/st/sched.c:216-236 | when the idle thread runs, every poll still queued belongs to a thread waiting for I/O, so dispatch need not look at states |
| Scheduler.BootInv | 3rdparty/st/sched.c:134-192 | the state after initialisation satisfies the invariant |
| Scheduler.TurnWakes | 3rdparty/st/sched.c:216-236 | one idle turn wakes exactly the pollers that fired, in queue order, and then the other sleepers that are due, in due order |
| Scheduler.DispatchQueue | 3rdparty/st/event.c:363-398 | dispatch appends the fired pollers to the run queue in the order of the I/O queue |
| Scheduler.DispatchIoQ | 3rdparty/st/event.c:363-398 | dispatch takes exactly the fired pollers off the I/O queue |
| Scheduler.WakeDueThreads | 3rdparty/st/sched.c:467-497 | the clock pass changes only sleepers that are due, and sets the timeout flag on exactly those in COND_WAIT |
| Scheduler.NoOvertaking | 3rdparty/st/sched.c:111-128 | no step overtakes: each runnable thread keeps its place or moves up by one, and one that leaves the front runs |
| Scheduler.ServedInTurn | 3rdparty/st/sched.c:111-128 | over every run a runnable thread moves up one place each time the front of the run queue is taken, and one at place k runs when it is taken for the time k + 1 |
| Scheduler.ScheduleKeeps | 3rdparty/st/sched.c:111-128 | a context switch keeps the invariant, whoever runs next |
| Scheduler.PollKeeps | 3rdparty/st/sched.c:60-83 | a poll that blocks leaves its thread waiting for I/O and, with a timeout, asleep, and the invariant holds behind the context switch |
| Scheduler.SleepKeeps | 3rdparty/st/sync.c:115-131 | the same for a sleep, with and without an end |
| Scheduler.CondWaitKeeps | 3rdparty/st/sync.c:180-198 | the same for a wait on a condition variable, that of joining included |
| Scheduler.LockWaitKeeps | 3rdparty/st/sync.c:306-315 | the same for a wait for a mutex |
| Scheduler.UnlockHandsToEarliest | 3rdparty/st/sync.c:329-354 | unlock gives the mutex to the earliest waiter still in LOCK_WAIT, or frees it if there is none, and affects nobody else |
| Scheduler.LockReturnsToOwner | 3rdparty/st/sync.c:290-326 | a lock succeeds at once exactly if it is not interrupted and the mutex is free, and returns 0 only to the owner; a wait fails exactly if it was interrupted before ownership arrived, and a later interrupt stays pending |
| Scheduler.FreeMutexHasNoWaiter | 3rdparty/st/sync.c:329-354 | a free mutex has no waiter in LOCK_WAIT |
| Scheduler.OnlyOwnerReleases | 3rdparty/st/sync.c:290-368 | no step but an unlock by the owner ends the ownership of a mutex |
| Scheduler.MutualExclusion | 3rdparty/st/sync.c:290-368 | over every run in which the owner of a mutex does not unlock it, it stays the owner, and no lock or trylock of another thread succeeds, at once or after waiting |
| Scheduler.SignalWakesEarliest | 3rdparty/st/sync.c:224-244 | a signal wakes the earliest waiter still in COND_WAIT and is never spent on one that a timeout or interrupt already woke |
| Scheduler.WaitResult | 3rdparty/st/sync.c:180-215 | a timed wait returns 0 exactly if it was signalled and not interrupted, and ETIME only if no signal was spent on it |
| Scheduler.InterruptSwallowsSignal | 3rdparty/st/sync.c:180-256 | a signal followed by an interrupt leaves a thread that reports the interrupt only, whenever it runs again |
| Scheduler.SwallowingRunExists | 3rdparty/st/sync.c:180-256 | there is a run from initialisation at whose end a signalled thread returns from its wait with EINTR |
| Scheduler.UnlockKeeps | 3rdparty/st/sync.c:329-354 | handing over a mutex keeps the invariant, also for waiters that were interrupted meanwhile |
| Scheduler.InterruptKeeps | 3rdparty/st/sched.c:500-517 | an interrupt keeps the invariant whatever the target waits for |
| Scheduler.DispatchKeeps | 3rdparty/st/event.c:363-398 | making pollers runnable without looking at their states keeps the invariant while the idle thread runs |
| Scheduler.WakeDueKeeps | 3rdparty/st/sched.c:467-497 | the clock pass keeps the invariant |
| Scheduler.ExitKeeps | 3rdparty/st/sched.c:239-272 | an ending thread becomes a zombie or disappears, and the invariant holds |
| Scheduler.JoinKeeps | 3rdparty/st/sched.c:275-312 | joining waits for the target or takes it over, and never follows a thread that is gone |
| CallEffects.LockEffect | 3rdparty/st/sync.c:290-314 | a lock reports a pending interrupt, takes a free mutex, answers EDEADLK to its owner, or waits in LOCK_WAIT as the last of the queue, and changes nothing else |
| CallEffects.LockResult | 3rdparty/st/sync.c:314-326 | a lock that waited leaves the queue and returns 0, unless it was interrupted and is not the owner; only then is the interrupt taken |
| CallEffects.TryLockEffect | 3rdparty/st/sync.c:357-368 | a trylock takes a free mutex, and otherwise answers EBUSY and changes nothing |
| CallEffects.UnlockEffect | 3rdparty/st/sync.c:329-354 | an unlock by another thread answers EPERM and changes nothing; one by the owner makes the earliest waiter in LOCK_WAIT owner and runnable, or frees the mutex |
| CallEffects.CondWaitEffect | 3rdparty/st/sync.c:180-198 | a wait reports a pending interrupt or is the last of the queue in COND_WAIT, asleep if it has a timeout, and the next thread runs |
| CallEffects.CondWaitResult | 3rdparty/st/sync.c:198-215 | a wait that ends leaves the queue, takes its flags down, and reports an interrupt, or else a timeout, or else success |
| CallEffects.SignalEffect | 3rdparty/st/sync.c:224-251 | a signal wakes the earliest waiter in COND_WAIT, or changes nothing |
| CallEffects.BroadcastEffect | 3rdparty/st/sync.c:224-256 | a broadcast wakes every waiter in COND_WAIT, in queue order behind all runnable threads and marked as signalled, and nobody else changes |
| CallEffects.SleepEffect | 3rdparty/st/sync.c:115-131 | a sleep reports a pending interrupt or leaves its thread asleep, or suspended without an end |
| CallEffects.SleepResult | 3rdparty/st/sync.c:131-140 | a sleep that ends reports a pending interrupt, or else success |
| CallEffects.PollEffect | 3rdparty/st/sched.c:60-83 | a poll reports a pending interrupt, or that its descriptors were refused, or is the last of the I/O queue in IO_WAIT, asleep if it has a timeout |
| CallEffects.PollResult | 3rdparty/st/sched.c:83-107 | a poll that resumes reports a pending interrupt, or else readiness exactly if it is off the I/O queue, which it leaves now if it is not |
| CallEffects.PollReadyWhen | 3rdparty/st/sched.c:60-107 | whatever happens between a poll and its end, it reports an interrupt if one is pending then, and otherwise readiness exactly if a dispatch in between found it ready |
| CallEffects.TurnState | 3rdparty/st/sched.c:216-236 | the whole state after a turn of the idle thread: the fired pollers in queue order and then the other due sleepers are awake, the first of them runs, the clock is set, and nobody else is affected |
| CallEffects.InterruptEffect | 3rdparty/st/sched.c:500-517 | an interrupt does nothing to a zombie, raises the flag of any other thread, and makes a waiting one runnable |
| CallEffects.CreateEffect | 3rdparty/st/sched.c:520-612 | a new thread is runnable behind all others, with no flag up |
| CallEffects.ExitEffect | 3rdparty/st/sched.c:239-272 | a joinable thread that ends becomes a zombie and signals its joiner, another one is gone, and the next thread runs |
| CallEffects.JoinEffect | 3rdparty/st/sched.c:275-312 | a join answers EINVAL or EDEADLK to a wrong target, takes over a zombie, reports a pending interrupt, or waits |
| CallEffects.JoinResult | 3rdparty/st/sched.c:295-312 | a join that resumes reports an interrupt, or else takes over its target, which is a zombie then |
| VirtualProcessor.Processor.Do | 3rdparty/st/sched.c:60-312 | whatever the current thread does, the code that assigns to thread objects and to the pointer-linked heap does exactly the step of the machine; the heap stays a valid heap of the sleepers and the invariant holds again |
| VirtualProcessor.Processor.IdleTurn | 3rdparty/st/sched.c:216-236 | a turn of the idle thread over the real heap is a turn of the machine, in an order of the due sleepers that the machine allows |
| VirtualProcessor.Processor.AddSleepQ | 3rdparty/st/sched.c:451-457 | a thread that is not in the heap is inserted into it, and everything but that thread's flag and due time is as before |
| VirtualProcessor.Processor.DelSleepQ | 3rdparty/st/sched.c:460-464 | a thread that is in the heap leaves it, and everything but that thread's flag is as before |
| VirtualProcessor.Processor.CheckClock | 3rdparty/st/sched.c:467-497 | the pass over the heap is the clock pass of the machine: it leaves exactly the state prescribed for the order in which the heap gave up the sleepers |
| VirtualProcessor.PassIsClockPass | 3rdparty/st/sched.c:467-497 | the order in which the heap gives up the due sleepers is one that the machine's clock pass allows |
| VirtualProcessor.Processor.PollTail | 3rdparty/st/sched.c:85-107 | the part of a poll behind its context switch: a poll still queued leaves the queue, an interrupt is reported |
| VirtualProcessor.Processor.InterruptCall | 3rdparty/st/sched.c:500-517 | an interrupt sets the flag and wakes a waiting thread once |
| VirtualProcessor.Processor.WaitTail | 3rdparty/st/sync.c:200-214 | the part of a timed wait behind its context switch: unlink, then report an interrupt, or else a timeout, or else success |
| VirtualProcessor.Processor.SignalOn | 3rdparty/st/sync.c:224-244 | the walk over the wait queue wakes the first waiter, or every one |
| VirtualProcessor.Processor.UnlockCall | 3rdparty/st/sync.c:329-354 | the walk over the wait queue hands the mutex over |
| VirtualProcessor.Processor.DispatchLoop | 3rdparty/st/event.c:363-398 | the loop over the I/O queue is dispatch of the step machine |
| EventSpec.PollIsTold | 3rdparty/st/event.c:496-563 | a dispatch parts the queue into the polls it wakes and those that stay; every entry of a woken poll is told exactly what it asked for and its descriptor is ready for, and errors, and a poll stays exactly if it finds nothing of that |
| EventSpec.WakeUpKeepsOrder | 3rdparty/st/event.c:363-398 | polls are woken in the order in which they queued |
| EventSpec.DemandQRemove | 3rdparty/st/event.c:206-225 | taking a poll off the queue lowers the demand on each descriptor by exactly its own |
| EventSpec.DemandQSeen | 3rdparty/st/event.c:172-204 | whatever a queued poll waits for is in demand |
| EventSpec.SetsTellAll | 3rdparty/st/event.c:296-398 | without errors the three sets of select tell everything that poll is told; an error can hide a wake-up there, not cause one |
| SelectSystem.Select.PollsetAdd | 3rdparty/st/event.c:172-204 | either all descriptors are valid and counted, or nothing changes; the sets hold exactly the descriptors with positive counts |
| SelectSystem.Select.PollsetDel | 3rdparty/st/event.c:206-225 | the counts fall back to the demand of the other polls, and the sets with them |
| SelectSystem.Select.Dispatch | 3rdparty/st/event.c:296-398 | select wakes exactly the polls that ask for something that is ready, tells each entry which of the requested events are ready and no errors, loses none, and every count, set and the highest descriptor stay right |
| SelectSystem.Select.SelectReports | 3rdparty/st/event.c:307-330 | asking up to the highest descriptor misses nothing that a queued poll waits for |
| SelectSystem.Select.Register | 3rdparty/st/sched.c:74-81 | a poll joins the queue exactly if its descriptors are acceptable |
| SelectSystem.Select.Unregister | 3rdparty/st/sched.c:89-93 | a poll that timed out leaves the system in step |
| PollSystem.Poll.Gather | 3rdparty/st/event.c:504-520 | the gathered array holds the descriptors of the queue in order and never overflows |
| PollSystem.Poll.Dispatch | 3rdparty/st/event.c:496-563 | poll wakes exactly the polls that ask for something that is ready or have a descriptor in error, and tells each entry which of the requested events are ready, and errors |
| PollSystem.Poll.Register | 3rdparty/st/event.c:472-487 | a poll joins the queue exactly if every descriptor and request is acceptable, and the count follows |
| PollSystem.Poll.Unregister | 3rdparty/st/event.c:490-494 | the count follows when a poll leaves |
| EpollSystem.Epoll.PollsetAdd | 3rdparty/st/event.c:1169-1225 | either every descriptor is counted and the kernel's interest is exactly the bits of the non-zero counts, or nothing has changed, also when the kernel refuses a descriptor in the middle |
| EpollSystem.Epoll.PollsetDel | 3rdparty/st/event.c:1129-1167 | counts fall, and the kernel follows for every descriptor that has not fired |
| EpollSystem.Epoll.Unroll | 3rdparty/st/event.c:1215-1222 | undoing a refused request restores the counts and the interest |
| EpollSystem.Epoll.Expand | 3rdparty/st/event.c:1091-1111 | the table grows with zero counts until it covers the descriptor |
| EpollSystem.Epoll.Register | 3rdparty/st/sched.c:74-81 | a poll joins the queue exactly if acceptable, and counts, interest and their number mirror the queue |
| EpollSystem.Epoll.Unregister | 3rdparty/st/sched.c:89-93 | a poll that timed out leaves counts and interest in step |
| EpollSystem.Epoll.Dispatch | 3rdparty/st/event.c:1227-1340 | for any order of the kernel's report, and after a fork, epoll wakes exactly the polls that poll would wake, tells each entry which of the requested events are ready, all of them on an error, and leaves counts, interest, stored revents and their number right |
| EpollSystem.Epoll.Settle | 3rdparty/st/event.c:1326-1338 | the updates put off for fired descriptors are made up for |
| EpollSystem.Epoll.Rebuild | 3rdparty/st/event.c:1247-1265 | the child of a fork ends up with exactly the counts and the interest of its parent |
| EpollSystem.Epoll.SameInterest | 3rdparty/st/event.c:1129-1225 | between calls the kernel's interest is determined by the counts |
| EpollSystem.ReportFits | 3rdparty/st/event.c:1268-1270 | the event list has room for everything the kernel can report |
| EpollSystem.WideningWakesTheSame | 3rdparty/st/event.c:1273-1280 | setting all I/O bits on an error changes what polls are told, not which polls are woken, and without errors nothing |
| Composition.EventsWakeWhatDispatchWakes | 3rdparty/st/event.c:363-398 | the polls that an event system wakes are those of the fired threads, in the order in which dispatch makes the threads runnable |
| CommandQueue.EveryRunDelivers | sources/gsdm/include/utils/container.h:33-82 | under every interleaving no null or freed node is touched, commands come out once and in insertion order, and what is missing is in the list |
| CommandQueue.StepKeeps | sources/gsdm/include/utils/container.h:33-82 | every atomic step of either thread keeps the invariant |
| CommandQueue.RecycledIsFree | sources/gsdm/include/utils/container.h:69-82 | a command that GetCycle gives back is in neither list and is not the one received last |
| CommandCalls.GetCycleAlone | sources/gsdm/include/utils/container.h:69-82 | GetCycle, with the producer alone, ends with nothing exactly if every node of the recycling list but the last is free, and otherwise with the first node that is not; it deletes exactly the free nodes in front |
| CommandCalls.GetCycleEnds | sources/gsdm/include/utils/container.h:69-82 | whatever the consumer does meanwhile, a call to GetCycle that has ended saw a single node at its last test, or gave back the command in hand |
| CommandCalls.InsertSends | sources/gsdm/include/utils/container.h:34-43 | whatever the consumer does meanwhile, a call to Insert that has ended has sent its command, once, and nothing else |
| CommandCalls.InsertAlone | sources/gsdm/include/utils/container.h:34-43 | Insert, with the producer alone, puts the command behind all others in at most four steps |
| CommandCalls.GetDataAlone | sources/gsdm/include/utils/container.h:45-67 | GetData, with the consumer alone, returns nothing exactly if everything sent has been received, and otherwise the next command; the one before is deleted if it is free, and is the last of the recycling list if not |
| CommandQueue.LastReceivedIsStable | sources/gsdm/include/utils/container.h:44-67 | the command being worked on keeps its contents whatever the producer does |
| CommandQueue.NothingMeansAll | sources/gsdm/include/utils/container.h:44-67 | when the consumer finds nothing it has received everything sent |
| CommandQueue.Drain | sources/gsdm/src/eventdrive/networker.cpp:181-195 | the consumer's loop, left alone, ends with everything received |
| CommandQueue.OneWakeUpDeliversAll | sources/gsdm/src/eventdrive/networker.cpp:170-195 | a lost notification only delays: the next one delivers every command sent before |
| CommandQueue.WakeUpDelivers | sources/gsdm/src/eventdrive/networker.cpp:170-195 | with the producer going on meanwhile: when the woken consumer is idle again, it has received every command sent before |
| CommandQueue.LinkKeeps | sources/gsdm/include/utils/container.h:33-37 | linking a command behind the last one appends it, even while the consumer is cutting off the head |
| CommandQueue.FirstLinkKeeps | sources/gsdm/include/utils/container.h:38-41 | the first insertion goes through the consumer's head pointer, which cannot have moved |
| CommandQueue.TakeKeeps | sources/gsdm/include/utils/container.h:70-74 | the producer takes the head of the recycling list, never its last node |
| LruSpec.EveryRunRespectsLimits | 3rdparty/st/extensions/lrucache.c:175-318 | over every run of calls the invariant holds and an entry has been cleaned up, once, exactly if it is no longer allocated; the limits hold all along exactly if each inserted entry fits in, as it does if no weight created reaches 2^64 together with the limit |
| LruSpec.ApplyKeeps | 3rdparty/st/extensions/lrucache.c:175-318 | every call keeps: one findable entry per key, the LRU list is the unused entries in order of release, size and weight are right |
| LruSpec.InUseIsSafe | 3rdparty/st/extensions/lrucache.c:192-217 | no call cleans up an entry whose reference count is positive, except the release that ends the last use of a condemned one |
| LruHoldings.EveryRunIsTallied | 3rdparty/st/extensions/lrucache.c:175-318 | over every run the reference count of a live entry is the number of its holdings, counted from the calls and their results alone, and an entry that is gone is not held |
| LruHoldings.HeldIsSafe | 3rdparty/st/extensions/lrucache.c:192-254 | after every run no call cleans up an entry that somebody holds, except the release that ends the last holding of a condemned one |
| LruHoldings.CreateEffect | 3rdparty/st/extensions/lrucache.c:175-189 | a new entry has its key and weight, is not held and not condemned, and is outside the table |
| LruHoldings.DeleteEffect | 3rdparty/st/extensions/lrucache.c:192-217 | deleting an entry condemns it if it is held, and cleans it up if it is not |
| LruSpec.LookupFinds | 3rdparty/st/extensions/lrucache.c:220-239 | a lookup returns the only entry under the key that is not condemned, if there is one, and raises its reference count by one |
| LruSpec.ReleaseKeeps | 3rdparty/st/extensions/lrucache.c:242-254 | a release keeps the invariant, also when it frees a condemned entry |
| LruSpec.ReleaseOrderAt | 3rdparty/st/extensions/lrucache.c:249-250 | an entry ahead of another on the LRU list was released before it |
| LruSpec.InsertKeeps | 3rdparty/st/extensions/lrucache.c:257-309 | an inserted entry is the one found under its key, no entry in use is freed, and a failed insertion leaves the entry to the caller |
| LruSpec.InsertFailsWhen | 3rdparty/st/extensions/lrucache.c:266-285 | insertion fails exactly if the entries in use leave no room in weight or in number |
| LruSpec.MakeRoomIsMinimal | 3rdparty/st/extensions/lrucache.c:266-273 | making room evicts the shortest sufficient stretch from the front of the LRU list |
| LruSpec.InsertRespectsLimits | 3rdparty/st/extensions/lrucache.c:257-309 | without wrap-around insertion respects both limits and the recorded weight is the true one |
| LruSpec.InsertRespectsLimitsWhen | 3rdparty/st/extensions/lrucache.c:257-309 | insertion respects both limits exactly if the 64-bit sum does not wrap around, or the cache is full of entries in use, or the entries that make way for the new one are heavy enough |
| LruSpec.InsertBelowHalfRange | 3rdparty/st/extensions/lrucache.c:257-309 | with a weight limit below half of the range, insertion respects both limits exactly if the sum does not wrap around or the cache is full of entries in use |
| LruSpec.TooHeavyIsRefused | 3rdparty/st/extensions/lrucache.c:266-273 | an entry heavier than the cache is refused exactly if the sum does not wrap or the cache is full of entries in use |
| LruSpec.WrapAroundExample | 3rdparty/st/extensions/lrucache.c:266 | a cache that ends up over its weight limit |
| LruSpec.EmptyLeavesCondemned | 3rdparty/st/extensions/lrucache.c:84-97 | emptying in any order leaves in the table exactly the entries in use, all condemned |
| LruCache.UnlinkTable | 3rdparty/st/extensions/lrucache.c:199-202 | following and rewriting the back-pointer takes exactly one entry out of the hash table |
| LruCache.LinkChains | 3rdparty/st/extensions/lrucache.c:297-302 | pushing an entry on a bucket keeps every chain and back-pointer right |
| LruCache.Cache.Search | 3rdparty/st/extensions/lrucache.c:225-230 | walking one hash chain finds what the whole table has to offer under the key |
| LruCache.Cache.EntryDelete | 3rdparty/st/extensions/lrucache.c:192-217 | the chains stay right and the cache does what the specification of deletion says |
| LruCache.Cache.EntryLookup | 3rdparty/st/extensions/lrucache.c:220-239 | the same for lookup, with the reference count raised by one and the statistics |
| LruCache.Cache.EntryRelease | 3rdparty/st/extensions/lrucache.c:242-254 | the same for release |
| LruCache.Cache.EntryInsert | 3rdparty/st/extensions/lrucache.c:257-309 | the same for insertion, with its evictions and both failures |
| LruCache.Cache.EntryCreate | 3rdparty/st/extensions/lrucache.c:175-189 | a new entry is outside the table |
| LruCache.Cache.Empty | 3rdparty/st/extensions/lrucache.c:84-97 | walking the buckets while entries are freed deletes every entry of the table once |
| LruCache.Cache.Do | 3rdparty/st/extensions/lrucache.c:84-318 | every call is an operation of the specification and keeps its invariant |
| WebSocket.ChunkingDoesNotMatter | sources/gsdm/src/protocols/wsprotocol.cpp:83-220 | for every way to cut a stream into calls the same messages, pongs and close come out and the same bytes are left over |
| WebSocket.ProcessInTwo | sources/gsdm/src/protocols/wsprotocol.cpp:83-220 | parsing a stream in two pieces, cut anywhere, is parsing it in one |
| WebSocket.HeaderIsStable | sources/gsdm/src/protocols/wsprotocol.cpp:86-131 | more bytes do not change a header that was complete |
| WebSocket.MessagesRoundTrip | sources/gsdm/src/protocols/wsprotocol.cpp:35-220 | any sequence of messages, whole or in pieces, masked or not, is parsed to as many messages of the same types with nothing left over, and they are the ones that were sent exactly if the length of each fits in 32 bits |
| WebSocket.DeliveredWhen | sources/gsdm/src/protocols/wsprotocol.cpp:158-178 | what is delivered of a message is the message exactly if its length fits in 32 bits |
| WebSocket.FrameRoundTrip | sources/gsdm/src/protocols/wsprotocol.cpp:424-501 | parsing a printed frame yields its header and its unmasked payload and goes on behind it |
| WebSocket.HeaderRoundTrip | sources/gsdm/src/protocols/wsprotocol.cpp:86-131 | the parser reads back every header that is printed, whatever follows it |
| WebSocket.ShortestForm | sources/gsdm/src/protocols/wsprotocol.cpp:448-480 | no header with the same length is shorter than the printed one |
| WebSocket.PingIsAnswered | sources/gsdm/src/protocols/wsprotocol.cpp:199-202 | a ping between messages is answered with its own payload and nothing else changes |
| WebSocket.CloseIsSeenWhen | sources/gsdm/src/protocols/wsprotocol.cpp:188-198 | a close between messages ends the connection exactly if its payload is two bytes long |
| WebSocketWire.ParsedLayout | sources/gsdm/src/protocols/wsprotocol.cpp:86-131 | every field of a parsed header stands where section 5.2 of RFC 6455 puts it, lengths with the most significant byte first |
| WebSocketWire.ParsedWhen | sources/gsdm/src/protocols/wsprotocol.cpp:86-131 | a header is found exactly if all of it is there |
| WebSocketWire.PrintedLayout | sources/gsdm/src/protocols/wsprotocol.cpp:424-485 | the printer puts every field of a header in that place |
| WebSocketWire.FragmentJoins | sources/gsdm/src/protocols/wsprotocol.cpp:134-211 | a frame that does not end its message adds its payload to the fragments, byte i of it being byte i on the wire xor byte i % 4 of the key |
| WebSocketWire.LastFrameActs | sources/gsdm/src/protocols/wsprotocol.cpp:134-215 | the last frame of a message makes fragments and unmasked payload text or binary data, an answered ping, a close, nothing, or a protocol error, by the opcode of the message |
| WebSocketWire.IncompleteWaits | sources/gsdm/src/protocols/wsprotocol.cpp:86-150 | an incomplete frame stays where it is, except that a complete header is kept |
| WebSocketWire.PongBytes | sources/gsdm/src/protocols/wsprotocol.cpp:408-422 | a ping is answered with a final pong frame that carries the same payload |
| WebSocketWire.CloseBytes | sources/gsdm/src/protocols/wsprotocol.cpp:393-406 | a close frame carries the status code, the high byte first |
| WebSocketProtocol.WSProtocol.HandlerProtocol | sources/gsdm/src/protocols/wsprotocol.cpp:79-218 | the method that parses and unmasks in place gives the events of the specification, returns what it used or -1, and leaves the unused bytes untouched; the result is negative exactly if the connection is to be closed or 2 GiB or more were used |
| WebSocketProtocol.WSProtocol.ReadHeader | sources/gsdm/src/protocols/wsprotocol.cpp:87-143 | a header is read completely or not at all, and the opcode being continued follows |
| WebSocketProtocol.WSProtocol.Unmask | sources/gsdm/src/protocols/wsprotocol.cpp:152-156 | the mask comes off the payload and nothing else changes |
| WebSocketProtocol.WSProtocol.Deliver | sources/gsdm/src/protocols/wsprotocol.cpp:158-215 | a complete frame has the effect that the specification gives it, with the 32-bit length of the collected fragments |
| WebSocketProtocol.WSProtocol.SendWS | sources/gsdm/src/protocols/wsprotocol.cpp:424-501 | what goes out is the printed frame, whose payload byte i is byte i of the data xor byte i % 4 of the key, or the first bytes of it if the transport fails, of which it may have taken some |
| WebSocketProtocol.WSProtocol.BuildHeader | sources/gsdm/src/protocols/wsprotocol.cpp:424-485 | the header built in the buffer is the printed one and fits in 16 bytes |
| WebSocketProtocol.WSProtocol.SendWhole | sources/gsdm/src/protocols/wsprotocol.cpp:35-41 | a whole message is printed as one final frame, and the call succeeds exactly if the transport does not fail |
| WebSocketProtocol.WSProtocol.SendInPieces | sources/gsdm/src/protocols/wsprotocol.cpp:43-65 | a head, any number of fragments and a tail sent one after the other are the printed form of one message in parts, and all succeed exactly if the transport does not fail |
| WebSocketProtocol.WSProtocol.SendClose | sources/gsdm/src/protocols/wsprotocol.cpp:393-406 | a close goes out once |
| IoBuffer.IOBuffer.EnsureSize | sources/gsdm/src/buffering/iobuffer.cpp:357-399 | the contents stay, the room behind them is what the 32-bit growth arithmetic gives, and the cost bounds are kept |
| IoBuffer.IOBuffer.MoveData | sources/gsdm/src/buffering/iobuffer.cpp:345-355 | the contents stay, source and destination do not overlap, and the bytes moved are paid for by bytes consumed |
| IoBuffer.IOBuffer.ReadFromBuffer | sources/gsdm/src/buffering/iobuffer.cpp:184-194 | the bytes are appended to the queue, exactly if growth left room for them; otherwise the copy overruns the array |
| IoBuffer.IOBuffer.ReadFromTCPFd | sources/gsdm/src/buffering/iobuffer.cpp:81-100 | what the socket gives is appended to the queue, exactly if it fits in the room that growth left; otherwise it overruns the array |
| IoBuffer.IOBuffer.WriteToTCPFd | sources/gsdm/src/buffering/iobuffer.cpp:261-284 | exactly the bytes that the kernel takes leave the front of the queue |
| IoBuffer.IOBuffer.Ignore | sources/gsdm/src/buffering/iobuffer.cpp:327-334 | bytes are dropped from the front |
| IoBuffer.IOBuffer.IgnoreAll | sources/gsdm/src/buffering/iobuffer.cpp:336-343 | the queue is empty |
| IoBuffer.IOBuffer.Recycle | sources/gsdm/src/buffering/iobuffer.cpp:474-481 | an empty buffer starts over |
| IoBuffer.GrowthLeavesRoom | sources/gsdm/src/buffering/iobuffer.cpp:372-395 | growth leaves the requested room exactly if the request is not stretched, or stretching it carries nothing out of 32 bits, or the smallest chunk is enough |
| IoBuffer.GrowthBelow12GiB | sources/gsdm/src/buffering/iobuffer.cpp:372-395 | up to 12 GiB, growth leaves the requested room exactly if the room wanted fits in 32 bits or the smallest chunk is enough |
| IoBuffer.GrowthIsGeometric | sources/gsdm/src/buffering/iobuffer.cpp:372-395 | every growth adds a third, which bounds the bytes copied by three times the size plus two per growth |
| IoBuffer.SmallBuffersGrow | sources/gsdm/src/buffering/iobuffer.cpp:372-379 | below 3 GiB nothing is lost |
| IoBuffer.TruncationExample | sources/gsdm/src/buffering/iobuffer.cpp:372-379 | at 3 GiB a request is answered with a buffer of 4 KiB |
| SendPath.EveryRunIsOrdered | sources/gsdm/src/eventdrive/baseprocess.cpp:78-155 | over every run, under every behaviour of the kernel, no byte is lost or doubled; if no message overtakes, wire and buffer hold the accepted messages in order exactly if no part of a refused message leaked, waiting bytes imply write interest, and nothing leaks if no over-long message is refused; none overtakes and the buffer keeps its limit if no sum wraps around |
| SendPath.OrderIsKeptWhen | sources/gsdm/src/eventdrive/baseprocess.cpp:78-155 | where the message cannot overtake, the stream stays in order for every kernel exactly if the message is at most one byte over the limit or more waits than one flush can send |
| SendPath.NeverOvertakesWhen | sources/gsdm/src/eventdrive/baseprocess.cpp:84-107 | no kernel lets a message overtake waiting bytes exactly if fewer than 2^32 of them wait or one flush cannot bring their number to a multiple of that |
| SendPath.OvertakingStream | sources/gsdm/src/eventdrive/baseprocess.cpp:84-136 | a message that overtakes is reported as sent, lies in front of the waiting bytes, and nobody asks about these any more |
| SendPath.OrderCanBeLost | sources/gsdm/src/eventdrive/baseprocess.cpp:78-155 | under every limit but 0 there is a run from a new connection in which all messages are accepted and the last is in front of the others |
| SendPath.BoundIsKeptWhen | sources/gsdm/src/eventdrive/baseprocess.cpp:138-142 | the buffer keeps its limit for every kernel exactly if the 32-bit sum does not wrap |
| SendPath.SendStream | sources/gsdm/src/eventdrive/baseprocess.cpp:78-155 | unless it overtakes, the stream grows by an accepted message, or by what leaked of a refused one |
| SendPath.SuccessIsSilentWhen | sources/gsdm/src/eventdrive/baseprocess.cpp:79-82 | success without effect is reported exactly when not connected |
| SendPath.SendAccepts | sources/gsdm/src/eventdrive/baseprocess.cpp:78-155 | a message is accepted exactly if the connection is not connected, or no system call fails and the message goes out whole or its rest and what waits are within the limit in 32 bits |
| SendPath.SendMoves | sources/gsdm/src/eventdrive/baseprocess.cpp:78-155 | on the wire are what the flush sends and then what goes out directly, and an accepted message leaves write interest on exactly if bytes wait |
| SendPath.DrainMoves | sources/gsdm/src/eventdrive/epoll/tcpcarrier.cpp:77-96 | a writable event moves what the kernel takes to the wire, and turns write interest off exactly if nothing waits any more |
| SendPath.Connection.SendMsg | sources/gsdm/src/eventdrive/baseprocess.cpp:78-155 | the method on the real buffer does what the value-level send does unless the array has 3 GiB or more; with a limit of at most 1 GiB it stays smaller over every run in which no sum wraps around |
| SendPath.Connection.OnWritable | sources/gsdm/src/eventdrive/epoll/tcpcarrier.cpp:77-96 | the writable branch drains the buffer and drops write interest when it is empty |
| VectoredIo.NetFd.Writev | 3rdparty/st/io.c:560-633 | any sequence of short writes emits a prefix of the vectors, as long as the kernel was willing to take, and all of it on success with its length returned; it fails only at a fatal reply of the kernel; the caller's vectors are unchanged and the copy never overflows |
| VectoredIo.NetFd.WritevResid | 3rdparty/st/io.c:636-672 | however it ends, what was written followed by what the vectors still hold is what they held; as much is written as the kernel was willing to take, and it fails only at a fatal reply |
| VectoredIo.NetFd.ReadvResid | 3rdparty/st/io.c:485-523 | however it ends, the vectors hold the part not filled, and the bytes read, as many as the kernel was willing to give, are stored in order in front of it; it fails only at a fatal reply, and ends early only when a read gives nothing |
| VectoredIo.NetFd.StWrite | 3rdparty/st/io.c:535-557 | writing one buffer ends as writing vectors does |
| VectoredIo.Advance | 3rdparty/st/io.c:651-665 | stepping over the moved bytes leaves exactly the rest |
| VectoredIo.NetFd.FindNext | 3rdparty/st/io.c:597-599 | the next unwritten vector, past any empty ones |
| VectoredIo.NetFd.NextVectors | 3rdparty/st/io.c:597-620 | the copy of what is left, in an array that is big enough every time |
| VectoredIo.ScatterGather | 3rdparty/st/io.c:485-523 | what was stored at distinct addresses is found there |
| LocalTime.LocalTimeR | sources/gsdm/src/platform/linuxplatform.cpp:834-860 | for 0 <= t < 60*2^31 and a zone between -23 and 23 the result is a valid date and time that counts back to t plus the zone's offset, exactly if that sum is not negative; nothing leaves 32 bits |
| LocalTime.Date | sources/gsdm/src/platform/linuxplatform.cpp:848-858 | the 32-bit computation with truncating division is the one over unbounded numbers |
| LocalTime.CivilIsRight | sources/gsdm/src/platform/linuxplatform.cpp:848-858 | the date computed for a day exists on the Gregorian calendar and is that day |
| LocalTime.SecondsDetermine | sources/gsdm/src/platform/linuxplatform.cpp:834-860 | no other valid date and time is the same number of seconds |
| Timers.TimersManager.TimeElapsedProcess | sources/gsdm/src/utils/timersmanager.cpp:209-223 | each due timer fires once, in key order, and is due again its period after now; the others stay; nothing due is left, and the result is the time to the next timer, at least 1, or 1000 |
| Timers.TimersManager.AddTimerEvent | sources/gsdm/src/utils/timersmanager.cpp:184-187 | a new timer is due at once |
| Timers.PassEndsWhen | sources/gsdm/src/utils/timersmanager.cpp:209-223 | a pass ends exactly if every due timer has a positive period |
| Timers.InsertKeeps | sources/gsdm/src/utils/timersmanager.cpp:184-187 | insertion keeps the order of the map and adds exactly one entry |
| Timers.InsertPlace | sources/gsdm/src/utils/timersmanager.cpp:184-187 | a new entry goes behind all entries that are due no later and in front of the others |
| Timers.Pulse | sources/gsdm/src/eventdrive/epoll/iohandlermanager.cpp:184-215 | the result is 0, which ends the worker loop, exactly if waiting failed; otherwise it is the time to the next timer, at most a second, except that after an interrupted wait it is a point in time |

## Left out

- kqueue, which is not built on Linux, and the search for a bad descriptor after a failed select.
- Failing allocations, a failing `epoll_create` after a fork, and descriptors closed while they are polled.
- Stacks, `setjmp`/`longjmp` and signals: a context switch is a step that changes the current thread.
- Due times beyond 64 bits, and how long a dispatch waits. Ties in the timeout heap are broken by its shape in `TimeoutHeap`; in `Scheduler` the order among equal due times is any.
- A thread is named by its address, which may be used again once the thread is gone, though here not while somebody is still queued on the termination condition of the former thread; the process exit when the last thread ends is not part of the model, nor is destroying a mutex that is held.
- The revents that a poll which times out finds in its descriptors, which dispatch may have overwritten without waking it.
- SelectSystem.Select.Dispatch: how a descriptor in error shows in the three sets of select is up to the kernel, and is part of the readiness here.
- Requested bits outside the three known ones, which poll accepts and passes on to the kernel: the model accepts such requests but reports nothing for these bits.
- Weak memory: the command queue is proved under sequential consistency, with at most one shared access per step.
- The queue maps and the notification socket around the command queue; a notification is the event that starts the consumer's loop.
- LRU entries are addresses in an explicit heap and the LRU links are a sequence, so that freeing an entry can be modelled; aliasing beyond that is not captured.
- Key comparison and hashing in the LRU cache are equality and a function of the key. Traversals and getters are left out.
- LruSpec.InsertRespectsLimits: assumes that the weights do not wrap around; `InsertRespectsLimitsWhen` says what happens otherwise.
- WebSocket.MessagesRoundTrip: does not interleave control frames with the fragments of a message, because the parser appends their payload to the fragments and then drops both; the chunking result covers such streams.
- The fragment buffer of the WebSocket parser grows without limit here, though its length is read in 32 bits as in the code; what growing an array of 3 GiB or more does is in `IoBuffer`. The opening handshake and HTTP headers are left out.
- IoBuffer.IOBuffer.ReadFromBuffer: says when the copy runs past the end of the array, not what that does to memory.
- SendPath.Connection.SendMsg: nothing is said about the connection after such an overrun. One system call moves at most 0x7ffff000 bytes, as on Linux, so that its result fits in an int.
- The scheduler's queues other than the timeout heap are sequences of addresses, not links through the thread objects.
- UDP messages, which are cached with a 16-bit length, and the pipe carrier, which never turns write interest off.
- VectoredIo: the sum of the vector lengths is not narrowed to `size_t`; a call that the kernel keeps waiting ends as waiting.
- Timers.TimersManager.TimeElapsedProcess: requires positive periods of the due timers, because otherwise the loop does not end (`PassEndsWhen`), and a clock that does not go back; callbacks that change the slots, removal by identifier and the timeout managers are left out.
- Percent-encoding, configuration, logging, processor affinity, name resolution and the pool workers.
