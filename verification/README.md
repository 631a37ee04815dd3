# Verification of the completion-port library

A Dafny model of the parts of the library whose correctness is not visible from one function: a
lock-free queue, the coroutine scheduler built on it, the socket operations that share one completion
port, unbuffered file reads, and the parser for directory change records. `dafny verify dfyconfig.toml`
checks everything.

## What is modelled

**The lock-free intrusive queue.** `QueueMachine` is the code as a step machine: one step per access to
`head_` or to a node's `next`, any number of threads, any interleaving, spurious compare-exchange
failures, and nodes that are pushed again as soon as they were returned. `QueueSpec` is the law in terms of
sequences. `QueueRefinement` proves that each step of the machine is a step of the law, and `QueueRuns`
draws the consequences for whole runs: conservation, one place per node, no stale reads, no data race on
the plain `next` field, and the order law. `QueueProgress` bounds compare-exchange failures and the steps of
each thread. `QueueOrder` says, for every run, exactly when the queue is first-in first-out. It is so in
sequential use. It is not so under concurrency: a pop that gives nodes back puts them in front of nodes
pushed meanwhile, and a pop can return a newer node while another pop still carries older ones. `QueueSolo`
shows that a thread finishes its call from any point if it runs on alone, and that every such disorder can be
noticed from the results; it also has the runs. `IntrusiveQueue` is the same code as a class over heap nodes,
used by one thread at a time.

**The coroutine scheduler.** `Scheduler` is `poll_one` and `poll` on one thread, with coroutines that await
again and post while they are resumed: who gets which entry, how many deliveries there are, and why
polling ends; its class works on the intrusive queue object. `SchedulerConcurrent` runs any number of `poll_one` calls over the step machine of the
queue itself, where a pop can fail although tasks are waiting; `FailingPollHistory` is such a history.

**The socket operations.** `ScatterGather` is the read/write loop that shrinks an array of buffer descriptors
in place; it refines one flat sequence of addresses with a cursor. `OnceInN` is the counter that sends
the loop back to the completion port. `Echo` composes two such loops on each side of two bounded channels,
up to the comparisons at the end of the echo program. `Completion` is the protocol between start, stop
requests, the kernel and the dispatcher. `RangeConnect` tries endpoints until one accepts.

**Aligned file reads.** `AlignedRead` has the window arithmetic, the alignment mask, and the pages with
their one owner, from the request to the buffer that the user gets.

**Directory changes.** `DirectoryChanges` has the record format of section 2.7.1 of [MS-FSCC], an encoder
for it, and the iterator.

## Where code and documentation differ

- The comment at `src/win_io_coro/include/win_io_coro/detail/intrusive_queue.h:116` announces a merge of the
  old queue with a possibly new one and says nothing about order. The model follows the code: the old
  nodes go in front, so newer nodes leave first.
- `poll_one` treats a failed pop as "no waiting task". Under concurrency a pop also fails while another
  thread has all the tasks in its hands; the entry is then posted again and no entry is lost.
- `ScheduleReadImpl_` passes the length it asked for as the length read when `ReadFile` finishes at once, so
  the assert at `src/win_io_coro/include/win_io_coro/coro_async_file.h:375` breaks for a synchronous read that
  runs into the end of the file, also when the user's bytes all lie inside it.
- A caller of `async_write` or `async_read` may pass the total of its buffers. The code does not check it:
  `ScatterGather.Transfer.Run` says what a wrong one leads to.

## Model

| member | source | states |
|---|---|---|
| QueueRefinement.StepRefines | src/win_io_coro/include/win_io_coro/detail/intrusive_queue.h:72-129 | every step of every thread (one per access to `head_` or a `next` field, spurious failures included) either leaves the law's state alone or is exactly one legal step of the sequence law, and memory, locals and law agree again afterwards |
| QueueRefinement.StepShared | src/win_io_coro/include/win_io_coro/detail/intrusive_queue.h:117-126 | the list found by following `next` from `head_` after a step is the one the law prescribes; so a compare-exchange that succeeds, even because a pointer came back to `head_`, splices onto the chain that is shared at that moment |
| QueueRefinement.WritesOwnNode | src/win_io_coro/include/win_io_coro/detail/intrusive_queue.h:77-79 | a `next` field is written only by the one thread that keeps the node, never in the shared chain |
| QueueRefinement.DetachSelf | src/win_io_coro/include/win_io_coro/detail/intrusive_queue.h:98-109 | looking two nodes ahead stops at the last but one node exactly, and swapping out its `next` leaves a list of all but the last |
| QueueRefinement.ChainIsUnique | src/win_io_coro/include/win_io_coro/detail/intrusive_queue.h:66-69 | memory determines the shared chain: two lists with the same first pointer and the same `next` fields are equal |
| QueueSpec.ApplyKeepsOnePlace | src/win_io_coro/include/win_io_coro/detail/intrusive_queue.h:72-129 | the law keeps every node in one place only: once in the shared chain or once with one thread, chains without repetition and pairwise disjoint |
| QueueSpec.ApplyConserves | src/win_io_coro/include/win_io_coro/detail/intrusive_queue.h:72-129 | a push adds its own node, a returning pop removes the node it returns, and no other step changes what the queue holds |
| QueueRuns.ViewOf | src/win_io_coro/include/win_io_coro/detail/intrusive_queue.h:72-129 | refinement over whole runs: every run of any number of threads has a law state that its memory represents |
| QueueRuns.Conservation | src/win_io_coro/include/win_io_coro/detail/intrusive_queue.h:72-129 | after any run, each node has been pushed as often as returned, plus one exactly while the queue has it: nothing is lost or returned twice |
| QueueRuns.ExactlyOnePlace | src/win_io_coro/include/win_io_coro/detail/intrusive_queue.h:72-129 | a node the queue has is once in the chain from `head_`, or once with exactly one thread inside push or pop |
| QueueRuns.PopReturnsOwnedNode | src/win_io_coro/include/win_io_coro/detail/intrusive_queue.h:88-129 | pop returns only a non-null node that was pushed and not returned since, with `next` null |
| QueueRuns.OnlyTwoKindsAreStale | src/win_io_coro/include/win_io_coro/detail/intrusive_queue.h:75-84 | in every reachable state only a node not linked yet and the tail of a merging pop may have a stale `next`; all other chains are linked neighbour to neighbour and end in null |
| QueueRuns.ReadsAreNeverStale | src/win_io_coro/include/win_io_coro/detail/intrusive_queue.h:98-109 | no step dereferences null or follows a stale `next`: what a walking pop reads is the true neighbour in the chain it took |
| QueueRuns.NoDataRaceOnNext | src/win_io_coro/include/win_io_coro/detail/intrusive_queue.h:78-125 | the plain field `next` has no data race: no two threads are ever about to touch the same node |
| QueueRuns.PopKeepsWhatItTook | src/win_io_coro/include/win_io_coro/detail/intrusive_queue.h:91-126 | the chain a pop has exchanged out stays whole and undisturbed until the pop gives it back |
| QueueRuns.PopLaw | src/win_io_coro/include/win_io_coro/detail/intrusive_queue.h:98-129 | a pop returns the last node of the chain it took, and leaves in `head_` the rest R of it in front of the chain F shared at that very step: R followed by F |
| QueueRuns.QuiescentEmptiness | src/win_io_coro/include/win_io_coro/detail/intrusive_queue.h:66-69 | with no call in flight `is_empty` holds exactly when every push has been matched by a return |
| QueueRuns.PopFailsExactlyWhenNothingIsShared | src/win_io_coro/include/win_io_coro/detail/intrusive_queue.h:91-96 | pop returns false exactly when every node the queue has is in the hands of another thread inside push or pop |
| QueueProgress.FailuresArePaidFor | src/win_io_coro/include/win_io_coro/detail/intrusive_queue.h:80-84 | over any run a thread's non-spurious compare-exchange failures, plus the one it is heading for, are at most the changes of `head_` made by other threads |
| QueueProgress.FailureNeedsInterference | src/win_io_coro/include/win_io_coro/detail/intrusive_queue.h:118-126 | a thread whose view of `head_` is current fails its next compare-exchange, without spurious cause, only if another thread changed `head_` in between; a pop's view after its own exchange is null |
| QueueProgress.StepsAreBounded | src/win_io_coro/include/win_io_coro/detail/intrusive_queue.h:72-129 | over any run a thread's steps inside push and pop, plus those it still needs for itself, are at most 9 for each call, 4 for each node its pops took, 2 for each spurious failure and 2 for each change another thread made to `head_` |
| QueueProgress.StepLowersRank | src/win_io_coro/include/win_io_coro/detail/intrusive_queue.h:72-129 | every step of a call brings it closer to its end, except for a spurious failure and for the walk that an exchange adds |
| QueueProgress.StepsAreBoundedByCalls | src/win_io_coro/include/win_io_coro/detail/intrusive_queue.h:72-129 | the same without looking at `head_`: at most 9 for each own call, 4 for each node its pops took, 2 for each spurious failure and 4 for each call that any thread has made, however many threads there are |
| QueueProgress.CallsLimitChanges | src/win_io_coro/include/win_io_coro/detail/intrusive_queue.h:72-129 | a thread changes `head_` at most twice a call |
| QueueOrder.FifoExactlyInTurn | src/win_io_coro/include/win_io_coro/detail/intrusive_queue.h:88-129 | for every run of any number of threads: the queue is first-in first-out at every moment if and only if no pop of the run has returned while a thread that took nodes earlier was still carrying them, and no merge has met another such thread or a non-null `head_` |
| QueueOrder.OrderStep | src/win_io_coro/include/win_io_coro/detail/intrusive_queue.h:91-126 | the same for one step: it keeps the order if and only if it is in turn |
| QueueOrder.EffectKeepsOrder | src/win_io_coro/include/win_io_coro/detail/intrusive_queue.h:91-126 | which steps of the law keep the waiting nodes in order of arrival: all but a pop of a single node by a thread that was not the first to take, and a merge by a thread that is not the only one to carry nodes or that meets newer ones |
| QueueOrder.InTurnLeavesInOrder | src/win_io_coro/include/win_io_coro/detail/intrusive_queue.h:88-129 | as long as all steps are in turn, the nodes returned so far are a prefix of the nodes pushed so far |
| QueueOrder.OneTakerCondition | src/win_io_coro/include/win_io_coro/detail/intrusive_queue.h:117-126 | where pops carry nodes one at a time, being in turn comes down to one thing: no merging compare-exchange succeeds onto a non-null `head_` |
| QueueOrder.SequentialUseIsFifo | src/win_io_coro/include/win_io_coro/detail/intrusive_queue.h:72-129 | any run without overlapping calls is first-in first-out throughout, and nodes leave in the order in which they came |
| QueueOrder.OneConsumerTakesTurns | src/win_io_coro/include/win_io_coro/detail/intrusive_queue.h:88-129 | with one popping thread and any number of pushing ones, pops carry nodes one at a time |
| QueueSolo.FinishAlone | src/win_io_coro/include/win_io_coro/detail/intrusive_queue.h:72-129 | from every reachable state, wherever in push or pop a thread is and whatever the others are in the middle of, the thread finishes by running on alone within a stated number of steps, with the effect its role foretells: its node is linked, or the last node of its chain (of the shared chain, if it has not taken one) is returned and the rest put in front, or nothing was shared and it fails |
| QueueSolo.ForetoldIsKept | src/win_io_coro/include/win_io_coro/detail/intrusive_queue.h:72-129 | no own step of a call changes what the call will have done in the end |
| QueueSolo.PopAlone | src/win_io_coro/include/win_io_coro/detail/intrusive_queue.h:88-129 | a whole pop that runs alone fails if and only if nothing is shared, and otherwise returns the last shared node and leaves the others in place |
| QueueSolo.PushAlone | src/win_io_coro/include/win_io_coro/detail/intrusive_queue.h:72-85 | a whole push that runs alone makes its node the first of the shared chain |
| QueueSolo.OutOfTurnShows | src/win_io_coro/include/win_io_coro/detail/intrusive_queue.h:88-129 | the first step out of turn can be noticed from the results: at once, or after one more call, a node has left before one that came earlier; so the condition is exact for callers too |
| QueueSolo.OvertakingRun | src/win_io_coro/include/win_io_coro/detail/intrusive_queue.h:117-126 | concurrent use is not first-in first-out: a run of one pusher and one popper in which 1, 2, 3 are pushed and 1, 3 are returned |
| QueueSolo.OverlappingRun | src/win_io_coro/include/win_io_coro/detail/intrusive_queue.h:91-114 | nor is it with two poppers and no merge at all: 3 is returned while another pop still carries 1 and 2 |
| QueueSolo.FailingPopRun | src/win_io_coro/include/win_io_coro/detail/intrusive_queue.h:91-96 | a pop can fail although 1 and 2 were pushed and none was returned |
| IntrusiveQueue.Queue.Push | src/win_io_coro/include/win_io_coro/detail/intrusive_queue.h:72-85 | on real nodes, for any number of spurious failures: the contents grow by the pushed item at the back |
| IntrusiveQueue.Queue.Pop | src/win_io_coro/include/win_io_coro/detail/intrusive_queue.h:88-129 | fails exactly when empty; otherwise removes and returns the oldest item with `next` null and leaves the others in order |
| IntrusiveQueue.Queue.PopLast | src/win_io_coro/include/win_io_coro/detail/intrusive_queue.h:98-129 | once the chain is taken, the last item leaves it and the rest is published again |
| IntrusiveQueue.Queue.CutLast | src/win_io_coro/include/win_io_coro/detail/intrusive_queue.h:98-109 | erases the last item of a private list of two or more in place and reports a single item by null |
| IntrusiveQueue.Queue.GiveBack | src/win_io_coro/include/win_io_coro/detail/intrusive_queue.h:117-126 | the closing loop ends with the rest published in `head_`, its links intact |
| IntrusiveQueue.Queue.IsEmpty | src/win_io_coro/include/win_io_coro/detail/intrusive_queue.h:66-69 | true exactly when nothing is queued |
| OnceInN.AfterStartsIsModular | src/win_socks/include/unifex_IOCP_sockets.hpp:1355 | the counter after k starts is (c + k) modulo 2^32 |
| OnceInN.PortWithinN | src/win_socks/include/unifex_IOCP_sockets.hpp:1351-1380 | any n consecutive starts include one that goes to the completion port, also across the wrap-around of the counter |
| OnceInN.PortShare | src/win_socks/include/unifex_IOCP_sockets.hpp:1351-1380 | the first k < 2^32 starts from zero go to the port exactly k / n times |
| ScatterGather.TrimDrops | src/win_socks/include/unifex_IOCP_sockets.hpp:1468-1495 | the descriptors left after n bytes flatten to the original bytes with the first n dropped, and unless all is done the first of them has room |
| ScatterGather.TrimTwice | src/win_socks/include/unifex_IOCP_sockets.hpp:1468-1495 | two transfers leave what one transfer of their sum leaves |
| ScatterGather.HasDataIsTotal | src/win_socks/include/unifex_IOCP_sockets.hpp:404-419 | some descriptor has room exactly when the total is positive |
| ScatterGather.Transfer.TotalSize | src/win_socks/include/unifex_IOCP_sockets.hpp:421-434 | the total is the caller's word for it if there is one, else the sum of the original lengths, added up once |
| ScatterGather.Transfer.WithTotal | src/win_socks/include/unifex_IOCP_sockets.hpp:394-397 | the caller's word for the total becomes the goal, unchecked, right or wrong |
| ScatterGather.Transfer.Shrink | src/win_socks/include/unifex_IOCP_sockets.hpp:1479-1494 | the in-place loop leaves the trimmed descriptors, touches none before the new cursor, and its closing assert holds if and only if something remains |
| ScatterGather.Transfer.Consume | src/win_socks/include/unifex_IOCP_sockets.hpp:1468-1495 | after any transfer no larger than what was offered: processed grows by it, the remaining descriptors are the trimmed ones, the goal stays although the descriptors shrink, a non-final transfer leaves a first buffer with room, and the closing assert fails exactly when all bytes have moved and the claimed total is larger |
| ScatterGather.Transfer.RestIsTrim | src/win_socks/include/unifex_IOCP_sockets.hpp:1462-1466 | until the operation is over, and also then if the goal is the true total: processed plus the remaining lengths is the original total, and what remains flattens to the original bytes minus the processed ones |
| ScatterGather.Transfer.IsCompleted | src/win_socks/include/unifex_IOCP_sockets.hpp:1497-1500 | true exactly when the goal is reached |
| ScatterGather.Transfer.Accept | src/win_socks/include/unifex_IOCP_sockets.hpp:1522-1532 | one turn of the loop: the bytes moved so far are the first `processed` bytes of the flat sequence, whatever the goal |
| ScatterGather.Transfer.Turn | src/win_socks/include/unifex_IOCP_sockets.hpp:1518-1532 | one request: stop, failure, a zero-byte read with room, the goal reached, the assert broken, or another request, each under its exact condition |
| ScatterGather.Transfer.Run | src/win_socks/include/unifex_IOCP_sockets.hpp:1512-1538 | for every schedule of partial transfers, every claimed total and any number of requests: success means that the goal is reached, and with the true total exactly the original bytes in order; a claim beyond the true total never succeeds and can break the assert, one below it can end the operation early; a read always ends, a write if its sends make progress, and one whose sends move nothing never does; done only after a stop, an error only after a failure, with its code, or with -1 after a read that got nothing; at most 127 requests in a row without the port |
| Echo.Split | src/unifex_TCP_simple_echo/main.cpp:23-31 | the pieces cover the payload exactly and in order, all of the full size except perhaps the last |
| Echo.StepKeepsInv | src/unifex_TCP_simple_echo/main.cpp:52-101 | each partial send or receive of either side keeps: channels hold exactly the bytes between the two cursors facing them, arrays hold the payload up to their cursor |
| Echo.NeverStuck | src/unifex_TCP_simple_echo/main.cpp:52-101 | no deadlock for any channel capacity of at least one byte: until both sides are finished some request can move |
| Echo.Finally | src/unifex_TCP_simple_echo/main.cpp:52-101 | the invariant holds after every run, and the payload is never written |
| Echo.RunsAreShort | src/unifex_TCP_simple_echo/main.cpp:52-101 | a run is no longer than the work there was at its start |
| Echo.EchoIsFaithful | src/unifex_TCP_simple_echo/main.cpp:116-117 | for every payload, cut into buffers in any way, every capacity and every schedule: runs have at most 4 n + 4 steps, end exactly when both sides are finished, and then `read_data` and `server_data` equal `write_data` and nothing is in transit |
| Scheduler.ActsInOrder | src/win_io_coro/src/io_task.cpp:41-66 | what a coroutine posts and awaits while it is resumed arrives in its own order, complete and without additions |
| Scheduler.PollConserves | src/win_io_coro/src/io_coro_scheduler.cpp:57-66 | conservation over a whole poll: port and deliveries together are, as often, what was in the port and what was posted; and the same for tasks |
| Scheduler.PollPairsInOrder | src/win_io_coro/src/io_coro_scheduler.cpp:57-66 | poll hands the j-th entry that arrived to the j-th task that was added, re-awaits and posts of resumed coroutines included, until one side runs out; entries left over are the undelivered suffix with its first entry moved to the end |
| Scheduler.PollDeliversMinimum | src/win_io_coro/src/io_coro_scheduler.cpp:57-66 | without posting, exactly min(port entries, awaits in all) deliveries are made, in port order |
| Scheduler.PollCounts | src/win_io_coro/src/io_coro_scheduler.cpp:57-66 | deliveries never exceed the awaits in all; with an exact count deliveries and awaits left add up |
| Scheduler.DeliveryKeepsPairing | src/win_io_coro/src/io_coro_scheduler.cpp:20-45 | one successful poll_one pairs the next entry with the next task and keeps both orders of arrival |
| Scheduler.DeliveryUsesAwait | src/win_io_coro/src/io_task.cpp:41-66 | each delivery uses up an await, which is why poll ends |
| Scheduler.IoScheduler.PollOnce | src/win_io_coro/src/io_coro_scheduler.cpp:20-45 | over the intrusive queue object and its heap items, whatever spurious failures it meets: refines the step function: no entry, nothing; no task, the entry goes to the back of the port; else one delivery; the result says which |
| Scheduler.IoScheduler.PollAll | src/win_io_coro/src/io_coro_scheduler.cpp:57-66 | terminates, refines repeated poll_one, and counts the deliveries |
| Scheduler.IoScheduler.Add | src/win_io_coro/src/io_coro_scheduler.cpp:52-55 | a new item is pushed, and the await behind it goes to the back of those waiting |
| Scheduler.IoScheduler.Resume | src/win_io_coro/src/io_task.cpp:41-66 | a resumed coroutine's posts and re-awaits reach the port and the task queue in order, and the delivery is logged |
| SchedulerConcurrent.Now | src/win_io_coro/src/io_coro_scheduler.cpp:20-45 | for every interleaving of posts, adds and poll_one calls over the lock-free queue itself: entries are in one place only and a thread is inside pop only with an entry in hand |
| SchedulerConcurrent.DeliveriesAreHandovers | src/win_io_coro/src/io_coro_scheduler.cpp:31-44 | over any history, deliveries of an entry to a task are exactly the turns in which a thread handed over whose latest query took that entry and whose latest pop returned that task |
| SchedulerConcurrent.PortInOrder | src/win_io_coro/src/io_coro_scheduler.cpp:20-45 | over any history, the entries taken so far followed by those in the port are the posts and re-posts in their order |
| SchedulerConcurrent.EveryEntryIsAccountedFor | src/win_io_coro/src/io_coro_scheduler.cpp:20-45 | after any history each posted entry is in the port, or with exactly one thread, or delivered exactly once, in one hand-over to the very task on record, and never in two of these places |
| SchedulerConcurrent.EveryTakenEntryIsSettled | src/win_io_coro/src/io_coro_scheduler.cpp:20-45 | over any history each entry a thread takes is posted again or handed to a task by that thread, as often as it was taken, or still in its hand; and re-posted exactly as often as the thread's pop failed with that entry in hand |
| SchedulerConcurrent.EveryAddedTaskIsAccountedFor | src/win_io_coro/src/io_coro_scheduler.cpp:31-55 | over any history a task has been added as often as its coroutine was resumed, and once more exactly while the queue has it or one thread is about to resume it |
| SchedulerConcurrent.EveryPoppedTaskIsResumedOnce | src/win_io_coro/src/io_coro_scheduler.cpp:31-44 | each task a pop returns is resumed exactly once by the thread that popped it, or is about to be |
| SchedulerConcurrent.EveryQueueRunHappens | src/win_io_coro/src/io_coro_scheduler.cpp:20-45 | whatever the queue does in some run it does in some history of the scheduler, its surprises included |
| SchedulerConcurrent.FailingPollHistory | src/win_io_coro/src/io_coro_scheduler.cpp:31-41 | a history in which poll_one finds no task and is about to re-post its entry although two tasks wait and none was ever popped |
| Completion.StepKeepsInv | src/win_socks/include/unifex_IOCP_sockets.hpp:201-227 | every step of start, stop, kernel, dispatcher and callback keeps each started operation in exactly one of five places (callback constructed but not requested yet, kernel, port, finalizing, signalled) with its stop callback alive in exactly the first three |
| Completion.ExactlyOnce | src/win_socks/include/unifex_IOCP_sockets.hpp:448-503 | an operation signals at most once; having signalled, its stop callback was built and destroyed once and no request or packet names it; with nothing outstanding a started operation has signalled. The signal is done if and only if it was stopped in time; otherwise it is the error with which its request was refused or its packet dispatched, if and only if there was one; otherwise exactly the bytes the request or the kernel reported for a write, and for a read that moved some or was offered no room, nothing read for a read with room, and for a connect whether the context was updated |
| Completion.EveryPacketIsExpected | src/win_socks/include/unifex_IOCP_sockets.hpp:2013-2023 | every packet the dispatcher takes names a live, started, unsignalled operation that is named by no other packet or request |
| Completion.DoneExactlyWhenStopped | src/win_socks/include/unifex_IOCP_sockets.hpp:215-227 | done is reported if and only if stop was requested before the stop token was looked at |
| Completion.ReadSuccessMovedBytes | src/win_socks/include/unifex_IOCP_sockets.hpp:639-646 | a read that was offered room never succeeds with zero bytes |
| RangeConnect.FirstConnected | src/win_socks/include/unifex_IOCP_sockets.hpp:1927-1939 | the least position whose endpoint accepts, or the number of endpoints |
| RangeConnect.Operation.Run | src/win_socks/include/unifex_IOCP_sockets.hpp:1946-1968 | whatever mix of immediate and dispatched answers: the receiver is told once, at the end: the first endpoint that accepts, those up to it having been tried in order, once each, and none after it; if all refuse, the last error, all having been tried; -1 if there are none |
| RangeConnect.Operation.StartNextConnect | src/win_socks/include/unifex_IOCP_sockets.hpp:1946-1961 | tells the last error and nothing else when the range is used up, else constructs and starts one child for the current endpoint; a child that answers inside its start is followed up on the spot |
| RangeConnect.Operation.OnConnectError | src/win_socks/include/unifex_IOCP_sockets.hpp:1933-1939 | destroys the child, records the error and moves on by one endpoint: the next thing in the log is its child, or that error if there is none |
| RangeConnect.Operation.OnConnectSuccess | src/win_socks/include/unifex_IOCP_sockets.hpp:1927-1931 | destroys the child for the current endpoint and then reports that endpoint, and does nothing else |
| RangeConnect.CompleteAlternates | src/win_socks/include/unifex_IOCP_sockets.hpp:1941-1960 | children are constructed and destroyed strictly alternately, at most one alive, and none alive when the receiver is told |
| AlignedRead.RoundingIsTight | src/win_io_coro/include/win_io_coro/coro_async_file.h:288-299 | rounding down gives the greatest multiple not above, rounding up the least not below |
| AlignedRead.WindowIsSmallest | src/win_io_coro/include/win_io_coro/coro_async_file.h:308-314 | the sector window lies inside every other sector-aligned window that covers the request, and its length is `Roundup(offset % sector + size)` |
| AlignedRead.NarrowingIsExact | src/win_io_coro/include/win_io_coro/coro_async_file.h:425-479 | for every size: the cast of the window length to 32 bits is lossless exactly when `offset % sector + size` fits one call, and otherwise shrinks below what was asked for; for a 32-bit size no 64-bit sum overflows |
| AlignedRead.MaskIsRoundDown | src/win_io_coro/include/win_io_coro/coro_async_file.h:323-324 | clearing the k low bits with a mask of any width subtracts the remainder modulo 2^k |
| AlignedRead.GetAlignedIsRoundUp | src/win_io_coro/include/win_io_coro/coro_async_file.h:318-328 | for every power-of-two alignment the mask form equals rounding up by division, absent address overflow |
| AlignedRead.Read | src/win_io_coro/include/win_io_coro/coro_async_file.h:433-494 | for every size and offset without 64-bit overflow, a read succeeds exactly when the device reports no fault, the whole request lies inside the file, it fits one call, and it is not a synchronous read that fell short; the slice returned lies inside the pages and is the requested part of the file; a failed read leaves no pages behind and tells the device error, 38 for an asynchronous read that starts at or behind the end, 13 when less than the sector distance arrived, else 24; the assert on the length breaks exactly for a short synchronous read |
| AlignedRead.Request.InvokeReadEnd | src/win_io_coro/include/win_io_coro/coro_async_file.h:366-405 | the broken assert, the three error cases with their codes, or a buffer that owns the pages and starts behind the request at the sector distance |
| AlignedRead.Request.InvokeReadFail | src/win_io_coro/include/win_io_coro/coro_async_file.h:407-417 | releases the pages once and hands out an empty buffer |
| AlignedRead.ReadBuffer.MoveAssign | src/win_io_coro/include/win_io_coro/coro_async_file.h:257-267 | releases what was owned, takes over the other buffer's pages and data, leaves it empty; self-assignment changes nothing |
| AlignedRead.ReadBuffer.Destroy | src/win_io_coro/include/win_io_coro/coro_async_file.h:276-283 | releases exactly the pages owned, if any |
| DirectoryChanges.NameRoundTrip | src/win_io/include/win_io/read_directory_changes.h:356-364 | a name of 16-bit units is read back from its bytes |
| DirectoryChanges.U32IsLittleEndian | src/win_io/include/win_io/read_directory_changes.h:350-364 | a 32-bit field is its four bytes, least significant first |
| DirectoryChanges.NameIsLittleEndian | src/win_io/include/win_io/read_directory_changes.h:356-364 | and a unit of a name its two |
| DirectoryChanges.U32RoundTrip | src/win_io/include/win_io/read_directory_changes.h:350-364 | a 32-bit field is read back from its four little-endian bytes, wherever it lies |
| DirectoryChanges.FieldsOf | src/win_io/include/win_io/read_directory_changes.h:356-364 | offset, action, length and name are found where section 2.7.1 of [MS-FSCC] puts them |
| DirectoryChanges.FirstRecord | src/win_io/include/win_io/read_directory_changes.h:366-372 | the size the iterator counts for a record never exceeds the record, and lies inside the buffer |
| DirectoryChanges.EncodeIsEncodedAt | src/win_io/include/win_io/read_directory_changes.h:441-457 | an encoded list, with anything before and behind it, is a chain of records whose offsets lead from one to the next |
| DirectoryChanges.Iterator.MoveToNext | src/win_io/include/win_io/read_directory_changes.h:441-457 | moves to the next record or to the end and counts exactly 12 bytes and the name; both asserts hold, the counted size stays at or below the true offset and the rest still fits |
| DirectoryChanges.Iterator.Deref | src/win_io/include/win_io/read_directory_changes.h:414-418 | yields the change of the current record |
| DirectoryChanges.Iterator.PreIncrement | src/win_io/include/win_io/read_directory_changes.h:426-431 | both the moved iterator and the returned one, which counts afresh from what is left, have the same records ahead |
| DirectoryChanges.Iterator.PostIncrement | src/win_io/include/win_io/read_directory_changes.h:433-439 | the returned iterator, which counts afresh from what was left before, still has all the records ahead that the original had |
| DirectoryChanges.Enumerate | src/win_io/include/win_io/read_directory_changes.h:465-475 | from any iterator the loop to end terminates and yields the changes of all records ahead of it |
| DirectoryChanges.EnumerateReturned | src/win_io/include/win_io/read_directory_changes.h:426-439 | the iterator that `++it` or `it++` returns in the middle of a list enumerates by itself the records ahead of it: all but the current one, or all |
| DirectoryChanges.Iterate | src/win_io/include/win_io/read_directory_changes.h:465-475 | so from begin to end it yields the whole list |
| DirectoryChanges.RoundTrip | src/win_io/include/win_io/read_directory_changes.h:390-463 | for every list of changes and every legal padding, iterating over the encoding yields exactly the list |

## Left out

- Weak memory orders: atomics are sequentially consistent here.
- QueueOrder.OneTakerCondition: speaks of runs in which pops carry nodes one at a time; the condition for every run is QueueOrder.FifoExactlyInTurn.
- IntrusiveQueue.Queue.PopLast: is the part of `pop` behind the exchange as a method of its own; so are CutLast and GiveBack for its loops, and in the transfer engine Shrink, Accept and Turn.
- Win32, Winsock and libunifex themselves. Their part is a contract: the port is first-in first-out; a request moves no more bytes than it offers; a request that ends synchronously or fails at once leaves no packet, and a pending one leaves exactly one.
- What a cancellation does to a pending request: the kernel may complete it at any time, cancelled or not.
- Per-entry status of a completed request: the dispatcher hands every callback the error of the `get_many` call, so the error is a parameter of the dispatch step in `Completion`, and no claim is made that a request which failed later becomes an error of its operation.
- The dispatcher takes up to four packets at a time in the code and one per step in the model; what can happen between two packets of a batch is a subset of what the model allows.
- ScatterGather.Transfer.Run: watches a number of requests given beforehand, since a write whose sends move nothing goes on forever; the state must not have been moved after progress, since its move constructor starts again from zero; overflow of `size_t` sums and the cast of the number of buffers to DWORD are not modelled.
- Echo.NeverStuck: takes a request to move at least one byte when it is offered some and can.
- Echo: connection set-up, accept and disconnect; the model starts with both transfers issued.
- AlignedRead.Read: stops at the broken assert; a task resumed from inside its own `await_suspend` is not modelled, and the allocation succeeds, as the code asserts.
- AlignedRead.NarrowingIsExact: keeps the offset bound the code asserts.
- AlignedRead.GetAlignedIsRoundUp: excludes addresses so high that adding the alignment overflows.
- DirectoryChanges.RoundTrip: `DirectoryChanges::start_watch` and reading from a port are not modelled, only the buffer a completed watch leaves.
- Scheduler.IoScheduler.PollAll: coroutines that poll the scheduler themselves, and coroutines destroyed while they wait, are not modelled.
- SchedulerConcurrent.EveryEntryIsAccountedFor: what a resumed coroutine does shows as posts and adds of some thread, not tied to the resumption.
- `IoScheduler::run` and `run_one`, which are not implemented; failure of the re-post in `poll_one`, which the code asserts away.
- `Operation_Resolve`, whose cancellation is marked as racy in the source, UDP operations, accept.
- RangeConnect.Operation.Run: a child that reports done is not modelled; the code asserts that it does not happen.
- The RxCpp sample, command line, printing, handle wrappers, build files and scripts.
