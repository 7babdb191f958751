# libtuv: verified data structures and protocols

A Dafny model of the hard parts of libtuv, a small-footprint libuv: the balanced trees, the timer
queue in both of its builds, the thread pool, cross-thread wakeups, signal delivery, the table of io
watchers, the stream write queue, the descriptor shuffle of a child process, the rings that callbacks
change while they are walked, and the IPv4 text form. `dafny verify dfyconfig.toml` checks everything.

How the code is carried over:

- Code that rewrites linked nodes stays on linked nodes. `RbTree`, `SplayTree`, `BinaryHeap`,
  `SortedList` and `Rings` are classes over real references; a ghost shape (a tree, a tree with a hole,
  a sequence) says what the links amount to, and each operation is proved against it.
- Protocols between threads are step systems: `Async`, `ThreadPool` and `SignalDelivery` have a `State`,
  a `Step` type and a relation `Next`, with any number of threads, loops and items, and theorems about
  every state of every run. Kernel calls and callbacks are steps that may happen whenever they are allowed.
- Objects of one thread are classes whose methods are proved against functions on values. Callbacks are a
  script of the calls they make, arbitrary in length and contents, so that a theorem for every script is
  one for every callback. `write`, `epoll_ctl`, `dup2`, `inotify_add_watch` and the clock appear as
  parameters or as nondeterministic methods with stated results.
- A specification that is a fold over calls says what a run does only as well as the fold does. The modules
  named `Laws`, and the last sections of `Async`, `LoopWatcher`, `Inotify`, `PollTimeout` and `SignalRegistry`,
  therefore state what a run must show in terms of its calls, steps and kernel answers alone: counts of steps,
  the last call for a handle, the sum of the answers for a request.

| file | source |
|---|---|
| `RbShapes`, `RbFixup`, `RbTree` | red-black trees: values and shapes, the fix-up cases, the linked tree |
| `SplayTree` | top-down splay trees |
| `BinaryHeap`, `SortedList`, `TimerSpec`, `TimerLaws`, `Timers` | the two timer queues; what timers do; what callbacks do to a pass; the timers over each queue |
| `PollTimeout` | how long the loop sleeps |
| `Async`, `ThreadPool`, `PoolLaws`, `PoolProgress` | wakeups, the pool that uses them, its runs told by their steps, and that its work comes to an end |
| `SignalDelivery`, `SignalLaws`, `SignalRegistry` | messages from the signal handler; their runs told by the steps; the tree of watchers |
| `Rings`, `Walks`, `LoopWatcher`, `Inotify` | circular lists, walks whose callbacks change them, two users |
| `Bits`, `IoWatchers`, `IoLaws` | next_power_of_two; watchers, queue and kernel interest set; what the calls amount to |
| `StreamWrites`, `StreamLaws` | the write queue of a stream; what the kernel's answers make of it |
| `ChildFds` | descriptors of a child between fork and exec |
| `Inet` | IPv4 addresses as text |
| `Seqs`, `Sums`, `Powers`, `Options` | sequences without repetition, sums over maps, powers of two, missing values |

## Findings

Places where the code does not do what its surroundings suggest; each is stated as a theorem.

- `uv__io_poll` can sleep past the first timer in exactly two ways, and does in no other
  (`PollTimeout.PollInTimeIff`). It subtracts the time since the start of the poll from what is already a
  remainder, because `base` is never moved, so that clock steps which each stay below 2^31 ms can make
  `real_timeout` wrap to a positive number (`PollTimeout.SmallStepsOverrun`). And the retry after ENOSYS uses the
  old timeout although the clock has moved (`PollTimeout.RetryOverrun`).
- A timer that repeats is due again as soon as it has fired exactly when the loop time is 2^64 - 1
  (`TimerSpec.DueAgain`); at that time `uv__run_timers` fires it for as long as nobody stops it.
- `next_power_of_two` is right exactly from 1 to 2^31 and gives 0 elsewhere (`Bits.NextPowerOfTwo`).
  `uv__io_start` admits a descriptor of 2^31 - 2, for which the table would need 2^31 + 1 entries and the
  resize asks for 0 bytes (`IoWatchers.Loop.MaybeResize`, `IoWatchers.Loop.IoStart`).
- A write request that fails may have lost nothing: an empty write that the kernel put off is reported as
  cancelled when the stream is destroyed (`StreamWrites.EmptyWriteCancelled`). Status 0 iff all bytes were
  taken holds for every request that has bytes.
- A descriptor from 3 up that has no source and was closed in the parent can be `/dev/null` in the child: a place
  among the first three opens `/dev/null` on the least unused descriptor, which is closed again only from
  `stdio_count` up. `ChildFds.StrayRun` is such a run, and `ChildFds.Process.ChildInit` says exactly which
  descriptors are affected, by a function of the table and the entries at the start (`ChildFds.LowAfter`).
- `uv_fs_event_start` leaves a kernel watch behind that no list owns when there is no memory for the list
  (`Inotify.OutOfMemoryOrphan`); exactly such starts make one, and a start that gets through to the same descriptor
  adopts it (`Inotify.OrphansApply`).
- The removal from the watcher queue inside `uv__io_start` (src/unix/core.c:752-755) is unreachable, and so is
  the guard at src/heap-inl.h:285-287.

## Model

| member | source | states |
|---|---|---|
| `RbShapes.Compare` | src/unix/signal.c:416-433 | the comparison is 0 exactly for equal keys |
| `RbShapes.HeightBound` | include/tree.h:53-61 | 2^height is at most (n+1)^2 for every red-black shape, that is height at most 2 lg(n+1) |
| `RbFixup.InsertRecolor` | include/tree.h:413-421 | with a red uncle, recolouring moves the one possible violation two levels up and keeps all else |
| `RbFixup.InsertInner` | include/tree.h:422-427 | the rotation of an inner grandchild gives the outer case with the same invariant |
| `RbFixup.InsertOuter` | include/tree.h:428-430 | the last rotation leaves a whole red-black tree |
| `RbFixup.RemoveRedSibling` | include/tree.h:459-464 | a red sibling is turned into a black one, the missing black still at the same place |
| `RbFixup.RemoveUp` | include/tree.h:465-471 | with two black nephews the missing black moves one level up |
| `RbFixup.RemoveNear` | include/tree.h:473-482 | a red near nephew becomes a red far one |
| `RbFixup.RemoveFar` | include/tree.h:483-489 | the last rotation restores equal black counts everywhere |
| `RbFixup.RemoveThinSwapped` | include/tree.h:539-570 | taking the successor out in place of the node leaves at most one missing black, below the successor's old place |
| `RbTree.Tree.RotateLeft` | include/tree.h:342-360 | the linked tree around the node is that of the rotated shape, parent links and root included; nodes and order unchanged |
| `RbTree.Tree.RotateRight` | include/tree.h:362-380 | the same, mirrored |
| `RbTree.Tree.InsertColor` | include/tree.h:406-448 | from a tree with one red node under a possibly red parent to a red-black tree of the same nodes in the same order |
| `RbTree.Tree.Insert` | include/tree.h:597-626 | keeps search order, links and both colour rules; adds exactly the node, at its place in the order, or returns the node that has the key and changes nothing |
| `RbTree.Tree.RemoveColor` | include/tree.h:450-527 | from a tree with one missing black to a red-black tree of the same nodes in the same order |
| `RbTree.Tree.Remove` | include/tree.h:529-595 | keeps the tree a red-black search tree and takes out exactly the given node, returning it |
| `RbTree.Tree.Find` | include/tree.h:628-644 | the node with the key, or null and no node has it |
| `RbTree.Tree.NFind` | include/tree.h:646-665 | the first node in the order that is not below the key, or null if all are below |
| `RbTree.Tree.Next` | include/tree.h:667-687 | the successor in the order, by links alone |
| `RbTree.Tree.Prev` | include/tree.h:689-708 | the predecessor in the order, by links alone |
| `RbTree.Tree.MinMax` | include/tree.h:710-724 | the first or the last node of the order |
| `RbTree.Tree.UniqueKey` | include/tree.h:597-626 | two nodes of a valid tree never share a key |
| `RbTree.Run` | include/tree.h:406-626 | after every sequence of insertions and removals: a red-black search tree of exactly the keys put and not deleted since, at a height of at most 2 lg(n+1) |
| `SplayTree.RotateRight` | include/tree.h:88-92 | in-order sequence and links are those of the rotated tree |
| `SplayTree.RotateLeft` | include/tree.h:94-98 | the same, mirrored |
| `SplayTree.LinkLeft` | include/tree.h:100-104 | the root joins the spine on the right, its left subtree is the tree |
| `SplayTree.LinkRight` | include/tree.h:106-110 | the mirror image |
| `SplayTree.Assemble` | include/tree.h:112-117 | both spines become the subtrees of the root |
| `SplayTree.Splay` | include/tree.h:208-278 | terminates, keeps nodes and in-order sequence, and leaves at the root the searched key or a neighbour of it; for the two ends, the first or last node |
| `SplayTree.Tree.Find` | include/tree.h:127-136 | the node with the key, now the root, or null and no node has it; the sequence is unchanged |
| `SplayTree.Tree.Next` | include/tree.h:138-152 | the next node of the sequence, or null after the last |
| `SplayTree.Tree.MinMax` | include/tree.h:244-278 | the first or last node of the sequence, now the root |
| `SplayTree.Tree.Insert` | include/tree.h:163-185 | insertion into the sorted sequence, or the node that has the key, also if it is the given one, and no change |
| `SplayTree.Tree.Remove` | include/tree.h:187-206 | removal of the node with the key from the sorted sequence; null and no change if there is none |
| `SplayTree.NearGreatest` | include/tree.h:196-202 | the second splay puts the greatest node of the left subtree at its root, so that its right link is free |
| `SplayTree.Run` | include/tree.h:163-242 | after every sequence of insertions, removals and look-ups: a search tree of exactly the keys put and not deleted since |
| `BinaryHeap.PathTo` | src/heap-inl.h:218-220 | the bits collected lead from the root to position n, for every n that fits unsigned int |
| `BinaryHeap.Heap.FollowPath` | src/heap-inl.h:222-232 | following the bits ends at the link where node n is or belongs, and at its parent's link |
| `BinaryHeap.Heap.NodeSwap` | src/heap-inl.h:168-200 | parent and child change places in the complete tree, all six kinds of links repaired |
| `BinaryHeap.Heap.Insert` | src/heap-inl.h:202-244 | keeps shape, parent links and heap order; exactly the new node is added and nelts grows by one |
| `BinaryHeap.Heap.WalkDown` | src/heap-inl.h:312-325 | moves a node down until it is not above a smaller child, order elsewhere kept |
| `BinaryHeap.Heap.WalkUp` | src/heap-inl.h:327-332 | moves a node up until the whole heap is in order |
| `BinaryHeap.Heap.Remove` | src/heap-inl.h:246-333 | removes any node: shape, links and order kept, exactly that node gone, nelts less one |
| `BinaryHeap.Heap.Min` | src/heap-inl.h:163-166 | a least node, or null for an empty heap |
| `BinaryHeap.RootIsLeast` | src/heap-inl.h:163-166 | in an ordered heap no position is below the root |
| `SortedList.List.Insert` | src/heap-inl.h:61-92 | the node goes behind every node due no later and before every later one; links and order kept |
| `SortedList.List.Remove` | src/heap-inl.h:94-119 | exactly the node is cut out; a node that is not in the list changes nothing |
| `TimerSpec.DeadlineSaturates` | src/unix/timer.c:105-107 | the clamped 64-bit sum is the sum, or 2^64-1 where that does not fit |
| `TimerSpec.DueAgain` | src/unix/timer.c:188-205 | a repeating timer that has just fired is due again iff the loop time is 2^64-1 |
| `TimerSpec.OrderUnique` | src/unix/timer.c:44-68 | there is only one order by (timeout, start id) |
| `TimerSpec.InsertOrder` | src/heap-inl.h:61-92 | stable insertion by timeout alone keeps the order by (timeout, start id) |
| `TimerSpec.FiredStep` | src/unix/timer.c:192-204 | the next timer to fire is the first one; it is stopped, restarted if it repeats, and then its callback's calls apply, in the order and with the effects that `TimerLaws` states |
| `TimerSpec.QuietRun` | src/unix/timer.c:188-205 | if callbacks leave the timers alone, exactly the due timers fire, once each, by (timeout, start order), none is due afterwards, repeating ones are restarted and others gone |
| `TimerSpec.QuietPass` | src/unix/timer.c:188-205 | this holds after every run, whatever callbacks did before |
| `TimerLaws.LastStop` | src/unix/timer.c:126-141 | a callback whose last start-or-stop call for a timer is a stop leaves it inactive |
| `TimerLaws.LastStart` | src/unix/timer.c:93-123 | a callback whose last call for a timer is a start leaves it active with that deadline and that repeat value |
| `TimerLaws.LastAgain` | src/unix/timer.c:144-154 | uv_timer_again starts a timer that has a repeat value, active or not, from now; it leaves another alone |
| `TimerLaws.LastSetRepeat` | src/unix/timer.c:157-159 | a new repeat value takes effect and neither starts nor stops the timer |
| `TimerLaws.StartedLast` | src/unix/timer.c:105-112 | a timer just started falls due after all others that have its timeout |
| `TimerLaws.Unmentioned` | src/unix/timer.c:188-205 | for every script of callbacks, a timer that none of them mentions fires exactly once if it is due and else never, and is left stopped, restarted with its repeat value, or as it was |
| `TimerLaws.StoppedDoesNotFire` | src/unix/timer.c:192-203 | a timer that a callback stops, and that none starts again before, does not fire at any later turn; if none does to the end, it is left stopped |
| `TimerLaws.StartedFires` | src/unix/timer.c:192-203 | a timer that a callback starts, and that no call mentions after that, fires exactly once in the rest of the pass if its timeout is 0 and else not at all; its deadline and repeat value at the end |
| `TimerLaws.DueFires` | src/unix/timer.c:192-203 | a due timer that no callback mentions before its turn fires |
| `TimerLaws.DueInOrder` | src/unix/timer.c:44-68 | of two due timers that no callback mentions, the first by (timeout, start id) fires first, for every script |
| `TimerLaws.AfterMore` | src/unix/timer.c:93-205 | one more call, clock change or pass takes effect on exactly what the run before it left |
| `Timers.HeapTimers.StartTimer` | src/unix/timer.c:93-123 | the handle is active with its clamped deadline and the next start id, whatever it was before; a NULL callback changes nothing; there is always room |
| `Timers.HeapTimers.StopTimer` | src/unix/timer.c:126-141 | exactly the handle becomes inactive |
| `Timers.HeapTimers.AgainTimer` | src/unix/timer.c:144-154 | a repeating timer is started again from now, another one is left alone, and a handle without callback is refused |
| `Timers.HeapTimers.Run` | src/unix/timer.c:188-205 | terminates and fires exactly the timers of the specification, for callbacks that start, stop and restart any timers |
| `Timers.HeapTimers.Drain` | src/unix/timer.c:44-68 | repeated extraction of the minimum lists the active timers by (timeout, start id) |
| `Timers.ListTimers.StartTimer` | src/unix/timer.c:93-123 | the same new state as in the heap build, without storing start ids |
| `Timers.ListTimers.StopTimer` | src/unix/timer.c:126-141 | exactly the handle becomes inactive |
| `Timers.ListTimers.AgainTimer` | src/unix/timer.c:144-154 | the same new state as in the heap build |
| `Timers.ListTimers.Run` | src/unix/timer.c:188-205 | terminates and fires exactly the timers of the specification, for all callbacks |
| `Timers.ListTimers.Drain` | src/heap-inl.h:57-119 | repeated extraction of the head lists the active timers by (timeout, start order) |
| `Timers.RunHeap` | src/heap-inl.h:202-333 | every sequence of timer calls, clock changes and passes fires what the specification fires and ends in its order |
| `Timers.RunList` | src/heap-inl.h:61-119 | the same for the list |
| `Timers.SameOrder` | src/unix/timer.c:44-205 | for every sequence of timer calls and passes of the loop, with any callbacks, the list that compares timeouts alone fires the same timers in the same order as the heap that also compares start ids, and would hand out the rest in the same order |
| `PollTimeout.IoPoll` | src/unix/linux-core.c:253-427 | the loop requests exactly the sleeps of the recursive specification, for every script of kernel answers |
| `PollTimeout.UpdateIs` | src/unix/linux-core.c:422-426 | the 32-bit recomputation in closed form: what is left, a wrapped positive number, or the end of the poll |
| `PollTimeout.InTimeIff` | src/unix/linux-core.c:309-312 | from any point of a poll, every positive sleep ends by the deadline iff the clock does not move too far during a retry after ENOSYS and no recomputation wraps to too long a sleep |
| `PollTimeout.PollInTimeIff` | src/unix/timer.c:167-185 | the same for the poll that starts from uv_backend_timeout and the deadline of the first timer, for every monotone clock |
| `PollTimeout.NeverLate` | src/unix/linux-core.c:419-426 | neither happens while the clock stays within 2^31 ms of the start of the poll and still during a retry |
| `PollTimeout.SmallStepsOverrun` | src/unix/linux-core.c:422-426 | two clock steps below 2^31 ms after which the loop asks for a sleep past the deadline |
| `PollTimeout.RetryOverrun` | src/unix/linux-core.c:308-313 | a retry after ENOSYS that sleeps past the deadline |
| `PollTimeout.BackendTimeoutIs` | src/unix/core.c:271-288 | a busy loop gets 0; without a timer the timeout is -1; otherwise it is 0 iff the first timer is due, and else ends at its deadline or is INT_MAX before it |
| `PollTimeout.SleepsTheRest` | src/unix/linux-core.c:419-426 | a sleep that ends with nothing to report goes on for what is left of it, and ends the poll once nothing is left |
| `PollTimeout.FullBatches` | src/unix/linux-core.c:404-411 | while the buffer comes back full the loop polls again without sleeping, as often as the count allows and no more |
| `PollTimeout.WaitsOn` | src/unix/linux-core.c:318-319 | a wait without end goes on after every interruption, still without end |
| `PollTimeout.ComesBack` | src/unix/linux-core.c:401-414 | an event, a signal, or any answer to a poll that was not to sleep ends the poll |
| `Async.NextInv` | src/unix/async.c:84-202 | every step of senders and loop keeps the invariant behind the next row |
| `Async.RunInv` | src/unix/async.c:84-202 | it holds in every state of every run |
| `Async.NoLostSend` | src/unix/async.c:84-124 | a handle sent to since its callback last started has a send in progress, or is pending and the loop is bound to look at it: the event fd is readable, a writer is about to write, or the pass has still to visit it |
| `Async.SendIsServed` | src/unix/async.c:84-124 | from every uv_async_send on, until the callback of the handle starts or it is closed, a send is in progress, or the handle is pending and the loop is bound to look at it |
| `Async.CallbacksAreSent` | src/unix/async.c:84-124 | a handle is never called back more often than it was sent to, and sends under way or pending are not used up yet |
| `Async.CounterIsWrites` | src/unix/async.c:127-202 | the event fd holds exactly the writes since it was last read, and is read only if there are some |
| `Async.PassVisitsEach` | src/unix/async.c:109-116 | a pass comes exactly once to each handle it finds and that is not closed meanwhile, and to no other |
| `ThreadPool.NextInv` | src/threadpool.c:79-263 | every step of workers, submitters, cancellers, loops and the exit message keeps the invariant of the pool |
| `ThreadPool.RunInv` | src/threadpool.c:79-263 | it holds in every state of every run |
| `ThreadPool.OnePlace` | src/threadpool.c:205-263 | an item is in exactly one place until done is called, which happens once at most; status 0 iff its work ran, once, and UV_ECANCELED iff it never ran and a cancel returned 0 |
| `ThreadPool.NoStrandedEntry` | src/threadpool.c:76-131 | with a queued entry and a live worker, some live worker is awake or signalled, although post signals only idle threads |
| `ThreadPool.CompletionsNotLost` | src/threadpool.c:112-117 | a non-empty loop queue always has a wakeup under way or a drain about to take it |
| `ThreadPool.ExitComesLast` | src/threadpool.c:133-163 | no worker has left while an item queued before the exit message is still queued |
| `ThreadPool.NoDeadlock` | src/threadpool.c:217-240 | with a queued entry and a live worker some thread can always serve the queue or release a lock: the nested locks never block for good |
| `PoolLaws.CancelIff` | src/threadpool.c:217-240 | in every run uv_cancel returns 0 iff the work has not run and no worker has the item; it takes it out of its queue then, and otherwise leaves all items, the queue and the workers alone |
| `PoolLaws.CancelledForGood` | src/threadpool.c:223-261 | a cancel of a queued item holds: the work never runs, and `done` is called once, with UV_ECANCELED, exactly when the item is in no place any more |
| `PoolLaws.CancelledIff` | src/threadpool.c:223-239 | the record of a cancel that returned 0 is set iff some earlier step was such a cancel |
| `PoolLaws.RecordIsOfSteps` | src/threadpool.c:110-261 | the counts of runs and of `done` calls that OnePlace speaks of are those of the steps |
| `PoolLaws.FirstInFirstOut` | src/threadpool.c:94-125 | workers take items in the order of submission, except cancelled ones |
| `PoolLaws.DoneInOrder` | src/threadpool.c:252-261 | `done` is called in the order of completion, for items that uv_cancel does not take back |
| `PoolLaws.DoneOnOwnLoop` | src/threadpool.c:205-262 | `done` is called by the loop that submitted the item |
| `PoolLaws.MutualExclusion` | src/threadpool.c:112-117 | at most one thread is inside a section of a loop's mutex, and at most one inside uv_cancel's section of the global one |
| `PoolProgress.ProductiveLowers` | src/threadpool.c:79-119 | every step by which the pool gets on with work it has lowers a rank |
| `PoolProgress.StretchIsBounded` | src/threadpool.c:79-263 | a stretch of such steps is no longer than the rank at its start, in any interleaving |
| `PoolProgress.EndOfWork` | src/threadpool.c:76-163 | where no such step is possible the queue is empty or every worker has left |
| `PoolProgress.ExitReleasesAll` | src/threadpool.c:94-104 | one exit message releases every worker: once it is posted, a state without such a step has no worker left |
| `SignalDelivery.NextInv` | src/unix/signal.c:136-174 | every step of the handler, of dispatch and of start, stop and close keeps the invariant of messages and counters |
| `SignalDelivery.RunInv` | src/unix/signal.c:136-467 | it holds in every state of every run, for any number of loops and handles |
| `SignalDelivery.Accounted` | src/unix/signal.c:161-169 | undispatched messages plus dispatched_signals equals caught_signals, plus one while the handler is between its write and its increment |
| `SignalDelivery.ListedIsUnreachable` | src/unix/signal.c:275-286 | a handle on the closing list was put there once; no message, buffer, callback, handler, tree entry or call refers to it any more |
| `SignalDelivery.DrainedIsListed` | src/unix/signal.c:393-400 | a closing handle is on the closing list iff no message for it is left, whenever its loop thread is between two messages, also after uv_close in its own callback |
| `SignalDelivery.CallbackOnOpenHandle` | src/unix/signal.c:386-389 | the assertion before the callback holds: the handle is open and started for the signal of the message |
| `SignalLaws.CatchTriesEach` | src/unix/signal.c:149-170 | from a catch to the release of the lock the handler comes exactly once to each handle started for the signal, and to no other |
| `SignalLaws.EachCalledBack` | src/unix/signal.c:382-391 | while a handle has the signal, callbacks begun for it plus messages waiting at the end are messages written for it plus those waiting at the start, counted over the steps |
| `SignalLaws.InOrder` | src/unix/signal.c:355-412 | what a loop has taken up, followed by what waits for it, is what was written to its pipe, in that order |
| `SignalLaws.TakenCalls` | src/unix/signal.c:386-389 | a message taken up begins a callback iff its handle still has the signal |
| `SignalLaws.CalledOnOwnLoop` | src/unix/signal.c:162-388 | a callback runs on the loop that its handle was initialised for |
| `SignalLaws.CallsAchieve` | src/unix/signal.c:275-340 | when uv_signal_start returns the handle has the signal, or none if it was refused; after uv_signal_stop it has none; after uv_close it has none and is closing |
| `SignalLaws.StaysSteady` | src/unix/signal.c:289-340 | a handle keeps its signal until a start for another one, a stop or a close is called for it |
| `SignalDelivery.NothingDangles` | src/unix/signal.c:382-391 | every handle that a message, a pending call or the handler is about to touch exists and is not yet listed |
| `SignalRegistry.Registry.FirstNode` | src/unix/signal.c:119-133 | the first tree node of the signal, or null iff no watcher is started for it |
| `SignalRegistry.Registry.Handler` | src/unix/signal.c:149-170 | tries one message for each started watcher of the signal and for no other |
| `SignalRegistry.Registry.Start` | src/unix/signal.c:289-340 | the watcher has the signal iff it is valid and not 0; a failed start leaves it stopped, signal 0 leaves it as it was; handlers stay installed exactly for watched signals |
| `SignalRegistry.Registry.Stop` | src/unix/signal.c:443-467 | the watcher is stopped, and the OS handler goes with the last watcher of the signal |
| `SignalRegistry.Registry.Adjacent` | src/unix/signal.c:416-427 | watchers of one signal are adjacent in the tree and start where (signum, NULL) cuts it |
| `SignalRegistry.Run` | src/unix/signal.c:289-467 | over every run a handler is installed for exactly the signals that some watcher is started for |
| `SignalRegistry.LastCallDecides` | src/unix/signal.c:289-467 | after every run a watcher has the signal of its last deciding call: that of a start if it is valid, and none after a stop or a refused start |
| `Rings.InsertHead` | src/queue.h:83-90 | the ring with the link in front |
| `Rings.InsertTail` | src/queue.h:92-99 | the ring with the link at the end |
| `Rings.Remove` | src/queue.h:101-106 | the ring without the link, wherever it stood |
| `Rings.RemoveAlone` | src/queue.h:101-106 | removing a link that is in no list does nothing |
| `Rings.Split` | src/queue.h:61-70 | two rings, cut before the given link |
| `Rings.Move` | src/queue.h:72-81 | the elements are moved to the new head and the old one is empty |
| `Rings.Add` | src/queue.h:52-59 | the elements of the second ring follow those of the first, also when it is empty |
| `Rings.Empty` | src/queue.h:39-40 | true iff the ring has no element |
| `Rings.Head` | src/queue.h:42-43 | the first element |
| `Walks.EachOnce` | src/unix/loop-watcher.c:63-75 | each element of the walk is called exactly once if no earlier callback takes it out, otherwise not at all, and nothing else is called |
| `Walks.CalledOnce` | src/unix/loop-watcher.c:63-75 | told by the calls of the callbacks: each element is called exactly once unless the callback of an earlier call stops it |
| `LoopWatcher.Watchers.StartHandle` | src/unix/loop-watcher.c:47-54 | an inactive handle with a callback becomes active and goes to the head of the list; otherwise nothing changes; rings stay well formed |
| `LoopWatcher.Watchers.StopHandle` | src/unix/loop-watcher.c:56-61 | the handle leaves whichever list it is linked into, the loop's or the one on the stack of a walk |
| `LoopWatcher.Watchers.RunIdle` | src/unix/loop-watcher.c:63-75 | terminates and makes exactly the calls of the walk, for callbacks that start and stop any handles, and leaves the list they amount to |
| `LoopWatcher.ApplyAllWalk` | src/unix/loop-watcher.c:47-61 | a callback takes from the rest of the walk exactly the handles it stops, whatever it starts |
| `LoopWatcher.ActiveByCalls` | src/unix/loop-watcher.c:47-61 | after a callback a handle is active iff its last start has no stop after it, or it was active and is not stopped |
| `LoopWatcher.ActiveByWalk` | src/unix/loop-watcher.c:63-75 | the same for a whole walk and all calls that its callbacks make |
| `LoopWatcher.QuietWalk` | src/unix/loop-watcher.c:63-75 | a walk whose callbacks make no calls calls every handle and leaves the list as it was, in order |
| `Bits.NextPowerOfTwo` | src/unix/core.c:674-683 | the least power of two not below the argument iff that is from 1 to 2^31, and 0 otherwise |
| `Bits.SmearStep` | src/unix/core.c:676-680 | one shift-and-or doubles the run of leading ones |
| `Bits.LeastPowIsLeast` | src/unix/core.c:674-683 | no smaller power of two reaches the argument |
| `IoWatchers.Loop.MaybeResize` | src/unix/core.c:685-717 | all entries and the two tail slots are kept, new entries are NULL, and the size is the least power of two that fits, iff that is at most 2^31; otherwise 0 bytes are asked for |
| `IoWatchers.Loop.IoStart` | src/unix/core.c:737-767 | adds the wanted events and nothing else; table, queue, count and kernel set stay consistent, for every admitted descriptor but the last one, where the resize fails |
| `IoWatchers.Loop.IoStop` | src/unix/core.c:770-799 | exactly the given events are no longer wanted of the watcher; if none is left it leaves table and queue, and otherwise what the kernel knows of it is unchanged |
| `IoWatchers.Loop.IoClose` | src/unix/core.c:802-808 | the watcher is stopped, the kernel does not watch its descriptor, and no event of the poll in progress names it |
| `IoWatchers.Loop.InvalidateFd` | src/unix/linux-core.c:125-154 | exactly the events of the descriptor become -1, and the kernel forgets it |
| `IoWatchers.Loop.Drain` | src/unix/linux-core.c:206-244 | never aborts, although MOD needs an entry and ADD a free place; afterwards the kernel's set is what is wanted plus stale entries, and every registered descriptor is watched for exactly the wanted events |
| `IoWatchers.Loop.Disarm` | src/unix/linux-core.c:347-355 | taking a stray descriptor off the kernel set breaks nothing |
| `IoWatchers.NothingQueued` | src/unix/linux-core.c:206-209 | without used slots the queue is empty, as the source asserts |
| `IoWatchers.PollAgrees` | src/unix/linux-core.c:211-244 | right after a poll, in every run, the kernel watches every registered descriptor for exactly the wanted events |
| `IoWatchers.UsedCount` | src/unix/core.c:763-766 | the used slots are as many as the watchers that want events |
| `IoLaws.WantedIff` | src/unix/core.c:737-808 | after every run an event is wanted iff some uv__io_start asked for it and since then neither a uv__io_stop of that event nor a uv__io_close was called for the watcher |
| `IoLaws.KernelIff` | src/unix/linux-core.c:125-244 | after every run the kernel watches a descriptor iff some poll told it so and neither a close nor a stray event took it off since, and then for the events wanted at the last such poll |
| `IoWatchers.Run` | src/unix/core.c:674-808 | after every run with one watcher per descriptor the fields of all watchers and the kernel's set are those of a fold over the calls, nfds counts the watchers that want events, and table and queue agree with them |
| `Inotify.TreeIffActive` | src/unix/linux-inotify.c:111-125 | a list exists for a watch descriptor iff an active handle uses it or it is being walked |
| `Inotify.Watchers.StartHandle` | src/unix/linux-inotify.c:209-260 | an inactive handle joins the list of its watch descriptor, made if needed; refused if active or on a kernel error; without memory for a new list only the kernel's watch is added |
| `Inotify.Watchers.StopHandle` | src/unix/linux-inotify.c:263-280 | the list is found, the handle leaves it, and the list is freed iff it is empty and not being walked |
| `Inotify.Watchers.Event` | src/unix/linux-inotify.c:163-198 | exactly the calls of the walk, the walked list present throughout and freed only afterwards and only if empty; a stale event does nothing |
| `Inotify.ApplyAllLocal` | src/unix/linux-inotify.c:173-194 | whatever a callback stops and restarts, the walked list stays and loses exactly the handles stopped |
| `Inotify.OrphansApply` | src/unix/linux-inotify.c:234-244 | exactly which calls make and end a kernel watch without a list |
| `Inotify.NoOrphans` | src/unix/linux-inotify.c:117-125 | while no start runs out of memory, the kernel watches exactly the descriptors that have a list |
| `Inotify.ActiveIff` | src/unix/linux-inotify.c:163-280 | after every run without memory failures a handle is active iff some start of it that the kernel accepted has no stop after it, the calls of all callbacks included |
| `Inotify.QuietEvent` | src/unix/linux-inotify.c:163-198 | an event whose callbacks make no calls is told to every handle of the list in order, and leaves everything as it was |
| `Inotify.OutOfMemoryOrphan` | src/unix/linux-inotify.c:242-244 | a start that runs out of memory leaves its watch behind |
| `Inotify.AfterOk` | src/unix/linux-inotify.c:117-280 | every state between the acts of a run is sound |
| `Inotify.Run` | src/unix/linux-inotify.c:117-280 | after every run the lists, the active handles, the kernel's watches and the calls made per delivery are those of a fold over the acts, and there is a list for exactly the watch descriptors in use |
| `StreamWrites.Stream.Submit` | src/unix/stream.c:1403-1487 | the request joins the end of the queue with all its bytes counted and is written at once iff the size was 0 and no connect is pending; EBADF and no change on a closed stream |
| `StreamWrites.Stream.Consume` | src/unix/stream.c:889-933 | exactly n bytes leave the buffers and write_queue_size; the request is finished iff none is left; the inner assertions hold |
| `StreamWrites.EatRest` | src/unix/stream.c:891-932 | what is left of the buffers is what is left of the bytes, and the last buffer is passed iff no byte is left |
| `StreamWrites.Stream.Write` | src/unix/stream.c:768-947 | the kernel gets a prefix of the first request's rest, of at most iovmax buffers; the request completes with 0 iff all was taken, with the error if it fails, and else stays with a wakeup requested |
| `StreamWrites.Stream.ReqFinish` | src/unix/stream.c:728-751 | the head moves to the completed queue, keeping its buffers only on error |
| `StreamWrites.Stream.Flush` | src/unix/stream.c:445-457 | every queued request is completed, in order, with the error |
| `StreamWrites.Stream.Callback` | src/unix/stream.c:954-971 | the next request in order of submission is called back with its status and its unsent bytes leave write_queue_size |
| `StreamWrites.Stream.TryWrite` | src/unix/stream.c:1508-1553 | returns the number of bytes the kernel took, or EAGAIN if it took none of some; the request is withdrawn and all accounts are as before |
| `StreamWrites.Stream.Destroy` | src/unix/stream.c:460-485 | write_queue_size is 0 at the end, every request has been called back, the queued ones with ECANCELED |
| `StreamWrites.Stream.Io` | src/unix/stream.c:1333-1335 | a round of writing keeps every queued request awake: POLLOUT is watched or the watcher is fed |
| `StreamWrites.Stream.Connected` | src/unix/stream.c:1383-1388 | after a connect the queued requests still have a wakeup, or are about to be flushed |
| `StreamWrites.Stream.Drain` | src/unix/stream.c:684-689 | POLLOUT is no longer watched once the queue is empty, and as before otherwise |
| `StreamWrites.TookOk` | src/unix/stream.c:897-913 | a partial write keeps: bytes on the wire are, per request in order of submission, a prefix of its data |
| `StreamWrites.FinishedOk` | src/unix/stream.c:925-930 | so does the last part of a request, whose status 0 then means all bytes |
| `StreamWrites.DataIsAccepted` | src/unix/stream.c:1417-1463 | the requests are exactly the writes made before the stream was closed, and the tries that found it connected and without a byte waiting, in the order of the calls |
| `StreamWrites.EveryRequest` | src/unix/stream.c:445-974 | in every run the kernel got, request after request, a prefix of each accepted write; each but those of uv_try_write is called back once, in order, and with status 0 iff all its bytes were taken, if it has any |
| `StreamWrites.Run` | src/unix/stream.c:445-974 | the stream after every run and its destruction is that of a fold over the calls: queues, bytes taken, statuses and callbacks; no byte is left in the count |
| `StreamLaws.WireGrows` | src/unix/stream.c:889-913 | every call puts on the wire the lesser of the kernel's count and the bytes in the first iovmax buffers of the first request; nothing for EAGAIN, for an error and for a call that makes no write |
| `StreamLaws.SentIsCredit` | src/unix/stream.c:768-947 | in every run the bytes taken of each request are those its answers stand for |
| `StreamLaws.ResultFromAnswers` | src/unix/stream.c:445-974 | the result of every request from the kernel's answers alone: 0 iff they stand for all its bytes, else the error answered, else ECANCELED; status 0 implies counts that sum to at least its length |
| `StreamLaws.CallbackRounds` | src/unix/stream.c:954-971 | callbacks are made by the callback loop alone, one a round, while some request is neither called back nor queued |
| `StreamLaws.FailedConnect` | src/unix/stream.c:1383-1399 | a failed connect completes all queued requests with ECANCELED, in order |
| `StreamWrites.EmptyWriteCancelled` | src/unix/stream.c:460-471 | one empty write, put off by the kernel, is cancelled by destruction although nothing of it is missing |
| `ChildFds.Process.Raise` | src/unix/process.c:311-324 | sources below their place are duplicated above stdio_count; nothing else changes |
| `ChildFds.Process.Place` | src/unix/process.c:326-362 | every descriptor gets its file without replacing a source that is still needed |
| `ChildFds.Process.CloseSources` | src/unix/process.c:364-369 | exactly the sources above the child's descriptors are closed |
| `ChildFds.Process.ChildInit` | src/unix/process.c:311-369 | on success descriptor i is the file its source named at entry, not close-on-exec, for all overlapping and swapped sources; one from 3 up without a source is open iff the three-step function of the table at entry says so; above them nothing new is open, and sources and parent ends are closed; it succeeds if no system call fails |
| `ChildFds.StrayLow` | src/unix/process.c:333-345 | that function for five entries without sources and three open descriptors: 3 and 4 end up open |
| `ChildFds.StrayRun` | src/unix/process.c:333-361 | a child with /dev/null on 3 and 4 |
| `Inet.Complete` | src/inet.c:93-129 | parsing the printed form of any address gives the address back |
| `Inet.Sound` | src/inet.c:93-129 | whatever the parser accepts is the printed form of its result |
| `Inet.ParseIffPrinted` | src/inet.c:93-129 | accepted with result a iff printed from a, and accepted iff in the grammar |
| `Inet.GrammarIsPrinted` | src/inet.c:64-69 | the printed addresses are exactly IPv4address of section 3.2.2 of RFC 3986 |
| `Inet.PrintInjective` | src/inet.c:64-69 | different addresses have different texts |
| `Inet.Ntop4` | src/inet.c:64-76 | the text and its terminator are stored iff they fit, otherwise ENOSPC and no change |
| `Inet.Pton4` | src/inet.c:93-129 | 0 iff the string is in the grammar, and then the address that prints as it; otherwise EINVAL and no change |

## Left out

- Wrap-around of 32- and 64-bit counters: `timer_counter`, `caught_signals`, `dispatched_signals` and `write_queue_size` are unbounded here. Timer deadlines, the poll timeout, `next_power_of_two` and the path bits of the heap keep their widths.
- Timers.SameOrder: fewer than 2^32 timer handles, because `nelts` is an unsigned int; passes at loop time 2^64 - 1, which need not end, are left out, and callbacks do not move the clock.
- Timers.HeapTimers.Run and Timers.ListTimers.Run: the loop time is below 2^64 - 1, for the same reason.
- Timers: each start makes a new queue node where the source reuses the one inside the handle.
- `nelts` of the list build, which its heap_remove never decrements and nothing reads.
- ThreadPool: sections under one mutex that touch nothing another thread can see outside it are one step. uv_cancel is called from the loop thread for items whose `done` has not started, as its documentation requires; starting the threads is not modelled.
- PoolProgress.StretchIsBounded: that a possible step is eventually taken depends on the scheduler.
- SignalDelivery: messages are whole, as the comment at src/unix/signal.c:157-160 assumes, so the reassembly at 405-412 is not modelled; uv__signal_loop_cleanup is not modelled.
- SignalRegistry: the key of a tree node does not change here, so each start makes a new node where the source reuses the one inside the handle.
- Inotify.ActiveIff: runs in which no start runs out of memory; whether a start without memory succeeds depends on whether its descriptor has a list then, which `Inotify.Watchers.StartHandle` states.
- Inotify: the tree of lists is a map; what makes it one is proved in RbTree. The kernel does not drop watches by itself.
- IoWatchers.Run: descriptors up to 2^31 - 3; kernel errors other than EEXIST and ENOENT, which abort the process, are not modelled.
- StreamWrites: non-blocking streams only, as the retry of blocking ones may spin on the kernel; the failure path of malloc in uv_write2, passed handles, reading, shutdown requests and the macOS select thread are not modelled. Connecting follows TCP.
- ChildFds.Process.ChildInit: descriptor flags other than close-on-exec, and the survival of the error pipe itself when it has a low number.
- RbTree and SplayTree: the comparison is that of the signal tree and of integers; any total order would do.
- IPv6 text, name resolution, file system requests, UDP, TTY, process exit, the fixed pollfd backends, FSEvents, Windows and the platform files: system call plumbing or easy members.
- Active-handle counting, error name tables and handle type switches: single-branch facts.
