# Verified model of the RTMP server core and its State Threads library

The repository is a small RTMP server on top of State Threads 1.9, a library of cooperative threads. This project
models the parts on which everything else rests and proves what they promise.

* **Timeout heap** (`HeapModel.dfy`, `TimeoutHeap.dfy`). The sleep queue is a binary heap of thread records linked only
  by left and right pointers and addressed by the binary digits of an index. `HeapModel` treats the numbered layout as
  a value; `TimeoutHeap` performs the pointer updates in place and keeps both in agreement.
* **Scheduler** (`Scheduler.dfy` and the `Scheduler*` files, `Queues.dfy`). A state machine whose steps run from one
  context switch to the next: polling, sleeping, condition variables, mutexes, join, interrupt, exit, I/O dispatch and
  the clock check. `SchedulerInvariant` proves what every step keeps, `SchedulerRuns` defines runs, `SchedulerEffects`
  says what a step does to a thread that does not take it, `SchedulerTheorems` and `SchedulerJoin` state the properties
  of all runs, `SchedulerLaws` what each call answers and changes in them, and `SchedulerVp` has the library calls as
  in-place updates that implement the steps. `SleepQueue` puts those updates and the timeout heap together: from
  initialization on, every sequence of steps performed on both is a run of the machine, the idle thread wakes in the
  order that the heap yields, and the heap stays in step.
* **Event systems** (`PollRequests.dfy`, `SelectEvents.dfy`, `EpollEvents.dfy`). Reference counts, descriptor sets and
  the kernel's interest set mirror the I/O queue. `epoll_ctl` fails as the kernel's does on an absent or present
  descriptor, and may refuse a descriptor that is being added.
* **LRU cache** (`CacheModel.dfy`, `CacheRuns.dfy`, `LruCache.dfy`). Hash chains with back pointers, reference counts,
  deferred deletion and two bounds; as values with all runs, and as linked entries updated in place.
* **Short transfers** (`VectorIo.dfy`). The read and write loops against a kernel that moves any part, is interrupted,
  is not ready or fails. Its behaviour is a finite list of results after which it fails for good, so every execution
  that returns is covered.
* **Chunks and headers** (`Bytes.dfy`, `Chunking.dfy`), **objects and metadata** (`Amf.dfy`, `CommandMessages.dfy`,
  `Metadata.dfy`). The chunk streams of section 5.3.1 of the Adobe RTMP specification 1.0 and the AMF0 values of
  sections 2.2 to 2.11 of the AMF0 specification.

`Options.dfy` and `Triggers.dfy` hold what several of these share.

What the kernel, the clock and the caller decide enters as parameters: which requests are ready, the time, which
thread a call names, timeouts that fit. The clock does not go back.

Where the code does not do what it is for, the exact condition under which it does is proved, and an input or a run on
which it does not is given:

* A join of a thread that an earlier join took off the zombie queue, but that has not run since, parks its caller for
  good: nobody but an interrupt can wake it (`SchedulerJoin.ParksOnEndingIff`, `JoinEndsIff`, `JoinHangs`; a run:
  `JoinedTwice`).
* The relay loop subtracts 12 bytes for its header even if it sent 16, so that a message with a timestamp of 0xFFFFFF or
  more loses four bytes, or its end, unless its payload fits one chunk; and what is neither audio nor video goes out on
  chunk stream 0 (`Chunking.RelayIsRightIff`, `RelayIsReadIff`; `RelayLosesAChunk`, `RelayMisnamesOthers`).
* The header writer extends timestamps above 0xFFFFFF, the reader of media headers all whose field is 0xFFFFFF, and the
  reader of command headers none of format 0 (`Chunking.HeadersAgreeIff`; `StampOfOnes`).
* The reader of media headers takes the timestamp of format 0 for the time and for a difference, and adds them, so that
  such messages are stored and relayed at twice their time (`Chunking.TimeIsKeptIff`, `RelayedTime`; `TimeIsDoubled`).
* The readers take the bytes of a two- or three-byte basic header for signed (`Chunking.BasicHeaderIff`;
  `BasicHeaderMisread`).
* Keys and strings whose length is 0, or does not fit a positive 16-bit integer, and values of type 0x08 are written
  but not read back (`Amf.RoundTripIff`, `Amf.ReadIff`; `EmptyKeyIsLost`).
* The announced payload length leaves out the null marker of a message without objects unless it is onBWDone
  (`CommandMessages.SizeIsRightIff`; `NullIsNotCounted`).
* Legal metadata with an empty string, a string of more than 32767 bytes, or no property is refused
  (`Metadata.AcceptedIff`; `EmptyStringIsRefused`).
* Metadata is read without dropping the headers of continuation chunks (`Metadata.UnchunkedIsRightIff`;
  `ChunkedIsMisread`).
* Each onMetaData adds one more server property to the global table, so that only the first after a frame carries what
  it should (`Metadata.OnlyTheFirstIsRight`; `SecondHasTwoServers`).

Reading several objects that were written one after another fails at the second, unless the low byte of its first
length happens to be that of an object marker (`Amf.SecondIsRefused`).

`dafny verify dfyconfig.toml` checks everything.

## Model

| member | source | states |
|---|---|---|
| `HeapModel.InsertKeepsHeap` | 3rdpart/st-1.9/sched.c:339-372 | An insertion at position n+1 keeps the left-complete heap ordered on due and adds exactly the new thread |
| `HeapModel.RemoveKeepsHeap` | 3rdpart/st-1.9/sched.c:378-448 | Deleting the member at any position leaves a left-complete ordered heap of n-1 with exactly the other members, whether the last element moves up or down |
| `HeapModel.WalkKeeps` | 3rdpart/st-1.9/sched.c:351-367 | Every stop of the walk over the digits of the target keeps a heap, loses no thread, and leaves the carried thread no earlier than the node above it |
| `HeapModel.SiftDownRestores` | 3rdpart/st-1.9/sched.c:413-445 | From a heap that is out of order only below one node, the sift-down loop restores the order and keeps the members |
| `HeapModel.FillKeeps` | 3rdpart/st-1.9/sched.c:404-408 | Putting the last element in place of a deleted one by the insertion walk can leave only that position's children out of order |
| `HeapModel.RootIsEarliest` | 3rdpart/st-1.9/sched.c:481-485 | The root is due no later than any member of the heap |
| `HeapModel.WakingDone` | 3rdpart/st-1.9/sched.c:481-497 | When the wake loop ends it has taken precisely the sleepers that are due, in nondecreasing order of due, and left the later ones |
| `BinaryPath.CountBits` | 3rdpart/st-1.9/sched.c:347-350 | The bit-counting loop yields the number of binary digits, so that shifting by it gives 0 and by one less does not |
| `TimeoutHeap.Vp.HeapInsert` | 3rdpart/st-1.9/sched.c:339-372 | The pointer walk produces the model's insertion: left, right and heap_index of all nodes agree with the numbered layout, and the returned slot holds the node at the target |
| `TimeoutHeap.Vp.FindLast` | 3rdpart/st-1.9/sched.c:384-397 | Following the digits of the size from the root reaches the slot of the last element |
| `TimeoutHeap.Vp.Reestablish` | 3rdpart/st-1.9/sched.c:410-445 | The pointer rotations of the sift-down loop produce the model's sift-down, with every heap_index its position |
| `TimeoutHeap.Vp.HeapDelete` | 3rdpart/st-1.9/sched.c:378-448 | Deletion of any member through its cached heap_index is the model's removal; the deleted thread has no children left |
| `TimeoutHeap.Vp.AddSleepQ` | 3rdpart/st-1.9/sched.c:451-457 | The thread sleeps until last_clock + timeout, with one more member and a valid heap |
| `TimeoutHeap.Vp.DelSleepQ` | 3rdpart/st-1.9/sched.c:460-464 | The heap stays valid with exactly this thread gone |
| `TimeoutHeap.Vp.CheckClock` | 3rdpart/st-1.9/sched.c:467-497 | Appends to the run queue precisely the sleepers due by now, earliest first, keeps precisely the later ones, and marks as timed out those on a condition variable |
| `SchedulerRuns.AlwaysInv` | 3rdpart/st-1.9/sched.c:60-517 | Every state of every run of calls, switches, interrupts, dispatches and clock checks satisfies the scheduler invariant |
| `SchedulerRuns.StepKeeps` | 3rdpart/st-1.9/sched.c:60-517 | Each step of a thread keeps the invariant, whatever the step |
| `SchedulerRuns.InitOk` | 3rdpart/st-1.9/sched.c:134-190 | st_init establishes the invariant |
| `SchedulerTheorems.OnePlace` | 3rdpart/st-1.9/sched.c:111-128 | In every reachable state a live thread is in the place its state names, once: run queue, zombie queue, heap, I/O queue, one wait queue; never in the heap while RUNNABLE; the idle thread in none |
| `SchedulerInvariant.DispatchFindsOnlyWaiters` | 3rdpart/st-1.9/sched.c:216-236 | When dispatch starts the run queue is empty and every request on the I/O queue is of a thread in IO_WAIT |
| `SchedulerInvariant.ClockCheckReady` | 3rdpart/st-1.9/sched.c:216-236 | After dispatch, the clock check starts from a good state and wakes only sleepers that are due, each once |
| `SchedulerTheorems.IdleTurnWakesExactly` | 3rdpart/st-1.9/sched.c:467-497 | For every order that the clock check may yield, one idle turn enqueues the reported requests in queue order, then the due sleepers; no thread twice; only later sleepers stay |
| `SchedulerTheorems.DispatchAppends` | 3rdpart/st-1.9/event.c:336-397 | Dispatch appends exactly the requests that fired, in the order of the I/O queue |
| `SchedulerTheorems.DispatchRemoves` | 3rdpart/st-1.9/event.c:336-397 | Dispatch leaves exactly the other requests on the I/O queue, in order |
| `SchedulerTheorems.ExpireAppends` | 3rdpart/st-1.9/sched.c:481-497 | The clock check appends its threads in order and takes exactly them off the sleep queue |
| `SchedulerEffects.OtherThread` | 3rdpart/st-1.9/sched.c:60-517 | A step changes another thread only by scheduling it, waking it for a reason the step names, interrupting it, or reaping it |
| `SchedulerTheorems.OwnStep` | 3rdpart/st-1.9/sched.c:60-128 | A blocking call leaves its caller blocked at that call or outside the library; every other step leaves it outside or ends it |
| `SchedulerTheorems.UsleepNeverEarly` | 3rdpart/st-1.9/sync.c:115-140 | In every run an uninterrupted st_usleep returns only once last_clock has reached its value at this very call plus the timeout, and never without a timeout; st_usleep fails only with EINTR, exactly if it was interrupted |
| `SchedulerTheorems.TimedwaitResult` | 3rdpart/st-1.9/sync.c:180-215 | In every run st_cond_timedwait returns 0 exactly if a signal or broadcast of its condition variable woke the caller during this very wait and nobody interrupted it, EINTR exactly if it was interrupted, ETIME only if this wait was called with a timeout and last_clock has advanced by as much since |
| `SchedulerTheorems.SignalBeatsTimeout` | 3rdpart/st-1.9/sync.c:224-244 | In every run a waiter that was signalled does not time out any more before it returns |
| `SchedulerTheorems.WokenBySignal` | 3rdpart/st-1.9/sync.c:224-244 | In every run a waiter that is awake without interrupt and timeout was woken by a signal or broadcast on its condition variable |
| `SchedulerTheorems.SignalWakesFirst` | 3rdpart/st-1.9/sync.c:224-244 | A signal wakes the first waiter that is still in COND_WAIT, and no other |
| `SchedulerTheorems.BroadcastWakesAll` | 3rdpart/st-1.9/sync.c:224-244 | A broadcast wakes every waiter that is still in COND_WAIT, in order, and no other |
| `SchedulerTheorems.LockZeroMeansOwner` | 3rdpart/st-1.9/sync.c:290-326 | In every run st_mutex_lock returns 0 only if the caller owns the mutex; after a wait it fails only with EINTR, and exactly if it was interrupted and not handed the mutex |
| `SchedulerTheorems.FreeMutexHasNoWaiter` | 3rdpart/st-1.9/sync.c:329-354 | In every reachable state a free mutex has no waiter in LOCK_WAIT |
| `SchedulerTheorems.HandoffHeld` | 3rdpart/st-1.9/sync.c:329-354 | In every run a mutex handed to a waiter stays its own through any steps of others until it runs |
| `SchedulerTheorems.MutexOwner` | 3rdpart/st-1.9/sync.c:290-368 | Nobody but its owner, running and outside a call, changes the owner of an owned mutex or destroys it |
| `SchedulerTheorems.HandoffIsFifo` | 3rdpart/st-1.9/sync.c:329-354 | In every run, of two threads waiting for a mutex, the later one is not handed it while the earlier is still in LOCK_WAIT |
| `SchedulerTheorems.WaitersKeepOrder` | 3rdpart/st-1.9/sync.c:290-326 | In every run two waiters of a mutex stay in the order in which they queued |
| `SchedulerJoin.JoinResult` | 3rdpart/st-1.9/sched.c:295-312 | In every run a st_thread_join that had to wait returns 0 exactly if its caller was not interrupted, else EINTR; on 0 its target called st_thread_exit during this very wait and goes from the zombie queue to the end of the run queue |
| `SchedulerJoin.JoinEndsIff` | 3rdpart/st-1.9/sched.c:239-272 | In every run an uninterrupted joiner stays parked exactly as long as its target has not called st_thread_exit since |
| `SchedulerJoin.ParkedStep` | 3rdpart/st-1.9/sched.c:295-298 | A step of a run wakes a parked joiner exactly if it interrupts him or is the exit of his target |
| `SchedulerJoin.ParksOnEndingIff` | 3rdpart/st-1.9/sched.c:275-298 | st_thread_join parks its caller on a target that has already called st_thread_exit exactly if that is joinable, no longer a zombie, not yet gone and nobody waits for it, and the caller has no interrupt pending |
| `SchedulerJoin.JoinHangs` | 3rdpart/st-1.9/sched.c:262-312 | In every run a caller parked on such a target stays parked for good unless somebody interrupts it |
| `SchedulerJoin.JoinedTwice` | 3rdpart/st-1.9/sched.c:275-312 | A run in which a second join of a reaped thread leaves the caller parked and only the idle thread to run |
| `SchedulerInvariant.JoinLoopKeeps` | 3rdpart/st-1.9/sched.c:275-312 | The wait loop of st_thread_join and the release of the zombie keep the invariant |
| `SchedulerInvariant.ExitKeeps` | 3rdpart/st-1.9/sched.c:239-272 | st_thread_exit keeps the invariant, joinable or not |
| `SchedulerInvariant.UnlockKeeps` | 3rdpart/st-1.9/sync.c:329-354 | st_mutex_unlock keeps the invariant, with hand-off or without |
| `SchedulerInvariant.InterruptKeeps` | 3rdpart/st-1.9/sched.c:500-517 | st_thread_interrupt keeps the invariant in every state of its target |
| `SchedulerLaws.UnlockLaw` | 3rdpart/st-1.9/sync.c:329-354 | In every run an unlock by the owner returns 0, and the mutex is free exactly if nobody in its queue is in LOCK_WAIT; otherwise the first who is owns it, runnable and last on the run queue. By anybody else it fails with EPERM and changes nothing |
| `SchedulerLaws.LockLaw` | 3rdpart/st-1.9/sync.c:290-312 | In every run a lock fails with EINTR exactly if an interrupt is pending, else takes a free mutex, else fails with EDEADLK on the caller's own, else blocks the caller in LOCK_WAIT, last in the queue; nothing else changes |
| `SchedulerLaws.TrylockLaw` | 3rdpart/st-1.9/sync.c:357-368 | In every run a trylock takes a free mutex, and fails with EBUSY on an owned one without changing anything |
| `SchedulerLaws.InterruptLaw` | 3rdpart/st-1.9/sched.c:500-517 | In every run an interrupt leaves a zombie alone, marks any other thread, and makes a blocked one, wherever it is blocked, runnable, last on the run queue and off the heap |
| `SchedulerLaws.PollLaw` | 3rdpart/st-1.9/sched.c:60-86 | In every run st_poll is refused by a pending interrupt, fails if the request is, or blocks the caller in IO_WAIT, last on the I/O queue, with a deadline exactly if it gave a timeout, and the next thread runs |
| `SchedulerLaws.UsleepLaw` | 3rdpart/st-1.9/sync.c:115-131 | In every run st_usleep is refused by a pending interrupt, or blocks the caller with a deadline, or suspended without one |
| `SchedulerLaws.CondWaitLaw` | 3rdpart/st-1.9/sync.c:180-199 | In every run st_cond_timedwait is refused by a pending interrupt, or blocks the caller in COND_WAIT, last on the wait queue, with a deadline exactly if it gave a timeout |
| `SchedulerLaws.SignalLaw` | 3rdpart/st-1.9/sync.c:224-244 | In every run a signal makes the first waiter still in COND_WAIT runnable, or changes nothing; a broadcast all of them, in queue order |
| `SchedulerLaws.JoinLaw` | 3rdpart/st-1.9/sched.c:275-312 | In every run st_thread_join fails with EINVAL, EDEADLK, EINVAL for a thread that is not joinable, the caller, one waited for; takes a zombie off its queue; or waits, unless an interrupt is pending |
| `SchedulerLaws.ExitLaw` | 3rdpart/st-1.9/sched.c:239-262 | In every run st_thread_exit leaves a thread gone, or a zombie whose joiner, if one still waits, is runnable, and hands the processor over |
| `SchedulerLaws.ReturnLaw` | 3rdpart/st-1.9/sched.c:88-108 | In every run a thread back from st_poll or st_usleep is off the I/O queue, its flags have become the result, and nothing else changes |
| `SchedulerLaws.WaitLaw` | 3rdpart/st-1.9/sync.c:200-215 | In every run a thread back from st_cond_timedwait is off the wait queue; it gets EINTR if it was interrupted, else ETIME if it timed out, else 0 |
| `SchedulerLaws.LockedLaw` | 3rdpart/st-1.9/sync.c:313-326 | In every run a thread back from st_mutex_lock is off the queue; it gets 0 exactly if it owns the mutex, and then an interrupt stays pending; else EINTR |
| `SchedulerLaws.JoinedLaw` | 3rdpart/st-1.9/sched.c:295-312 | In every run a thread back in st_thread_join fails if it was interrupted, else it takes the zombie off its queue and makes it runnable |
| `SchedulerLaws.GoneLaw` | 3rdpart/st-1.9/sched.c:262-272 | In every run a joined thread ends with its condition variable, unless somebody waits at that |
| `SchedulerLaws.NewLaw` | 3rdpart/st-1.9/sched.c:520-614 | In every run what is created is free, has no waiters, or is runnable last on the run queue, joinable or not |
| `SchedulerLaws.DestroyLaw` | 3rdpart/st-1.9/sync.c:277-287 | In every run a mutex that is owned or waited for, and a condition variable that is waited for, is not destroyed (EBUSY); any other is gone |
| `SchedulerLaws.IdleLaw` | 3rdpart/st-1.9/sched.c:216-236 | In every run one idle turn makes runnable the reported requests in queue order and then exactly the sleepers that are due, earliest first, tells those on condition variables that they timed out, leaves all others as they were, and runs the first |
| `SchedulerVp.Vp.StPoll` | 3rdpart/st-1.9/sched.c:60-86 | The in-place updates of st_poll up to its switch are the step of the state machine that the run theorems are about, and keep its invariant |
| `SchedulerVp.Vp.AfterPoll` | 3rdpart/st-1.9/sched.c:88-108 | The in-place updates of st_poll after its switch, its request still queued or not, are the machine's resumption of the caller, result included, and keep its invariant |
| `SchedulerVp.Vp.StUsleep` | 3rdpart/st-1.9/sync.c:115-131 | The in-place updates of st_usleep up to its switch are the step of the state machine that the run theorems are about, and keep its invariant |
| `SchedulerVp.Vp.StCondTimedwait` | 3rdpart/st-1.9/sync.c:180-199 | The in-place updates of st_cond_timedwait up to its switch are the step of the state machine that the run theorems are about, and keep its invariant |
| `SchedulerVp.Vp.AfterCondWait` | 3rdpart/st-1.9/sync.c:200-215 | The in-place updates of st_cond_timedwait after its switch are the machine's resumption of the caller, result included, and keep its invariant |
| `SchedulerVp.Vp.StCondSignal` | 3rdpart/st-1.9/sync.c:224-244 | The signal and broadcast loop is the machine's step and keeps the invariant |
| `SchedulerVp.Vp.StMutexLock` | 3rdpart/st-1.9/sync.c:290-312 | The in-place updates of st_mutex_lock up to its switch are the step of the state machine that the run theorems are about, and keep its invariant |
| `SchedulerVp.Vp.AfterLock` | 3rdpart/st-1.9/sync.c:313-326 | The in-place updates of st_mutex_lock after its switch are the machine's resumption of the caller, owner or interrupted, and keep its invariant |
| `SchedulerVp.Vp.StMutexUnlock` | 3rdpart/st-1.9/sync.c:329-354 | The in-place updates of the hand-over loop of st_mutex_unlock are the step of the state machine that the run theorems are about, and keep its invariant |
| `SchedulerVp.Vp.StMutexTrylock` | 3rdpart/st-1.9/sync.c:357-368 | The in-place updates of st_mutex_trylock are the step of the state machine that the run theorems are about, and keep its invariant |
| `SchedulerVp.Vp.StMutexDestroy` | 3rdpart/st-1.9/sync.c:277-287 | The in-place updates of st_mutex_destroy with its busy check are the step of the state machine that the run theorems are about, and keep its invariant |
| `SchedulerVp.Vp.StCondDestroy` | 3rdpart/st-1.9/sync.c:167-177 | The in-place updates of st_cond_destroy with its busy check are the step of the state machine that the run theorems are about, and keep its invariant |
| `SchedulerVp.Vp.StThreadInterrupt` | 3rdpart/st-1.9/sched.c:500-517 | The in-place updates of st_thread_interrupt are the step of the state machine that the run theorems are about, and keep its invariant |
| `SchedulerVp.Vp.StThreadExit` | 3rdpart/st-1.9/sched.c:239-262 | The in-place updates of st_thread_exit up to its first switch are the step of the state machine that the run theorems are about, and keep its invariant |
| `SchedulerVp.Vp.AfterExit` | 3rdpart/st-1.9/sched.c:262-272 | The end of st_thread_exit once the thread was joined is the machine's resumption of that thread, keeps the invariant, and leaves a runnable thread the processor |
| `SchedulerVp.Vp.StResume` | 3rdpart/st-1.9/sched.c:88-312 | Whatever call the current thread is inside, its updates after the switch are the machine's resumption of it, result included, and keep the invariant |
| `SchedulerVp.Vp.StThreadJoin` | 3rdpart/st-1.9/sched.c:275-303 | The in-place updates of the checks and the wait loop of st_thread_join are the step of the state machine that the run theorems are about, and keep its invariant |
| `SchedulerVp.Vp.AfterJoin` | 3rdpart/st-1.9/sched.c:290-312 | The in-place updates of st_thread_join after its switch, back to its loop or failing, are the machine's resumption of the caller and keep its invariant |
| `SchedulerVp.Vp.StThreadCreate` | 3rdpart/st-1.9/sched.c:520-614 | The in-place updates of st_thread_create as far as states and queues go are the step of the state machine that the run theorems are about, and keep its invariant |
| `SchedulerVp.Vp.DispatchFired` | 3rdpart/st-1.9/event.c:336-397 | The in-place updates of the walk of dispatch over the I/O queue, as far as it wakes threads are the step of the state machine that the run theorems are about |
| `SchedulerVp.Vp.VpSchedule` | 3rdpart/st-1.9/sched.c:111-128 | From every state in which the caller has stopped, the first thread of the run queue, or else the idle one, gets the processor; it was runnable, and the invariant holds again |
| `SchedulerVp.Vp.Perform` | 3rdpart/st-1.9/sched.c:60-517 | Any enabled call or resumption of a thread, performed in place, is the machine's step with its result, and keeps the invariant |
| `SleepQueue.IdleThread` | 3rdpart/st-1.9/sched.c:216-236 | One turn of the idle loop over scheduler and timeout heap together: the order in which the heap yields the sleepers is one that the machine's step allows, the turn is that step, and heap and scheduler agree again |
| `SleepQueue.ClockChecked` | 3rdpart/st-1.9/sched.c:467-497 | The clock check takes from the heap exactly the scheduler's sleepers that are due, in due order, and wakes them in the scheduler; the heap holds exactly the later sleepers' records |
| `SleepQueue.Dispatched` | 3rdpart/st-1.9/event.c:336-397 | The walk of dispatch takes the threads of fired requests off the heap as well, and is the machine's step |
| `SleepQueue.StUsleep` | 3rdpart/st-1.9/sync.c:115-131 | st_usleep over both is the machine's step; the heap then holds exactly the sleepers' records, with their deadlines |
| `SleepQueue.StPoll` | 3rdpart/st-1.9/sched.c:60-86 | The same for st_poll |
| `SleepQueue.StCondTimedwait` | 3rdpart/st-1.9/sync.c:180-199 | The same for st_cond_timedwait |
| `SleepQueue.StCondSignal` | 3rdpart/st-1.9/sync.c:224-244 | The same for signal and broadcast, which take woken waiters off the heap |
| `SleepQueue.StThreadInterrupt` | 3rdpart/st-1.9/sched.c:500-517 | The same for st_thread_interrupt, which takes its target off the heap |
| `SleepQueue.OtherCallsSpareTheHeap` | 3rdpart/st-1.9/sched.c:239-312 | No step but those and creation changes the sleepers, their deadlines or the clock |
| `SleepQueue.StThreadCreate` | 3rdpart/st-1.9/sched.c:520-614 | A new thread gets a record of its own in the heap's processor; creation is the machine's step and both stay in step |
| `SleepQueue.Step` | 3rdpart/st-1.9/sched.c:60-517 | Any possible step, performed on both, is the machine's step, in an idle turn with the order that the heap yields, and both stay in step |
| `SleepQueue.Execute` | 3rdpart/st-1.9/sched.c:60-517 | From st_init on, any sequence of possible steps performed on scheduler and timeout heap is a run of the machine, and at its end the heap holds exactly the sleepers with their deadlines; so every theorem about runs holds of the two together |
| `SleepQueue.OrderOfRecords` | 3rdpart/st-1.9/sched.c:481-497 | The records that leave the heap as due, in the order they leave, are exactly the threads that must wake, in due order |
| `CacheRuns.AlwaysInv` | 3rdpart/st-1.9/extensions/lrucache.c:192-309 | Every sequence of cache calls keeps: chains and pthis agree, on the LRU list iff chained and unreferenced (and then not pending), size and weight are count and sum over the chains and within both bounds, inserts = deletes + size |
| `CacheRuns.StepOnMap` | 3rdpart/st-1.9/extensions/lrucache.c:192-309 | The cache is a map: each call rebinds, unbinds or keeps a key as a map would, except that insertion may forget unreferenced entries |
| `CacheRuns.LatestInserted` | 3rdpart/st-1.9/extensions/lrucache.c:220-239 | In every run lookup finds the entry inserted last under the key, not deleted, replaced or evicted since |
| `CacheRuns.ListIsInReleaseOrder` | 3rdpart/st-1.9/extensions/lrucache.c:242-254 | In every run the LRU list is in the order of last release |
| `CacheRuns.RefsAreBalanced` | 3rdpart/st-1.9/extensions/lrucache.c:192-309 | In every run an entry's reference count is its successful insertions and hits less its releases since it was created, and it is on the LRU list exactly if it is chained and these balance |
| `CacheRuns.RefsStep` | 3rdpart/st-1.9/extensions/lrucache.c:192-309 | Creation starts at no references, a successful insertion and a hit add one, a release takes one away down to none, and no call changes another entry's count, or any key or weight |
| `CacheRuns.AsCreated` | 3rdpart/st-1.9/extensions/lrucache.c:175-189 | In every run an entry has the key and the weight of its last creation |
| `CacheRuns.HashedHome` | 3rdpart/st-1.9/extensions/lrucache.c:286-301 | In every run a chained entry is in the chain of its key's hash modulo the table size |
| `CacheRuns.CountersAreRight` | 3rdpart/st-1.9/extensions/lrucache.c:220-309 | In every run the counters are the numbers of lookups, hits, successful insertions and removals so far |
| `CacheModel.ViewIsActive` | 3rdpart/st-1.9/extensions/lrucache.c:226-230 | A chain search finds an entry exactly if it is chained, not pending and has an equal key; so there is at most one per key |
| `CacheModel.InsertKeeps` | 3rdpart/st-1.9/extensions/lrucache.c:257-309 | Insertion succeeds exactly if the weight of the referenced entries plus the new one is within max_weight and their number below max_size; it evicts the shortest prefix of the LRU list that makes room in both bounds, nothing else, and binds the key to the new entry alone; refused, it has emptied the list and left the entry as it was |
| `CacheModel.RoomIsLeast` | 3rdpart/st-1.9/extensions/lrucache.c:262-284 | Both capacity checks together evict as few entries as possible: no shorter prefix of the LRU list makes room, and they fail exactly if evicting all of it would not |
| `CacheModel.EvictLeast` | 3rdpart/st-1.9/extensions/lrucache.c:262-273 | The eviction loop stops as soon as the weight fits: before each eviction it did not, and without room the list is empty |
| `CacheModel.DeleteEffect` | 3rdpart/st-1.9/extensions/lrucache.c:192-217 | Deletion takes the entry out of the map at once, and out of the chains at once exactly if it is unreferenced |
| `CacheModel.LookupEffect` | 3rdpart/st-1.9/extensions/lrucache.c:220-239 | A hit gains a reference and leaves the LRU list; the map and the chains stay |
| `CacheModel.ReleaseEffect` | 3rdpart/st-1.9/extensions/lrucache.c:242-254 | The last release puts an entry at the end of the LRU list, or completes a deferred deletion; the map stays |
| `CacheModel.EmptyEffect` | 3rdpart/st-1.9/extensions/lrucache.c:84-97 | Emptying leaves exactly the referenced entries, all pending deletion, an empty LRU list and an empty map |
| `LruCache.LruCache.PthisHoldsEntry` | 3rdpart/st-1.9/extensions/lrucache.c:192-309 | `*pthis` is the entry itself for every chained entry; an entry is on the LRU list iff chained and unreferenced, and then not pending |
| `LruCache.LruCache.Unlink` | 3rdpart/st-1.9/extensions/lrucache.c:199-202 | Storing next through pthis takes exactly this entry out of its chain and keeps every other next and pthis right, whatever its position |
| `LruCache.LruCache.EntryDelete` | 3rdpart/st-1.9/extensions/lrucache.c:192-217 | The pointer and counter updates of deletion are the model's deletion, deferred or not |
| `LruCache.LruCache.EntryLookup` | 3rdpart/st-1.9/extensions/lrucache.c:220-239 | The search loop and the reference count updates are the model's lookup |
| `LruCache.LruCache.EntryRelease` | 3rdpart/st-1.9/extensions/lrucache.c:242-254 | The updates of a release, with a deferred deletion if due, are the model's release |
| `LruCache.LruCache.EntryInsert` | 3rdpart/st-1.9/extensions/lrucache.c:257-309 | The eviction loop, the size check, the duplicate search and the linking are the model's insertion, result 0 or -1 included |
| `LruCache.LruCache.LinkPointers` | 3rdpart/st-1.9/extensions/lrucache.c:297-301 | A new first entry takes over the chain: table slot, next and both pthis pointers agree |
| `LruCache.LruCache.Empty` | 3rdpart/st-1.9/extensions/lrucache.c:84-97 | The two loops of emptying, which save next before each deletion, are the model's emptying |
| `LruCache.LruCache.Create` | 3rdpart/st-1.9/extensions/lrucache.c:175-189 | A new entry, at a new address or that of a freed one, is outside every chain and list, and the cache stays valid |
| `LruCache.LruCache.GetLru` | 3rdpart/st-1.9/extensions/lrucache.c:312-318 | The entry released longest ago, or none exactly if the list is empty |
| `PollRequests.WokenIff` | 3rdpart/st-1.9/event.c:336-397 | A pass wakes a request exactly if one of its descriptors is ready for a flag it asked for, is in error, or is bad |
| `PollRequests.PassConserves` | 3rdpart/st-1.9/event.c:336-397 | Every request is either left or fired, none lost or duplicated |
| `PollRequests.PassSplits` | 3rdpart/st-1.9/event.c:336-397 | A pass tells the answered requests apart: those with something to report are woken, the others left, each in the order of the I/O queue |
| `SelectEvents.Select.PollsetAdd` | 3rdpart/st-1.9/event.c:172-204 | Refuses exactly the malformed requests, changing nothing; else counts, sets and maxfd mirror the I/O queue with the request added |
| `SelectEvents.Select.PollsetDel` | 3rdpart/st-1.9/event.c:206-225 | Counts and sets mirror the remaining requests; a bit is cleared exactly when its count reaches 0 |
| `SelectEvents.Select.Pass` | 3rdpart/st-1.9/event.c:296-398 | The walk over the I/O queue keeps the mirror, answers, leaves and fires requests by the reports, and recomputes a sound maxfd |
| `SelectEvents.Select.Dispatch` | 3rdpart/st-1.9/event.c:296-407 | Dispatch keeps the mirror; after select() a flag is reported exactly if it was asked for and its descriptor is in the kernel's set for it, after EBADF POLLNVAL exactly for bad descriptors; requests with a report are woken and the others left, in order; a timeout changes nothing |
| `SelectEvents.Select.FdClose` | 3rdpart/st-1.9/event.c:419-428 | EBUSY exactly if some queued request names the descriptor |
| `SelectEvents.Select.NothingIsMissed` | 3rdpart/st-1.9/event.c:309-331 | Every descriptor waited for is in its set and below the bound handed to select() |
| `SelectEvents.Select.NothingIsStale` | 3rdpart/st-1.9/event.c:309-331 | Every descriptor in a set is waited for by a queued request |
| `SelectEvents.Select.PollEnds` | 3rdpart/st-1.9/sched.c:89-92 | A request that timed out leaves the queue and the indices together |
| `EpollEvents.Epoll.PollsetAdd` | 3rdpart/st-1.9/event.c:1169-1225 | Counts, interest set and event count mirror the I/O queue with the request added; if the request is malformed or the kernel refuses a descriptor midway they mirror the queue as it was |
| `EpollEvents.Epoll.PollsetDel` | 3rdpart/st-1.9/event.c:1129-1167 | Counts drop by the request; the interest set follows except for descriptors that fired, also when unrolling a refused request |
| `EpollEvents.StaleTurn` | 3rdpart/st-1.9/event.c:1204-1222 | Unrolling a refused request brings its last descriptor back in step with the kernel exactly at its own turn |
| `EpollEvents.Epoll.Dispatch` | 3rdpart/st-1.9/event.c:1267-1340 | After dispatch the interest set, its count and the reference counts mirror the remaining queue and all stored revents are zero; a flag is reported exactly if by the last report on its descriptor it occurred and was asked for, or is an error or hang-up, or there was one and it was asked for; requests with a report are woken and the others left, in order |
| `EpollEvents.Epoll.Settle` | 3rdpart/st-1.9/event.c:1326-1338 | The final loop puts every descriptor that fired back in step, reported once or more often |
| `EpollEvents.ErrorsWakeAll` | 3rdpart/st-1.9/event.c:1272-1279 | On an error or hang-up every request waiting for the descriptor is woken, with all flags it asked for |
| `EpollEvents.Epoll.InterestIsExact` | 3rdpart/st-1.9/event.c:1129-1225 | Between calls the kernel waits on a descriptor for exactly the events that queued requests ask of it |
| `EpollEvents.Epoll.Expand` | 3rdpart/st-1.9/event.c:1091-1111 | Growing fd_data keeps the mirror and every old entry |
| `EpollEvents.Epoll.FdClose` | 3rdpart/st-1.9/event.c:1351-1360 | EBUSY exactly if some queued request names the descriptor |
| `VectorIo.Descriptor.StWritev` | 3rdpart/st-1.9/io.c:560-633 | Whatever part the kernel takes at a time, the bytes sent are a prefix of the vectors' bytes, in order, and all of them exactly if the total is returned; else -1, exactly if a write or the wait after one failed; all copies stay within their storage |
| `VectorIo.Descriptor.Resume` | 3rdpart/st-1.9/io.c:596-620 | After a short writev the rebuilt vectors name exactly the unsent addresses and fit the storage allocated the first time |
| `VectorIo.Descriptor.WritevResid` | 3rdpart/st-1.9/io.c:636-672 | At every return what was sent and what the residual vectors name make up what was asked for; 0 exactly if no vector is left, -1 exactly if a write or the wait after one failed |
| `VectorIo.Descriptor.ReadvResid` | 3rdpart/st-1.9/io.c:485-523 | At every return the bytes received fill the first addresses, in order, and the residual vectors name exactly the others; 0 means all or end of stream, -1 exactly that a read or the wait after one failed |
| `VectorIo.Descriptor.StReadFully` | 3rdpart/st-1.9/io.c:526-532 | Returns -1 exactly if a read or the wait after one failed; else the buffer holds exactly the next bytes of the stream, as many as returned, fewer than asked for only at its end |
| `VectorIo.Descriptor.StWrite` | 3rdpart/st-1.9/io.c:551-557 | Everything is sent and the length returned, or a proper prefix and -1, exactly if a write or the wait after one failed |
| `VectorIo.Descriptor.Advance` | 3rdpart/st-1.9/io.c:502-515 | Skipping n moved bytes leaves vectors naming exactly the rest, never runs past the array, and keeps the end of every vector |
| `VectorIo.LaterVector` | 3rdpart/st-1.9/io.c:596-599 | More bytes sent means a later vector, so that rebuilt vectors never outgrow the first copy |
| `Chunking.DechunkUndoesChunks` | io_message.cpp:80-122 | Dechunking undoes chunking for every payload, chunk size and continuation header, and consumes exactly the sender's bytes |
| `Chunking.Sender.WriteMessage` | io_message.cpp:60-123 | Sends header and payload cut into chunks, nothing for an empty payload; or a prefix of that and -1, exactly if a write failed |
| `Chunking.Receiver.ReadPayload` | all_kinds_of_messages.cpp:416-452 | Takes exactly the wire bytes of the payload off the stream and appends it without the continuation headers; exactly if a read fails it returns -1, with the whole chunks before it in the buffer and less than the next chunk taken off the stream |
| `Chunking.ChunkByte` | io_message.cpp:821-860 | Byte i of a payload is where the receive loop looks for it: one header byte per full chunk before it |
| `Chunking.ChunkHeader` | io_message.cpp:80-122 | Behind every whole number of chunks there is the continuation header, if anything follows |
| `Chunking.PosNext` | io_message.cpp:821-860 | Payload bytes are next to each other on the wire unless a whole number of chunks ends between them |
| `Chunking.Receiver.ReadNbytesCycle` | io_socket.cpp:58-122 | The buffer grows to the target size by exactly the next bytes of the stream; exactly if a read fails the result is -1, the buffer stays, and fewer bytes than asked for are gone |
| `Chunking.Receiver.ReadMessageHeader` | io_message.cpp:270-366 | Takes exactly the header, with four more bytes for an extended timestamp where the reader looks for one, and stores its fields and times; it gives -1 only if a read fails or format 3 names an unknown chunk stream of media |
| `Chunking.Receiver.ReadBasicHeader` | io_message.cpp:130-175 | Takes exactly the one to three bytes of the basic header off the stream and yields format and chunk stream; it gives -1 only if a read fails or the stream ends within them |
| `Chunking.Receiver.RecvAudioVideo` | io_message.cpp:765-860 | On a stream that begins with a chunked media message of any format it fails only if a read does; else the buffer holds the headers and the payload, the fields are stored, and exactly what follows is left on the stream |
| `Chunking.HeadersAgreeIff` | io_message.cpp:542-628 | Writer and reader agree on the end of a header exactly if the timestamp is not the escape value written without extension, or, for the command reader and format 0, not extended |
| `Chunking.StampOfOnes` | io_message.cpp:542-628 | The timestamp 0xFFFFFF is written in three bytes, and the reader takes four bytes more |
| `Chunking.HeaderParts` | io_message.cpp:575-628 | Timestamp, length, type, stream and extended timestamp stand where section 5.3.1.2 of the RTMP specification has them |
| `Chunking.HeaderIsStored` | io_message.cpp:270-366 | Of a written header of any format the reader of media headers stores length, type and stream as far as the format has them, and keeps the others as they were known; its time is the sum of what it takes for time and for difference |
| `Chunking.TimeIsKeptIff` | io_message.cpp:270-366 | After a header of format 0 the stored time is the timestamp exactly if that is 0; after formats 1 and 2 it is the time before plus the difference |
| `Chunking.TimeIsDoubled` | io_message.cpp:270-366 | A message at 40 milliseconds is stored at 80 |
| `Chunking.LengthIsStored` | io_message.cpp:177-268 | The reader of command headers stores the length of formats 0 and 1, and nothing else |
| `Chunking.MessageIsRead` | io_message.cpp:60-123 | A written message is read back: format, chunk stream, header end, payload, and what follows it |
| `Chunking.MessageArrives` | io_message.cpp:60-123 | A written media message of any format arrives at the receiver that knows what the format leaves out, with its fields stored |
| `Chunking.ContinuationNamesStreamIff` | io_message.cpp:98-100 | A continuation header names its chunk stream exactly if that is 2 to 63 |
| `Chunking.BasicHeaderForms` | io_message.cpp:542-569 | Basic headers have the three forms of section 5.3.1.1 of the RTMP specification |
| `Chunking.BasicHeaderIff` | io_message.cpp:542-569 | A basic header of one to three bytes is read back as its format and chunk stream exactly for streams -64 to 191, and for those from 320 to 32831 whose low byte on the wire is below 128 |
| `Chunking.BasicHeaderMisread` | io_message.cpp:152-172 | Chunk stream 192 is written in two bytes and read as -64 |
| `Chunking.Sender.Relay` | client.cpp:249-341 | The relay loop sends its header and the payload cut into chunks, less the bytes it wrongly counts as sent; or a prefix of that, exactly if a write failed |
| `Chunking.RelayIsRightIff` | client.cpp:249-341 | The relay sends the whole message exactly if the timestamp is below 0xFFFFFF or the payload fits one chunk |
| `Chunking.RelayIsReadIff` | client.cpp:249-341 | What the relay sends is read as the message it was, and what follows stays, on chunk stream 7 for audio and 6 for video, exactly if it is one of these and, for a timestamp of 0xFFFFFF or more, the payload fits one chunk, or, for a negative one, its low three bytes are not all ones |
| `Chunking.RelayLosesAChunk` | client.cpp:310-340 | Of a video message of two one-byte chunks at timestamp 0xFFFFFF the second is not sent |
| `Chunking.RelayMisnamesOthers` | client.cpp:263-305 | A data message of type 18 goes out behind a byte that asks the reader for a two-byte basic header |
| `Chunking.RelayPreservesPayload` | client.cpp:249-341 | A media message received in chunks of one size and relayed in another, under the condition above, is read with the same length, type, stream and payload, and nothing of what follows is consumed |
| `Chunking.RelayHeaderParses` | client.cpp:263-305 | The reader finds the end of the relay's header and its timestamp, length, type and stream, with or without extension |
| `Chunking.RelayedTime` | client.cpp:263-305 | What came in with a header of format 0 is relayed with the same length, type and stream, at twice its time |
| `Bytes.BeRoundTrip` | util.cpp:56-96 | Bytes written most significant first and read back give the number, modulo their width |
| `Bytes.BeOfValue` | util.cpp:3-43 | Bytes read and written again are the same bytes |
| `Amf.RoundTripIff` | io_message.cpp:641-734 | An object with distinct keys comes back as it was exactly if keys and strings have 1 to 32767 bytes and values are numbers or strings |
| `Amf.RoundTrip` | io_message.cpp:421-540 | Such an object, repeated keys or not, is read back as the table of first bindings, numbers with all eight bytes |
| `Amf.EmptyKeyIsLost` | io_message.cpp:459-470 | A number under an empty key is written but makes reading fail |
| `Amf.ReadIff` | io_message.cpp:421-540 | Reading what was written succeeds exactly if every length is positive as int16_t and every value a number or string; the table then holds the texts cut to their lengths |
| `Amf.TableHasFirst` | io_message.cpp:482 | The table binds a key to the value of its first property, and no other key |
| `Amf.ReadsProp` | io_message.cpp:459-537 | One property in front of any input is read as that property, or makes reading fail if it is not readable |
| `Amf.ObjectIsStandardIff` | io_message.cpp:641-734 | An object is written byte for byte as section 2.5 of the AMF0 specification has it exactly if its values are numbers and strings and no length exceeds 32767 |
| `Amf.ObjectsAreStandardIff` | io_message.cpp:641-734 | So are several objects, one after another and closed by one more end marker; no object is null |
| `Amf.StandardIsReadIff` | io_message.cpp:421-540 | A standard object, booleans included, is read exactly if its keys have 1 to 32767 bytes and its strings are not empty, and then as the table of first bindings |
| `Amf.AfterEnd` | io_message.cpp:434-457 | Behind an object nothing, or a length of zero, ends the reading; otherwise two bytes are skipped, and an object marker behind them begins another object, anything else is an error |
| `Amf.SecondIsRefused` | io_message.cpp:434-457 | Of two objects one after another reading fails at the second, unless the low byte of its first length is 3 |
| `Amf.LenIsWritten` | io_message.cpp:694-706 | A value of type 0x08 is written as that and four bytes, most significant first |
| `Amf.ObjectBuffer.WriteObject` | io_message.cpp:641-734 | The loops append exactly the encoding, or fail on a value or length that cannot be written |
| `Amf.ObjectBuffer.ReadObjectAt` | io_message.cpp:421-540 | The pointer loop with its bounds checks computes the decoding, result and table, on any input |
| `CommandMessages.SizeIsRightIff` | all_kinds_of_messages.cpp:176-220 | The announced length is that of the payload exactly if there is an object or the message is onBWDone, and no length was cut to 16 bits |
| `CommandMessages.NullIsNotCounted` | all_kinds_of_messages.cpp:176-220 | A one-letter command without objects announces 13 bytes and sends 14 |
| `CommandMessages.GetPayloadSize` | all_kinds_of_messages.cpp:176-220 | The loops add up the sizes, or give -1 for a value that cannot be written |
| `CommandMessages.WritePayload` | all_kinds_of_messages.cpp:59-174 | Appends command, transaction and objects, or fails where they cannot be written |
| `CommandMessages.PayloadIsStandard` | all_kinds_of_messages.cpp:59-174 | The payload is byte for byte the command as a string, the transaction as a number, and the objects or null, as the AMF0 specification has them |
| `Metadata.MetadataIsKept` | all_kinds_of_messages.cpp:1494-1594 | The first onMetaData carries the properties of the frame that was taken apart, byte for byte and in order, then one server property and the end marker |
| `Metadata.ServerIsSpelled` | all_kinds_of_messages.cpp:1494-1594 | The server property is, as AMF0 strings, server and the name of the server |
| `Metadata.OnlyTheFirstIsRight` | all_kinds_of_messages.cpp:1494-1594 | The n-th onMetaData after a frame carries n server properties behind the frame's own; it is the intended payload exactly if n is 1 |
| `Metadata.SecondHasTwoServers` | all_kinds_of_messages.cpp:1494-1594 | The second carries the server property twice, and so is not what it should be |
| `Metadata.AcceptedIff` | all_kinds_of_messages.cpp:952-1086 | A legal @setDataFrame array of numbers, booleans and strings is accepted exactly if it has 1 to 2^31-1 properties and its command, name, keys and strings have 1 to 32767 bytes each, and then yields exactly its properties |
| `Metadata.OnlyFramesAreAccepted` | all_kinds_of_messages.cpp:952-1086 | Every accepted message begins, byte for byte, with the encoding of such an array; nothing else is accepted |
| `Metadata.EmptyStringIsRefused` | all_kinds_of_messages.cpp:1063-1078 | An array whose only value is an empty string is refused |
| `Metadata.UnchunkedIsRightIff` | all_kinds_of_messages.cpp:952-959 | Reading message_length bytes off the wire yields the payload, and leaves what follows, exactly if the payload fits one chunk |
| `Metadata.ChunkedIsMisread` | all_kinds_of_messages.cpp:952-959 | In a frame in chunks of one byte the second byte read is a chunk header |
| `Metadata.MetadataHandler.ReadPayload` | all_kinds_of_messages.cpp:952-1086 | Takes message_length bytes off the stream as they are, and unless a read fails, accepts them exactly if they are an acceptable frame, whose properties it then appends to the table |
| `Metadata.PropsAreKept` | all_kinds_of_messages.cpp:1021-1084 | Any number of properties taken apart and written again are the bytes that were read |
| `Metadata.MetadataHandler.ReadFrame` | all_kinds_of_messages.cpp:960-1086 | Accepts exactly the frames whose strings, array marker, count and properties are in place within the message, and appends their properties to the table; it stops exactly where the code would take a string value from behind the message |
| `Metadata.WholeFramesFit` | all_kinds_of_messages.cpp:1063-1078 | In a legal frame that came in whole, accepted or not, no string value that is reached extends beyond the message |
| `Metadata.CutStringsOverrun` | all_kinds_of_messages.cpp:1063-1078 | Properties that end within the last string make the code read beyond the message, wherever in it they end |
| `Metadata.MetadataHandler.WritePayload` | all_kinds_of_messages.cpp:1494-1594 | Appends the onMetaData payload of the table with the server property, which it leaves in the table |

## Left out

- Context switching, stacks, signals, fork recovery, per-thread keys, thread statistics and debug lists: a switch is the choice of the next thread.
- Aliasing of thread records in the scheduler: threads are named by numbers there, and run, I/O, zombie and wait queues are sequences; only the timeout heap and the hash chains are linked objects.
- The number of active threads, the exit of the process when the last thread ends, and the return value of a joined thread.
- Integer width of due times, weights and counters, except where lengths, timestamps and byte orders depend on it.
- The timeout that dispatch hands to select() and epoll_wait(); the cached time of st_time.
- The kqueue and poll event systems, accept serialization, datagram and message I/O, the descriptor free list.
- The circular links of the LRU list: it is a sequence of entry addresses; hash chains, pthis and next are pointers.
- Keys of cache entries are numbers, and the data pointer is left out.
- LruCache.LruCache.EntryInsert: assumes a hash consistent with comparison and an entry that is not in the cache yet, as the cache needs.
- Failure of memory allocation in st_writev and in the event systems.
- The endless idle loop: SleepQueue.IdleThread is one turn of it.
- Chunking.Receiver.ReadNbytesCycle: reads that return nothing at the end of the stream repeat until one fails, as in the code; an endless repetition is not an execution of the model.
- Chunking.Sender.Relay: assumes that buffer and header stay as they are while the message is sent.
- Chunking.MessageIsRead: chunk streams 2 to 63, whose number the continuation headers carry.
- Metadata.MetadataHandler.ReadFrame: what the code makes of the bytes behind the message when a string value announces more than there are; the model says exactly when that happens and stops there.
- Amf.SecondIsRefused: what is read of a second object whose first length looks like an object marker.
- Where a negative 16-bit length makes std::string throw, the model reports failure.
- The handshake, the command sequence, DNS, file I/O, logging.
