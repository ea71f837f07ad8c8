# Verified model of the netpool and xutil cores

This project models, in Dafny, the self-contained cores of a C++ network and thread library, and proves what
they keep over every input, every run and every interleaving.

* **Thread pool** (`netpool/src/CThreadPool.cpp`).  `PoolModel` is a transition system: workers, any number of
  submitters inside `Execute`, one ageing thread and one terminating thread each have a program counter, and one
  step is one locked section or one access to a shared field.  `PoolConservation`, `PoolShutdown`, `PoolExit`,
  `PoolReturn`, `PoolDrain`, `PoolLate`, `PoolStamp`, `PoolQuick` and `PoolBounds` prove statements about all runs from `Init`; `PoolWitness` has runs that
  show why their premises are needed.  `PoolObject` has the same operations as methods of a class that update the
  pool's fields; `PoolCalls` ties the two, with one contract for an uninterrupted call that both meet; and
  `CoreRotation` is the 32-bit arithmetic of core assignment.
* **Intrusive lists** (`xutil/include/list.h`).  `IntrusiveList` is the circular doubly linked list on the heap;
  `HashList` the list whose nodes point back at the pointer that points at them (`pprev`), where head and node
  share one kind of cell.  Each operation refines an operation on a ghost sequence, and its `modifies` clause names
  the few cells it writes, so everything else is untouched.
* **Timers** (`netpool/src/CJobTime.cpp`).  `TimerManager` walks a list to which the callbacks may append;
  `TimerRate` gives the firing times of one job over any sequence of walks.
* **Address text** (`xutil/src/win_inet_ntop.cpp`).  `InetText` is an independent parser for dotted decimal and for
  section 2.2 of RFC 4291; `InetNtop` and `InetNtop6` are the printers and their round trips.
* **Smaller cores**: `MemPool` (`xutil/src/mempool.cpp`), `LineReader` (`xutil/src/socketwrap.cpp`), `Rand`
  (`xutil/src/utilrand.cpp`), `PrefixRange` (`xutil/include/engine_ip_range.h`, `xutil/src/engine_ip_range.cpp`)
  and `StrSearch` (`xutil/src/utilstr.cpp`).

Several expected properties turn out not to hold of the code as it is written.  The model keeps the code, shows a
failing input, and proves when the property does hold:

* `TellExit` is lost when it comes before `Run` stores WORKER_STARTED; it is final exactly when the worker is past
  that line (`StopSticks`).
* `Terminate` can wait for ever: when a worker overwrites its stop order (`TerminateCanHang`), and also when every
  worker was told in time but an `Execute` sets a run flag after the thread has cleared it (`LateFlagHangs`).  It can
  return exactly when every worker it joins has a clear flag or was told in time and has not ended
  (`TerminateReturnsIff`), and cannot lose that exactly when none of them is still being started
  (`TerminateSafeIff`).  As early as the clearing of the flag, with no `Execute` past its check, it is sure to be able
  to return exactly when every worker of the set is past line 75, or the one worker that is not is also the only
  one that can empty the queue (`SafeFromClearingIff`).
* `Terminate` can return with tasks undone: held by a worker that an ageing pass has taken out (`AgeingTakesTask`) or
  that was joined while still being started (`OrphanKeepsTask`), or pushed afterwards (`LateSubmitStrands`).
  It leaves an empty queue, whenever it returns, exactly when no `Execute` is between its check and its push as it
  waits for the queue (`EmptiesQueueIff`); `ShutdownDrains` says what else is left then.  `StrandsIff` and
  `StaysQueuedIff` say which tasks can be and which must be stranded once it has returned.
* An ageing pass can tell a worker to exit that has just completed a task after the pass's age, because it reads the
  stamp before it gives the order (`RecentIsTold`); it tells exactly those whose last task was not after the age when
  the stamp was read (`ReadingDecides`, `AgeingTellsOnlyOld`).
* `copy_list_and_flush` makes a list of its target exactly when the source is not empty.
* `mpool_init` does not check that count times size fits in 32 bits; the nodes are inside the memory, and the pool is
  sound, exactly when it does (`LayoutSound`, `Pool.Init`).  `mpool_new_obj` reads one slot above the stack's top.
* The IPv6 text shortens the leftmost run of three or more zero groups.  That is as long as every other run, as
  section 4.2.3 of RFC 5952 asks, exactly when the address is not three zero groups, a non-zero one and four zero
  groups (`RunIsLongestIff`); and there is a "::" exactly when three zero groups stand together (`ShapeV6`), so a run of
  two, which section 4.2.1 of RFC 5952 wants shortened, never is.
* `util_memsearch` misses "ab" in "aab"; it misses nothing exactly when all bytes of the pattern are equal
  (`CompleteIffUniform`), and `ScanIsAttempts` says on every input what it does see.
* The comment above `sock_recv_line` promises lines of `bufsiz-1` characters and a result of 1; the code accepts
  at most `bufsiz-2` characters (`FitsExactly`) and returns RECV_OK.  The code is followed.  With a size of zero the
  subtraction wraps; every store is inside the buffer exactly when the size is not zero (`StaysInsideIff`).

## Model

| member | source | states |
|---|---|---|
| `PoolConservation.TasksConserved` | netpool/src/CThreadPool.cpp:66-131 | After any run from Init: pushes equal pops followed by the queue (FIFO); each pushed task is queued, held by exactly one worker, or deleted once by the worker that popped it, run at most once and before that; a rejected task has no other event |
| `PoolConservation.StepKeepsConserved` | netpool/src/CThreadPool.cpp:285-351 | Every step of every thread keeps the conservation invariant |
| `PoolShutdown.ShutdownDrains` | netpool/src/CThreadPool.cpp:458-472 | Over any run from Init, if no Execute is between its enable check and its push when the flag is cleared, then whenever Terminate has returned the queue and worker set are empty; a thread that has not ended was taken out by ageing or orphaned before the flag was cleared, and only such a thread holds a pushed task; with no ageing pass in progress at the end, and every worker orphaned before the clearing ended by then, all threads have ended; and then every pushed task was deleted once, and run once unless quick-free was asked for |
| `PoolShutdown.PromptMakesNoOrphans` | netpool/src/CThreadPool.cpp:369-417 | If ageing picks no worker that is still being started, nobody is orphaned before the flag is cleared |
| `PoolShutdown.JoinTrusted` | netpool/src/CThreadPool.cpp:267-277 | In every reachable state Join lets go of a thread that has not ended only while some Execute is still inside that worker's Start |
| `PoolShutdown.StepKeepsThreads` | netpool/src/CThreadPool.cpp:247-283 | Every step keeps the ownership of worker objects between pool, trash lists and threads being started |
| `PoolShutdown.DrainStep` | netpool/src/CThreadPool.cpp:458-472 | With the flag cleared and no Execute past its check, every step of every thread, ageing included, keeps the draining invariant and orphans no worker |
| `PoolWitness.AgeingTakesTask` | netpool/src/CThreadPool.cpp:369-417 | A run in which ageing that starts after the flag is cleared takes out a worker with a task, and Terminate returns before that task is deleted |
| `PoolWitness.OrphanKeepsTask` | netpool/src/CThreadPool.cpp:400-405 | A run in which a worker joined inside its Start holds a task after Terminate has returned |
| `PoolExit.ExitProtocol` | netpool/src/CThreadPool.cpp:33-131 | A worker told to exit past line 75 pops at most one more task, is never blocked, ends after at most eleven steps of its own, and by then has disposed of every task it ever popped |
| `PoolExit.StopSticks` | netpool/src/CThreadPool.cpp:33-36 | TellExit is final over all continuations if and only if the worker has already stored WORKER_STARTED |
| `PoolExit.OverwriteStop` | netpool/src/CThreadPool.cpp:70-75 | Otherwise the worker's own start-up steps overwrite the order |
| `PoolReturn.TerminateReturnsIff` | netpool/src/CThreadPool.cpp:267-277 | In every reachable state in which Terminate is joining and no ageing pass is under way, some continuation lets it return if and only if every worker it waits for has a clear run flag or was told past line 75 and has not ended |
| `PoolReturn.TerminateSafeIff` | netpool/src/CThreadPool.cpp:267-277 | And after every continuation it has returned or can return if and only if, besides, none of those workers is still inside its Start |
| `PoolReturn.BlockedForEver` | netpool/src/CThreadPool.cpp:268-270 | A worker whose flag stays set keeps the joining thread waiting over every continuation |
| `PoolReturn.ToldEnds` | netpool/src/CThreadPool.cpp:77-131 | A told worker, left to run, ends and clears its flag, touching no other thread |
| `PoolWitness.TerminateCanHang` | netpool/src/CThreadPool.cpp:458-472 | A run after which no continuation lets Terminate return: the worker overwrote its stop order |
| `PoolWitness.LateFlagHangs` | netpool/src/CThreadPool.cpp:315-321 | Another, with every worker told past line 75 and every thread ended: the run flag was set last |
| `PoolDrain.EmptiesQueueIff` | netpool/src/CThreadPool.cpp:458-472 | In every reachable state with the flag cleared, Terminate waiting for the queue and no ageing pass, every continuation in which Terminate returns leaves the queue empty if and only if no Execute is between its enable check and its push |
| `PoolDrain.SafeFromClearingIff` | netpool/src/CThreadPool.cpp:247-283 | In every such state with no Execute between check and push, Terminate has returned or can return after every continuation if and only if every worker of the set is past line 75, or tasks are queued and the set's only worker is not but all other threads have been told and too few of them are about to look at the queue to empty it |
| `PoolLate.StrandsIff` | netpool/src/CThreadPool.cpp:285-326 | In every reachable state with Terminate returned and no ageing pass, a task can come to stay queued for ever if and only if every thread outside the worker set has been told past line 75, and some Execute is past its enable check with the task or no more threads are about to look at the queue than tasks are before it |
| `PoolLate.StaysQueuedIff` | netpool/src/CThreadPool.cpp:300-322 | A queued task then stays queued in every continuation if and only if no Execute is about to insert a worker, every thread has been told past line 75, and no more threads are about to look at the queue than tasks are before it |
| `PoolWitness.LateSubmitStrands` | netpool/src/CThreadPool.cpp:285-326 | Such a state is reached: a run in which a task is pushed after Terminate has returned and stays queued in every continuation |
| `PoolBounds.PoolNeverTooLarge` | netpool/src/CThreadPool.cpp:297-322 | Over all runs the worker set never exceeds maxThreads + k - 1 with k submitters, so exactly maxThreads with one |
| `PoolBounds.BoundIsReached` | netpool/src/CThreadPool.cpp:297-322 | For every minimum below the maximum and every k there is a run that reaches the bound |
| `PoolBounds.PoolNeverTooSmall` | netpool/src/CThreadPool.cpp:369-397 | Until Terminate zeroes the minimum, ageing never takes the worker set below it |
| `PoolBounds.NobodyEntersWhileAgeing` | netpool/src/CThreadPool.cpp:310-319 | While an ageing pass holds the pool lock, its joins included, no Execute makes a worker: over every run of all threads the set only shrinks |
| `PoolStamp.StampIsLastClock` | netpool/src/CThreadPool.cpp:105-116 | After any run from Init a worker's stamp is the clock of its last completed task, told from the run's actions and the Deleted events, or of its creation if it has completed none |
| `PoolStamp.BusyIsWorking` | netpool/src/CThreadPool.cpp:102-116 | In every reachable state a worker is busy if and only if it has begun a task and not yet completed it |
| `PoolStamp.AgeingTellsOnlyOld` | netpool/src/CThreadPool.cpp:46-64 | Over every run ageing tells or takes out only a worker whose last task, or creation, was not after the pass's age when its stamp was read; with a clock that does not go back, one that completed a task after the age before that is spared |
| `PoolStamp.ReadingDecides` | netpool/src/CThreadPool.cpp:48-61 | In every reachable state in which a pass reads the stamp of a worker it has found idle, it goes on to tell it if and only if the worker's last task, or its creation, was not after the pass's age |
| `PoolStamp.RecentIsTold` | netpool/src/CThreadPool.cpp:48-61 | A run in which a worker completes a task after the age between the reading of its stamp and the order, and is told to exit |
| `PoolQuick.QuickFreeSkips` | netpool/src/CThreadPool.cpp:104-111 | After Terminate(true) every task disposed of was passed over and deleted, never run, unless a worker had run it or was about to; without such a call every one was run |
| `PoolQuick.RunsNoMore` | netpool/src/CThreadPool.cpp:105-108 | Once quick-free is set, over every continuation no worker runs a task that it was not already about to run |
| `PoolQuick.QuickIffAsked` | netpool/src/CThreadPool.cpp:458-461 | Quick-free is set if and only if Terminate has been called with it |
| `PoolCalls.ExecuteAlone` | netpool/src/CThreadPool.cpp:285-337 | From any state, a call of Execute with no other step in between has exactly the effect the method promises, with or without memory for a worker |
| `PoolCalls.TakeIsGetOneTask` | netpool/src/CThreadPool.cpp:339-351 | A worker's look at the queue meets the contract of GetOneTask, and it waits if and only if that gives none |
| `PoolCalls.AgeingIsAged` | netpool/src/CThreadPool.cpp:46-64 | The ageing thread's steps on a worker tell it to exit if it is idle and old and change nothing otherwise |
| `PoolCalls.PassAlone` | netpool/src/CThreadPool.cpp:369-397 | From any state, an ageing pass with no other step in between takes out only idle and old workers, keeps the minimum, leaves none of them if it stays above the minimum, tells exactly those it takes out, and changes nothing else; the same predicate that AgeOut ensures |
| `PoolCalls.InitIsInit` | netpool/src/CThreadPool.cpp:165-225 | The runs start from what the method promises of an empty pool: refused if and only if the minimum is zero or above the maximum, otherwise exactly the minimum of workers |
| `PoolObject.CThreadPool.Init` | netpool/src/CThreadPool.cpp:165-225 | Refuses a zero minimum or a maximum below it, changing nothing; otherwise fills a smaller pool to exactly the minimum with new workers, the i-th on core i of the rotation, or returns false with as many of them as could be allocated and the pool enabled |
| `PoolObject.CThreadPool.Execute` | netpool/src/CThreadPool.cpp:285-337 | The task goes to the end of the queue if and only if the pool is enabled, it is not null and no worker that is needed fails to be allocated; one is needed if and only if all are busy or the queue was not empty, and the pool is below its maximum |
| `PoolObject.CThreadPool.IsAllWorkerBusy` | netpool/src/CThreadPool.cpp:227-244 | The loop's answer is true if and only if every worker is busy |
| `PoolObject.CThreadPool.GetOneTask` | netpool/src/CThreadPool.cpp:339-351 | Takes the oldest task, or none if and only if the queue is empty |
| `PoolObject.CThreadPool.AgeOut` | netpool/src/CThreadPool.cpp:369-397 | The workers taken out are exactly idle and old ones told to exit, never below the minimum, and none is left over unless the minimum is reached |
| `PoolObject.CThreadPool.TellAll` | netpool/src/CThreadPool.cpp:247-265 | Every worker is told to exit and taken out |
| `PoolObject.CWorker.Aged` | netpool/src/CThreadPool.cpp:46-64 | An idle worker not used since the age is told to exit, and only such a one |
| `PoolObject.CThreadPool.GetNewCore` | netpool/src/CThreadPool.cpp:419-429 | The object's k-th call since Init returns start + k mod count, or NO_SPEC_CORE |
| `CoreRotation.KthCore` | netpool/src/CThreadPool.cpp:193-195 | Call k, from 0, returns start + k mod count, also where the 32-bit sum wraps; NO_SPEC_CORE when no cores are configured |
| `CoreRotation.Balanced` | netpool/src/CThreadPool.cpp:419-429 | After any number of calls the use counts of any two configured cores differ by at most one |
| `CoreRotation.UsesOf` | netpool/src/CThreadPool.cpp:419-429 | The exact use count of each core after k calls |
| `IntrusiveList.InsertBetween` | xutil/include/list.h:43-50 | Keeps the ring invariant and inserts between the two neighbours |
| `IntrusiveList.ListAdd` | xutil/include/list.h:61-64 | The new entry becomes the first of the sequence |
| `IntrusiveList.ListAddTail` | xutil/include/list.h:75-78 | The new entry becomes the last |
| `IntrusiveList.ListDel` | xutil/include/list.h:99-102 | Removes the entry from the sequence; the entry keeps its stale pointers |
| `IntrusiveList.ListEmpty` | xutil/include/list.h:107-110 | True if and only if the sequence is empty |
| `IntrusiveList.ListIsSingular` | xutil/include/list.h:115-118 | True if and only if the sequence has one entry |
| `IntrusiveList.ListCutPosition` | xutil/include/list.h:144-154 | Splits into the first k+1 entries and the rest, with the cases empty list, foreign entry on a singleton, and entry equal to head |
| `IntrusiveList.CutPosition` | xutil/include/list.h:120-129 | The cut itself, at any entry including the last |
| `IntrusiveList.CopyListAndFlush` | xutil/include/list.h:382-392 | Moves a non-empty list whole and empties the source |
| `IntrusiveList.PointsAwayIsNoList` | xutil/include/list.h:382-392 | What an empty source leaves in the target is not a list, so the non-empty premise is needed |
| `IntrusiveList.ForEachSafe` | xutil/include/list.h:181-182 | Visits every entry once and in order and ends, whichever entries the body deletes; exactly the others remain, in order, and none if all are deleted |
| `IntrusiveList.ListUnique` | xutil/include/list.h:27-29 | A head is the head of one sequence only |
| `HashList.AddHead` | xutil/include/list.h:328-335 | Refines insertion at the front |
| `HashList.AddBefore` | xutil/include/list.h:338-344 | Refines insertion before a node without knowing head or predecessor |
| `HashList.AddAfter` | xutil/include/list.h:346-353 | Refines insertion after a node |
| `HashList.Del` | xutil/include/list.h:307-318 | Refines removal without knowing the head |
| `HashList.DelInit` | xutil/include/list.h:320-326 | Removal that leaves the node unhashed; nothing at all for an unhashed node |
| `HashList.Empty` | xutil/include/list.h:302-305 | True if and only if the sequence is empty |
| `HashList.InitHead` | xutil/include/list.h:288 | An empty list |
| `HashList.DelInitTwice` | xutil/include/list.h:320-326 | A second removal is a no-op |
| `HashList.PprevIsSoleCellInTable` | xutil/include/list.h:282-284 | In a whole table a node's pprev is the one cell that points at it |
| `HashList.TableDel` | xutil/include/list.h:307-318 | Deleting a node changes its own bucket only |
| `HashList.TableDelInit` | xutil/include/list.h:320-326 | In a whole table: a linked node leaves its bucket and ends up unhashed, an unhashed one changes nothing |
| `HashList.TableAddHead` | xutil/include/list.h:328-335 | In a whole table, adding a node in front changes its own bucket only |
| `HashList.TableAddBefore` | xutil/include/list.h:338-344 | The same for adding before a node, without knowing the bucket |
| `HashList.TableAddAfter` | xutil/include/list.h:346-353 | The same for adding after a node |
| `TimerManager.TimeJobMgr.TimeJobWalk` | netpool/src/CJobTime.cpp:103-132 | For any callbacks the walk ends; it visits all jobs it started with and then the added ones that its iterator can still reach; fires exactly those due when met, once and in order; drops exactly the fired one-shots; re-arms at the walk's time plus the value.  When no added timer is due at the walk's time, it fires none that a callback added and keeps them at the end in order |
| `TimerManager.CourseIs` | netpool/src/CJobTime.cpp:110-116 | Which jobs a walk meets, without following it: those of the list and then those asked for, up to the first turn that begins at the last job of the list as it then is; so it makes one callback for each due job met, and never meets what the last turn's callback adds |
| `TimerManager.TimeJobMgr.Visit` | netpool/src/CJobTime.cpp:113-128 | One turn, with the iterator moved on before the callback runs |
| `TimerManager.TimeJobMgr.Fire` | netpool/src/CJobTime.cpp:118-128 | Re-arm, call back, drop a one-shot |
| `TimerManager.TimeJobMgr.Run` | netpool/src/CJobTime.cpp:90-101 | Walks, as above, only on thread 0 and only when the 32-bit difference to the start time is not zero |
| `TimerManager.TimeJobMgr.Begin` | netpool/src/CJobTime.cpp:82-88 | Only thread 0 sets the start time |
| `TimerManager.TimeJobMgr.AddTimeJob` | netpool/src/CJobTime.cpp:165-175 | Appends a new job with the callback, parameter, value and one-shot flag asked for, due its value after the clock |
| `TimerManager.TimeJobMgr.AddThenWalk` | netpool/src/CJobTime.cpp:103-132 | A timer that is added fires, over any walks and whatever callbacks add, at the times of one first due its value after the clock at which it was added |
| `TimerManager.TimeJobMgr.FindTimeJob` | netpool/src/CJobTime.cpp:146-163 | The first job that has both this callback and this parameter, or null if and only if none has both |
| `TimerManager.TimeJobMgr.DelTimeJob` | netpool/src/CJobTime.cpp:177-195 | Removes exactly the first job that has both this callback and this parameter, so never one with another parameter; fails if and only if there is none |
| `TimerManager.TimeJobMgr.Walks` | netpool/src/CJobTime.cpp:44-52 | Over any sequence of walks and whatever callbacks add, a job fires at exactly the times that the arithmetic of re-arming gives |
| `TimerManager.WhoFires` | netpool/src/CJobTime.cpp:44-47 | Membership of the fired and of the remaining jobs, both directions |
| `TimerRate.LongRunRate` | netpool/src/CJobTime.cpp:49-52 | The n-th firing lies between f1 + (n-1)v and f1 + (n-1)(v+g-1) |
| `TimerRate.Spacing` | netpool/src/CJobTime.cpp:118-121 | Consecutive firings are at least v and less than v + g apart |
| `TimerRate.OneShotOnce` | netpool/src/CJobTime.cpp:123-127 | A one-shot fires at most once, and does if and only if some walk is not before its expiry |
| `TimerRate.NeverEarly` | netpool/src/CJobTime.cpp:44-47 | No firing before the expiry, and only at walk times |
| `TimerRate.FirstFiring` | netpool/src/CJobTime.cpp:36-47 | The first firing comes less than one gap after the expiry |
| `TimerRate.KeepsFiring` | netpool/src/CJobTime.cpp:118-121 | When the walks end the last firing is less than one value old |
| `InetNtop.RoundTripV4` | xutil/src/win_inet_ntop.cpp:44-77 | Parsing the dotted decimal gives back the octets, and they are all of the address |
| `InetNtop.TextV4Injective` | xutil/src/win_inet_ntop.cpp:44-77 | Different addresses print differently |
| `InetNtop.TextV4Fits` | xutil/src/win_inet_ntop.cpp:53-56 | Text and NUL fit the smallest buffer accepted |
| `InetNtop.CharsV4` | xutil/src/win_inet_ntop.cpp:47-72 | The text has only decimal digits and dots |
| `InetNtop.PrintV4` | xutil/src/win_inet_ntop.cpp:44-77 | The in-place writer refuses small buffers and otherwise writes the text and a NUL and nothing else |
| `InetNtop.PutOctet` | xutil/src/win_inet_ntop.cpp:58-71 | Digit suppression writes exactly the decimal numeral |
| `InetNtop.DigitsRoundTrip` | xutil/src/win_inet_ntop.cpp:61-71 | A numeral without leading zeros reads back as its number |
| `InetNtop6.RoundTripV6` | xutil/src/win_inet_ntop.cpp:80-136 | For every address the text parses, by section 2.2 of RFC 4291, to the same eight groups |
| `InetNtop6.RoundTripBytes` | xutil/src/win_inet_ntop.cpp:94-133 | The text of sixteen bytes in network order parses to the groups that each pair of them makes |
| `InetNtop6.TextV6Injective` | xutil/src/win_inet_ntop.cpp:80-136 | Different addresses print differently |
| `InetNtop6.RunIsLeftmostMaximal` | xutil/src/win_inet_ntop.cpp:97-111 | The shortened run is the leftmost maximal run of three or more zero groups |
| `InetNtop6.RunIsLongestIff` | xutil/src/win_inet_ntop.cpp:97-111 | It is as long as every run of zero groups if and only if the address is not three zero groups, a non-zero one and four zero groups |
| `InetNtop6.ShapeV6` | xutil/src/win_inet_ntop.cpp:90-135 | The text has "::" exactly where the run was, so at most once, and exactly if three zero groups stand together; no group of the text has a leading zero; at most 39 characters |
| `InetNtop6.CharsV6` | xutil/src/win_inet_ntop.cpp:83-131 | The text has only decimal digits, small letters from a to f and colons, as section 4.3 of RFC 5952 asks |
| `InetNtop6.PrintV6` | xutil/src/win_inet_ntop.cpp:80-136 | The in-place writer with its nested loops writes exactly that text and a NUL |
| `InetNtop6.Turn` | xutil/src/win_inet_ntop.cpp:94-133 | One turn of the loop, the early break included, moves the cursor along the text |
| `InetNtop6.PutGroup` | xutil/src/win_inet_ntop.cpp:117-129 | Nibble suppression writes exactly the hexadecimal numeral |
| `MemPool.AllocatorSafe` | xutil/src/mempool.cpp:11-57 | Over any run: no duplicates on the stack, free and live blocks partition all nodes, live blocks are in bounds and disjoint, the next allocation fails if and only if all are live |
| `MemPool.LayoutSound` | xutil/src/mempool.cpp:15-17 | The nodes lie inside the memory if and only if count times size fits in 32 bits |
| `MemPool.FreeKeepsPartition` | xutil/src/mempool.cpp:92-103 | A free keeps the partition if and only if the block is live or the stack is full |
| `MemPool.UsedIsLive` | xutil/src/mempool.cpp:105-108 | The used count is the number of live blocks |
| `MemPool.Pool.Init` | xutil/src/mempool.cpp:11-39 | Fails when an allocation fails; otherwise every node is free, node i at i times the node size in 32 bits and the last on top, and the pool is sound if and only if count times size fits in 32 bits, that is if every node is inside the memory |
| `MemPool.Pool.ResetPool` | xutil/src/mempool.cpp:50-57 | Every node is free again, in the order of `Init` |
| `MemPool.Pool.Allocate` | xutil/src/mempool.cpp:81-90 | Fails if and only if all are live; otherwise the node becomes live and was not before |
| `MemPool.Pool.FreeBlock` | xutil/src/mempool.cpp:92-103 | Pushes the node; the invariant holds afterwards if and only if the block was live or the stack full |
| `MemPool.Pool.FreeNode` | xutil/src/mempool.cpp:69-79 | Pushes the node unless the stack is full |
| `MemPool.Pool.FreeThenAllocate` | xutil/src/mempool.cpp:81-103 | Free then malloc returns the same block and restores the stack |
| `MemPool.Pool.UsedCount` | xutil/src/mempool.cpp:105-108 | Returns the number of live blocks |
| `MemPool.Pool.NewObj` | xutil/src/mempool.cpp:59-67 | What it hands out: nothing if the stack is empty, what lies behind the stack if and only if no block is live, otherwise the node above the top, which is the one taken off if and only if both slots hold the same |
| `MemPool.Pool.NewObjAfterAllocate` | xutil/src/mempool.cpp:59-67 | After an allocation it hands out the live block again |
| `LineReader.LinesInOrder` | xutil/src/socketwrap.cpp:326-352 | On any stream of lines that fit, however it is cut into pieces, successive calls return the lines in order without carriage returns, consuming exactly through each newline |
| `LineReader.FitsExactly` | xutil/src/socketwrap.cpp:326-352 | A call succeeds on a line if and only if it has at most bufsiz-2 characters without carriage returns |
| `LineReader.LineOfStream` | xutil/src/socketwrap.cpp:329-351 | A line that fits is delivered whole; any other fails with the buffer filled with its beginning |
| `LineReader.LineFate` | xutil/src/socketwrap.cpp:326-352 | On every script: RECV_OK if and only if a newline or NUL arrives before any timeout, error or close and before the room runs out, and then the line is stored with a NUL and exactly it is consumed; otherwise RECV_ERROR, with as much as fits and a NUL, or with what came and no NUL |
| `LineReader.ReadIs` | xutil/src/socketwrap.cpp:212-261 | On every script: all bytes asked for if they arrive; otherwise those that did, counted after a timeout and not after an error or a close; and what is left of the script |
| `LineReader.StoresClean` | xutil/src/socketwrap.cpp:336-346 | On every script, failing calls included, no carriage return, newline or NUL is stored |
| `LineReader.StaysInsideIff` | xutil/src/socketwrap.cpp:328-349 | On every script everything stored is inside the buffer if and only if its size is not zero |
| `LineReader.RecvLine` | xutil/src/socketwrap.cpp:326-352 | The in-place loop returns RECV_OK if and only if a newline or NUL arrives before a timeout, error or close and before the room runs out, then leaves the line and a NUL in the buffer, and writes nothing outside the text and one byte, on every script |
| `LineReader.Socket.ReadTimeout` | xutil/src/socketwrap.cpp:212-261 | The retry loop's result, bytes stored and bytes consumed on every script of data, timeouts, errors and close |
| `Rand.StepIsBijection` | xutil/src/utilrand.cpp:32-41 | The step has an explicit inverse on both sides |
| `Rand.NextBits` | xutil/src/utilrand.cpp:34-40 | Which bits of the newest and of the oldest word each bit of a new number is the sum of |
| `Rand.StepsUndone` | xutil/src/utilrand.cpp:32-41 | n steps are undone by n inverse steps and the other way round |
| `Rand.OrbitIsCycle` | xutil/src/utilrand.cpp:32-41 | The first state to come up again is the one started from |
| `Rand.StepsLinear` | xutil/src/utilrand.cpp:32-41 | n steps are linear over xor |
| `Rand.ZeroOnlyFromZero` | xutil/src/utilrand.cpp:32-41 | A state reaches the all-zero state if and only if it is the all-zero state |
| `Rand.FourOutputsFixState` | xutil/src/utilrand.cpp:32-41 | Any four words are the first four numbers of exactly one state |
| `Rand.FillIsOutputs` | xutil/src/utilrand.cpp:43-65 | Which byte of which number each byte of a filled buffer is |
| `Rand.BytesMakeWord` | xutil/src/utilrand.cpp:47-62 | The four bytes of a number make it up, the low one first |
| `Rand.BytesAreUnique` | xutil/src/utilrand.cpp:47-62 | And no other four bytes do |
| `Rand.FillSteps` | xutil/src/utilrand.cpp:43-65 | How many numbers a request of a given length draws |
| `Rand.Generator.RandNext` | xutil/src/utilrand.cpp:32-41 | Bit j of the number is the exclusive or of bits j and j+19 of the old w and j, j-11, j+8 and j-3 of the old x, as far as they are in the word; the other words move down by one |
| `Rand.Generator.RandStr` | xutil/src/utilrand.cpp:43-65 | The loop fills exactly the requested bytes and leaves the rest of the buffer |
| `PrefixRange.ConvertIsBlock` | xutil/include/engine_ip_range.h:29-31 | For every address and mask 0 to 32 the macro gives the aligned block of 2^(32-mask) addresses, without wrap |
| `PrefixRange.MaskTellsMembership` | xutil/include/engine_ip_range.h:29-31 | An address is in the range if and only if its masked bits are the same; the range contains its address and has exactly 2^(32-mask) members |
| `PrefixRange.LoadV6IsBlock` | xutil/include/engine_ip_range.h:29-31 | The macro's use on the words of an IPv6 address (lines 207-265 of xutil/src/engine_ip_range.cpp) gives the 128-bit block for every mask 0 to 128 |
| `PrefixRange.Laminar` | xutil/include/engine_ip_range.h:29-31 | Two ranges are nested or disjoint (section 3.1 of RFC 4632) |
| `PrefixRange.Tiles` | xutil/include/engine_ip_range.h:29-31 | A range of mask m is tiled exactly by its 2^k ranges of mask m+k |
| `PrefixRange.TileIsBlock` | xutil/include/engine_ip_range.h:29-31 | Each tile is a range of its own |
| `StrSearch.ScanFinds` | xutil/src/utilstr.cpp:139-158 | Any result is the end of an occurrence |
| `StrSearch.ScanIsAttempts` | xutil/src/utilstr.cpp:146-155 | On every input the scan is a chain of attempts, each starting behind the byte that ended the last one |
| `StrSearch.FirstByteWins` | xutil/src/utilstr.cpp:146-155 | If the first byte equal to the pattern's first begins an occurrence, that one is returned |
| `StrSearch.UniformIsFound` | xutil/src/utilstr.cpp:146-155 | For a pattern of equal bytes the first occurrence is returned |
| `StrSearch.OthersAreMissed` | xutil/src/utilstr.cpp:146-155 | Every other pattern is missed behind one more copy of its first byte |
| `StrSearch.CompleteIffUniform` | xutil/src/utilstr.cpp:139-158 | The search misses no occurrence in any buffer if and only if all bytes of the pattern are equal |
| `StrSearch.MemSearch` | xutil/src/utilstr.cpp:139-158 | The loop computes the scan; with a pattern length of zero it returns -1 |
| `StrSearch.StrIStr` | xutil/src/utilstr.cpp:160-183 | Gives the scan of the case-folded inputs, so the same as util_memsearch on them, and any result ends an occurrence in any case of the letters; with an empty pattern it returns -1 |
| `StrSearch.StrLen` | xutil/src/utilstr.cpp:54-61 | The index of the first NUL |

## Left out

- The Windows branches, except `win_inet_ntop.cpp`, which is only compiled there.
- Condition variables and memory order: reads and locked sections are atomic steps, and a timed wait is a step that may always return, so a lost wake-up costs nothing in the model.
- Bodies of tasks, hooks and callbacks: they return; a callback may add timers and nothing else, because deleting one takes the mutex the walk already holds.
- Undefined behaviour at the C++ level in the pool: a deleted worker object stays readable in the model (a history variable records such workers), and an iterator whose node another thread erases moves on by address.
- A failing `pthread_create` (netpool/src/CThread.cpp:42), which would leave a worker in the set with no thread and a clear run flag; thread creation succeeds in the model.
- More than one ageing thread, a second `Terminate` (the destructor's), `Execute` with a task passed before, and reuse of a worker's address.
- `m_run_cnt`, `print_info`, logging, core pinning, and what `CThread` does inside `Start` beyond setting its run flag.
- PoolReturn.TerminateReturnsIff: asks that no ageing pass is under way, since one that has a cursor on a worker in the trash may still tell it; `BlockedForEver` covers passes elsewhere.
- PoolObject.CThreadPool.Execute: one call with no other thread in between; PoolModel has every interleaving.
- PoolDrain.EmptiesQueueIff: asks that no ageing pass is under way, because a pass whose join is blocked holds the lock for ever and an `Execute` before its insertion then never pushes; the half about an empty queue is in `ShutdownDrains` without that.
- PoolDrain.SafeFromClearingIff: says nothing while some `Execute` is past its check, which may add one more worker, or while an ageing pass is under way, which may hold a told worker whose run flag was set too late.
- The runs of PoolModel start at clock 0, from an `Init` that found an empty pool and enough memory; `PoolObject.CThreadPool.Init` has the other cases.
- PoolObject.CThreadPool.AgeOut: joining and deleting the workers taken out is only in PoolModel, which has their threads.
- PoolObject.CThreadPool.TellAll: as above; the set's address order is left open, so the order of the orders is any.
- TimerManager.TimeJobMgr.TimeJobWalk: a walk makes finitely many callbacks that add timers (the script); a timer of value zero that re-adds itself for ever would keep the walk going for ever.  Expiry times do not wrap at 64 bits.
- MemPool.Pool.Init: takes the node header to be 16 bytes; `mpool_destroy` and the header writes are not modelled.
- MemPool.Pool.NewObj: what lies behind the stack is not modelled.
- LineReader.RecvLine: a buffer size of zero only in `StaysInsideIff`, since the stores are then outside any buffer; the socket is a script of data, timeouts, errors and close, and `sock_send_line` and the rest of the file are foreign calls.
- InetNtop.PrintV4: INET_ADDRSTRLEN is taken to be 16, and INET6_ADDRSTRLEN 46 in `PrintV6`; the system headers are not part of this model.
- Rand.Generator.RandStr: stores are little-endian; seeding, the period claimed in a comment and `rand_alphastr` are left out.
- PrefixRange.LoadV6IsBlock: masks above 128, which the code does not refuse and whose shift is undefined, are not modelled; nor is the text parsing around it.
- StrSearch.MemSearch: with a pattern length of zero the pattern's memory must be readable as far as the buffer is long, because the code reads it; likewise in `StrIStr`.
- `util_strncmp`, plain copies and fills, DNS, accept and connect, pollers, signal handling and forwarding wrappers: easy members or foreign calls.
