# Reactor server: a verified model

This project models the stateful core of a reactor-style TCP server written in C++ and proves what
that core is supposed to keep true over every run: the LFU cache with aging, the event loop's task
queue and wakeup protocol, the double-buffered asynchronous logger, the timer queue, the network
buffer with the send path above it, the slot-carving memory pool, epoll registration, integer
formatting and the hash ring. `dafny verify dfyconfig.toml` checks everything.

How the files divide the work:

- `FreqList`, `LfuIndex`, `LfuPolicy`, `LfuRuns`, `LfuHistory`, `LfuLimits`, `LfuCache`, `LfuReplay`: the LFU cache.
  `LfuPolicy` is the policy with the linked lists forgotten: a map from keys to value, frequency and
  the moment the node entered its present list. `LfuRuns` proves what every run of put, get and purge
  keeps, `LfuHistory` what the policy means in terms of the history of calls alone, `LfuLimits` for
  which limits it works. `LfuCache` is the code, node by node on the heap, each method
  shown to be the policy's step; `LfuReplay` joins the two.
- `EventLoop`, `AsyncLogging`: step systems. A step is one critical section or one access to a shared
  field, and between two steps any other thread may move. The theorems quantify over all runs.
- `TimerRuns`: the timer queue and its alarm as functions of the course of time; `Timers` and
  `TimerQueue` are the classes, each method shown to be one of these functions, `TimerReplay` plays whole
  runs on them, and `TimerRepeats` says when a timer fires again.
- `Buffer`, `TcpConnection`, `FixedBuffer`, `LogStream`, `MemoryPool`, `EPollPoller`,
  `ConsistentHash`: classes with the source's fields, each method proved against an abstract value or
  an invariant. `Padding` and `Arena` hold the pool's address arithmetic and memory layout as values.

System calls are parameters: what `write`, `readv` and `operator new` answer is an argument, so a
statement about a method is a statement about every answer. Ghost fields (`owner`, `since`, `phase`,
`accepted`, `live` and the like) record history and change nothing.

## Main results

- LFU: `minFreq_` is the least frequency in the cache on every run, and the cache keeps to its
  capacity, if and only if the capacity is 0 or the average limit is between 2 and 250
  (`LfuLimits.ExactIff`, `LfuLimits.CapacityHeldIff`). In that range the victim is the one least-used
  key, the longest-waiting among equals (`LfuRuns.VictimIsLeastUsed`); as long as nothing was aged, that
  is the key with the fewest puts and gets since its insertion, the one used longest ago among equals
  (`LfuHistory.VictimByHistory`). Outside it kickOut can take a
  tail sentinel for a node, but never a null pointer; it then leaves map and lists in agreement if and
  only if the sentinels' key is not cached (`LfuCache.RLfuCache.KickOut`, `LfuLimits.NeverStraysIff`).
  Every history plays on the linked structure up to the first operation for which that fails, and a
  get hits exactly if its key is cached and then returns the value last put (`LfuReplay.Replay`).
- Event loop: no interleaving leaves the loop asleep on a queued task, if and only if `loop()` was not
  entered with tasks nobody signalled (`EventLoop.NoLostWakeupIff`). A quit() is heeded if and only if
  its store comes after the one that clears `quit_` in `loop()` (`EventLoop.QuitHeededIff`). Every
  queued task is run, in its turn (`EventLoop.PushedTaskRuns`).
- Logger: in no interleaving is a null buffer used or an empty vector popped, and file plus buffers
  are the appended lines in lock order (`AsyncLogging.NeverUnsafe`,
  `AsyncLogging.NothingLostOrReordered`); each is written by the first pass that takes over after it
  (`AsyncLogging.AppendedLineIsWritten`). stop() leaves no line behind if and only if it finds the back
  end between its test of `running_` and the exchange of buffers, or the front end without lines
  (`AsyncLogging.StopDrainsIff`, and `AsyncLogging.EndedDrainsIff` for runs with later appends).
- Timers: over all runs of the event loop and all courses of time, a queue with timers is armed before
  every pass and after every call of its handler, if and only if no pass reports an alarm on an empty
  queue and calls the handler with timers, added in between, of which none is due
  (`TimerRuns.AlwaysArmedIff`). Such a pass exists and loses a timer for good (`TimerRuns.TimerLost`).
  In every pass that reports an alarm all timers due by then fire (`TimerQueue.TimerQueue.RunPass`), and
  every sequence of passes plays on the class (`TimerReplay.Replay`). Two firings of a repeater are at
  least its interval apart (`TimerRepeats.FiringsApart`).
- Connection: wire plus output buffer are the bytes sent, SHUT_WR goes out at most once, and while
  shutting down exactly when all of them are on the wire (`TcpConnection.Play`).
- Pool: slots, free list and block headers never overlap and none is lost in any sequential run
  (`MemoryPool.Play`); the interleaving that loses one is exhibited. A padded block start is a multiple of the slot size for
  all addresses if and only if the slot size is a power of two (`Padding.AlignedIff`).

Three places where the code and its own comments disagree; the model follows the code. `getNode`
(include/ConsistenHash.h:67-90) is documented to find the first hash greater than or equal to the key's and
to return a node's name; it finds the first strictly greater one and returns the hash. The two
lookups agree if and only if the key's hash is not on the ring or is alone on it
(`ConsistentHash.DocumentedIff`). `padPointer` (memory/memoryPool.cc:95-100) is documented to align to a
multiple of the slot size; because the subtraction wraps at 2^64 it does so only for powers of two
(`Padding.AlignedIff`). `retrieve` (include/Buffer.h:34) calls its else-branch the case of equality; it
also takes everything when more is asked for than there is.

## Model

| member | source | states |
|---|---|---|
| `FreqLists.FreqList.constructor` | include/LFU.h:41-48 | a new list is the two sentinels linked to each other |
| `FreqLists.FreqList.IsEmpty` | include/LFU.h:50-53 | true exactly when the chain holds the sentinels only |
| `FreqLists.FreqList.First` | include/LFU.h:80 | the node that has been in the chain longest (the tail sentinel of an empty list) |
| `FreqLists.FreqList.AddNode` | include/LFU.h:56-65 | the doubly linked chain stays well formed and gains the node just before its tail, nothing else moving |
| `FreqLists.FreqList.RemoveNode` | include/LFU.h:67-78 | the chain stays well formed and loses exactly that node, whose links are cleared; a node without a successor, such as a sentinel of any list, is left alone |
| `LfuIndex.Locate` | include/LFU.h:220-228 | every cached node is found in the list of its own frequency |
| `LfuIndex.InExactlyOneList` | include/LFU.h:220-246 | wherever a cached node occurs, it is in the list keyed by its frequency and at one place only |
| `LfuIndex.RemovedIndexed` | include/LFU.h:220-228 | unlinking one node leaves every other node indexed and every list in order of arrival |
| `LfuIndex.AddedIndexed` | include/LFU.h:231-246 | linking a loose node at the back of its list makes the whole index consistent again |
| `LfuIndex.MovedIndexed` | include/LFU.h:287-297 | remove, change the frequency, add: every node is again in the list of its own frequency |
| `LfuIndex.ErasureIff` | include/LFU.h:213-215 | erasing a key from the map without unlinking a node keeps map and lists in agreement if and only if the key was not cached |
| `LfuIndex.EmptyIff` | include/LFU.h:50-53 | a list is empty exactly when no cached key has its frequency |
| `LfuIndex.LeastFound` | include/LFU.h:305-317 | the minimum over the non-empty lists is the least frequency of any cached key, with the INT8_MAX start and the fallback to 1 |
| `LfuIndex.FirstIsOldest` | include/LFU.h:211-217 | the front node of a list entered it before all other keys of that frequency, and removing it keeps the index |
| `LfuPolicy.LeastWithinAverage` | include/LFU.h:249-261 | if the average is within the limit, so is the least frequency |
| `LfuPolicy.AgedLeast` | include/LFU.h:275-317 | a least frequency of at most limit + 1 ages to one that is exact, below INT8_MAX and within the limit |
| `LfuPolicy.AgesKeeps` | include/LFU.h:275-302 | aging keeps frequencies at 1 or more, the number of keys, and the access total at or above the sum of frequencies |
| `LfuPolicy.HitKeeps` | include/LFU.h:174-190 | an access keeps the joint invariant of minFreq_, access total, limit and capacity, aging or not |
| `LfuPolicy.InsertKeeps` | include/LFU.h:193-208 | an insertion restores the joint invariant even where eviction left minFreq_ inexact |
| `LfuPolicy.EvictedKeeps` | include/LFU.h:211-217 | eviction takes one key and keeps the access total at or above the sum of frequencies |
| `LfuPolicy.StepKeeps` | include/LFU.h:101-146 | each of put, get and purge keeps the joint invariant; purge does although it resets neither total nor minFreq_ |
| `LfuPolicy.StepStamps` | include/LFU.h:231-246 | for all limits, no two cached keys ever entered their lists at the same moment |
| `LfuRuns.RunKeeps` | include/LFU.h:94-317 | after every run with limit 2..250: minFreq_ is the least frequency and within the limit, the total bounds the sum, the size is within capacity |
| `LfuRuns.VictimIsLeastUsed` | include/LFU.h:211-217 | kickOut's node is the key that is first by (frequency, waiting time) among all cached keys, and no other key is |
| `LfuRuns.OutcomeIff` | include/LFU.h:193-217 | for all limits an operation has an outcome in the policy if and only if it is not a put that makes kickOut erase the sentinels' key although it is cached |
| `LfuRuns.NeverStuck` | include/LFU.h:193-217 | after every run every such operation continues the run |
| `LfuRuns.NoneStrays` | include/LFU.h:193-217 | in range no operation of any run makes kickOut do that, whatever keys are used |
| `LfuRuns.CachedIsLastPut` | include/LFU.h:101-139 | for all limits, what is cached under a key is the value last put there since the last purge |
| `LfuHistory.PutIsGet` | include/LFU.h:101-118 | a put of a cached key is a get of it that also stores: the same outcomes for frequencies, order, access total and minFreq_, in both directions |
| `LfuHistory.AgesExactly` | include/LFU.h:281-298 | with a limit of 0 or more, aging takes a key to 1 if and only if its excess over 1 is at most half the limit, takes half the limit, rounded down, off every other key, and reverses no order |
| `LfuHistory.NegativeAges` | include/LFU.h:281-298 | a negative limit raises every frequency by half its size, rounded down |
| `LfuHistory.CalmStep` | include/LFU.h:174-208 | as long as the average is within the limit, an access adds one to its key's frequency or starts it at 1, puts that key last in waiting, and leaves all others alone |
| `LfuHistory.AgedStep` | include/LFU.h:249-302 | beyond the limit every key ages from what the access would have left |
| `LfuHistory.StepAccounts` | include/LFU.h:249-272 | every access adds one to the total, an eviction takes the victim's frequency, a kickOut that finds nobody takes one, and nothing else changes it; purge leaves total and minFreq_ |
| `LfuHistory.FreqIsUseCount` | include/LFU.h:174-208 | on every history within the average, a cached key's frequency is the number of puts and gets of it since it was last inserted |
| `LfuHistory.WaitIsRecency` | include/LFU.h:56-65 | and of two cached keys the one used longer ago has waited longer |
| `LfuHistory.VictimByHistory` | include/LFU.h:211-217 | so kickOut takes the key with the fewest uses since its insertion, among those the one used longest ago, and no other |
| `LfuHistory.TotalIsSum` | include/LFU.h:249-272 | on such histories without a purge the access total is the sum of the frequencies |
| `LfuLimits.Unevictable` | include/LFU.h:275-317 | for every limit outside 2..250 and any number of keys, a run after which they are cached, minFreq_ is 1 and none of them has frequency 1 |
| `LfuLimits.ExactIff` | include/LFU.h:94-317 | minFreq_ is exact on all runs if and only if the capacity is 0 or the limit is 2..250 |
| `LfuLimits.Outgrows` | include/LFU.h:193-217 | a full cache in which no key has frequency minFreq_ and the sentinels' key is not cached takes one key more than its capacity |
| `LfuLimits.CapacityHeldIff` | include/LFU.h:193-217 | given keys, other than the sentinels', enough to fill it, the cache keeps to its capacity on all runs if and only if that is 0 or the limit is 2..250 |
| `LfuLimits.NeverStraysIff` | include/LFU.h:211-217 | given keys, the sentinels' among them, enough to fill it, kickOut leaves no node behind on any run if and only if the capacity is not positive or the limit is 2..250 |
| `LfuCache.RLfuCache.constructor` | include/LFU.h:94-97 | a new cache is valid and is the policy's initial state |
| `LfuCache.RLfuCache.RemoveFromFreqList` | include/LFU.h:220-228 | the list of the node's frequency loses the node and all other lists and all records stay; for a sentinel nothing changes |
| `LfuCache.RLfuCache.AddToFreqList` | include/LFU.h:231-246 | the node goes to the back of the list of its frequency, which is created if missing |
| `LfuCache.RLfuCache.Rebucket` | include/LFU.h:287-297 | one node changes list and frequency; lists stay disjoint, well formed and together hold exactly the cached nodes |
| `LfuCache.RLfuCache.Promote` | include/LFU.h:178-186 | the policy's access step: frequency plus one, back of the next list, minFreq_ advanced exactly if its list ran empty |
| `LfuCache.RLfuCache.ScanMin` | include/LFU.h:305-317 | the scan, in any order of the hash table, yields the least frequency, or 1 if that is INT8_MAX or more |
| `LfuCache.RLfuCache.UpdateMinFreq` | include/LFU.h:305-317 | with all nodes re-bucketed, completes the policy's aging step |
| `LfuCache.RLfuCache.AgeNode` | include/LFU.h:281-298 | one iteration ages one key to max(1, freq - limit/2) and leaves the structure valid mid-loop |
| `LfuCache.RLfuCache.AgeAll` | include/LFU.h:281-298 | the loop ages every key exactly once, in any order |
| `LfuCache.RLfuCache.HandleOverMaxAverageNum` | include/LFU.h:275-302 | is the policy's aging step, or nothing on an empty cache |
| `LfuCache.RLfuCache.AddFreqNum` | include/LFU.h:249-261 | counts the access and ages exactly when the average exceeds the limit |
| `LfuCache.RLfuCache.GetInternal` | include/LFU.h:174-190 | returns the node's value and is the policy's hit |
| `LfuCache.RLfuCache.TakeVictim` | include/LFU.h:211-214 | takes the key that waited longest among those of frequency minFreq_ out of its list; if there is none, the node is the tail sentinel and nothing changes |
| `LfuCache.RLfuCache.KickOut` | include/LFU.h:211-217 | erases the key of the node at the front of the list for minFreq_ and counts its frequency off; map and lists agree afterwards if and only if some key has frequency minFreq_ or the sentinels' key is not cached |
| `LfuCache.RLfuCache.PutInternal` | include/LFU.h:193-208 | is the policy's miss: evict if full, insert with frequency 1 |
| `LfuCache.RLfuCache.Put` | include/LFU.h:101-118 | is the policy's put, hit, miss and capacity 0 alike; the lists that kickOut dereferences go on existing |
| `LfuCache.RLfuCache.Get` | include/LFU.h:121-132 | is the policy's get and returns the cached value or reports a miss |
| `LfuCache.RLfuCache.Purge` | include/LFU.h:142-146 | is the policy's purge: entries gone, total and minFreq_ as they were |
| `LfuReplay.FullIsEvictable` | include/LFU.h:211-217 | after every run in range, a non-empty cache has a key of frequency minFreq_ |
| `LfuReplay.Replay` | include/LFU.h:94-317 | every history plays on the linked structure up to the first operation, if any, that strays; there is none in range or if the sentinels' key is never put. Every state on the way is that prefix's run of the policy, and each get hits exactly if its key is cached and returns the value last put |
| `EventLoop.StepConsistent` | src/EventLoop.cc:76-208 | every step of every thread keeps: executed, batch and queue make up all queued tasks in order; the flags agree with where the loop is; a quit seen in poll has a signal due |
| `EventLoop.StepWoken` | src/EventLoop.cc:138-208 | every step keeps: from the swap to the next poll a non-empty queue has a wakeup written or about to be |
| `EventLoop.NoLostWakeupIff` | src/EventLoop.cc:83-99 | in all runs from a given entry to loop(), poll with queued tasks implies a pending wakeup, if and only if the queue is empty or signalled at entry |
| `EventLoop.QuitIsNoticed` | src/EventLoop.cc:114-122 | if quit_ is set while the loop is in poll, the eventfd is signalled or a quitter is about to |
| `EventLoop.QuitHeededIff` | src/EventLoop.cc:76-122 | after a quit() the loop stops at its next test, whatever anybody does, if and only if the store came after loop() had cleared quit_; an earlier quit() is forgotten |
| `EventLoop.QueuedByPushes` | src/EventLoop.cc:138-143 | queueInLoop adds exactly its task behind all tasks queued so far, and no other step adds one |
| `EventLoop.ConservedInOrder` | src/EventLoop.cc:192-208 | in every reachable state executed ++ batch ++ pending is what was queued, in queue order |
| `EventLoop.BatchIsFixed` | src/EventLoop.cc:192-208 | until a batch is finished no step, not even a re-queuing task, changes what it consists of |
| `EventLoop.OnePassSuffices` | src/EventLoop.cc:83-99 | everything queued while the loop was in poll has been run when the loop next tests quit_ |
| `EventLoop.PushedTaskRuns` | src/EventLoop.cc:83-99 | in every run, a task queued at any step has been run, at its place in the order, once the loop has been in poll and back at its test |
| `EventLoop.PushedInPollRuns` | src/EventLoop.cc:83-99 | and at the next test if it was queued while the loop was in poll |
| `EventLoop.PushedByHandlerRuns` | src/EventLoop.cc:83-99 | or if a channel handler queued it |
| `EventLoop.OwnSignals` | src/EventLoop.cc:149-152 | in every run queueInLoop on the loop thread signals exactly while tasks are being run |
| `EventLoop.QuietAfterRead` | src/EventLoop.cc:155-163 | after handleRead the eventfd stays at zero until somebody signals |
| `EventLoop.PassPossible` | src/EventLoop.cc:83-99 | from poll the loop thread can always reach its next test by its own steps, having run everything queued |
| `AsyncLogging.OwnedIsSafe` | log/AsyncLogging.cc:21-98 | the ownership invariant makes every enabled step free of null dereference and of pop on an empty vector |
| `AsyncLogging.StepOwned` | log/AsyncLogging.cc:21-98 | every step of either thread keeps the ownership invariant |
| `AsyncLogging.StepConserved` | log/AsyncLogging.cc:21-98 | every step keeps file, batch, full buffers and current buffer equal to the lines appended; trimming drops only written data |
| `AsyncLogging.NeverUnsafe` | log/AsyncLogging.cc:81-97 | in every interleaving every step that can be taken is safe |
| `AsyncLogging.SparesAreThere` | log/AsyncLogging.cc:58-74 | nextBuffer_ is missing only if buffers_ is non-empty, and both spares are there at every loop top |
| `AsyncLogging.StepBuffers` | log/AsyncLogging.cc:25-45 | append allocates a buffer exactly if the line does not fit and nextBuffer_ is gone; the back end allocates none, keeps at most two written ones, and waits exactly if no buffer is full |
| `AsyncLogging.AppendedByAppends` | log/AsyncLogging.cc:21-45 | append adds exactly its line behind all lines so far, and no other step adds one |
| `AsyncLogging.NothingLostOrReordered` | log/AsyncLogging.cc:21-98 | written ++ in flight equals the appended lines that fit a large buffer, in lock order, and the file is whole lines |
| `AsyncLogging.WaitEndsInTakeover` | log/AsyncLogging.cc:60-74 | in every run, when the back end's wait ends, or when it finds a full buffer at once, its batch is all that the front end had, and the front end has nothing |
| `AsyncLogging.TakenOverIsWritten` | log/AsyncLogging.cc:58-98 | everything appended up to that moment is in the file when the back end is next at its loop top |
| `AsyncLogging.AppendedLineIsWritten` | log/AsyncLogging.cc:21-98 | so a line that fits is written, in its place, by the first pass that takes over after it |
| `AsyncLogging.PassPossible` | log/AsyncLogging.cc:58-100 | from its loop top a running back end can always reach its next one by its own steps, having written every line that fits |
| `AsyncLogging.StopDrainsIff` | log/AsyncLogging.cc:58-102 | with no append after stop(), all lines are in the file when the back end has gone if and only if stop() found it between its test and the exchange, or found the front end without lines |
| `AsyncLogging.EndedDrainsIff` | log/AsyncLogging.cc:58-102 | in every run, all lines are in the file when the back end has gone if and only if none that fits was appended after its last exchange of buffers |
| `AsyncLogging.StopCanStrandALine` | include/AsyncLogging.h:32-36 | for every line that fits, a run in which stop() leaves it unwritten for good |
| `FixedBuffers.FixedBuffer.Avail` | include/FixedBuffer.h:42 | free space and contents make up the capacity |
| `FixedBuffers.FixedBuffer.Append` | include/FixedBuffer.h:23-30 | the text is taken whole if it is strictly shorter than the free space, else not at all |
| `FixedBuffers.FixedBuffer.Add` | include/FixedBuffer.h:45-49 | the bytes already stored at the cursor join the contents |
| `FixedBuffers.FixedBuffer.Reset` | include/FixedBuffer.h:51-55 | the buffer is empty |
| `LogStream.DecimalParses` | log/LogStream.cc:6-30 | the decimal text of every integer is canonical and parses back to it |
| `LogStream.ParsesToDecimal` | log/LogStream.cc:6-30 | it is the only canonical text that does |
| `LogStream.DecimalLength` | log/LogStream.cc:9 | 20 characters suffice for every 64-bit value, the minimum included |
| `LogStream.Reverse` | log/LogStream.cc:26 | the stretch is reversed in place and the rest untouched |
| `LogStream.EmitDigits` | log/LogStream.cc:15-20 | the loop stores the digits lowest first, through C++ truncating division and the mirrored table |
| `LogStream.EmitText` | log/LogStream.cc:11-27 | digits, sign, terminator and reversal leave the decimal text in place and nothing before it changed |
| `LogStream.LogStream.FormatInteger` | log/LogStream.cc:6-30 | given 32 free bytes the decimal text is appended, else nothing; all stores stay inside the buffer |
| `Timers.InsertEntrySorted` | src/TimerQueue.cc:175-176 | insertion keeps the set strictly ordered by (time, address) and adds exactly the entry |
| `TimerQueue.TimerQueue.ResetTimerfd` | src/TimerQueue.cc:71-96 | set for the earliest timer, the alarm arms the queue: never early, and late by no more than the 100 microseconds and the time the call takes |
| `TimerQueue.TimerQueue.InsertTimer` | src/TimerQueue.cc:164-179 | the timer is queued under its expiration, and the result says exactly whether it became the earliest |
| `TimerQueue.TimerQueue.AddTimerInLoop` | src/TimerQueue.cc:58-68 | a new timer is queued and an armed queue stays armed |
| `TimerRuns.LaterTimerLeavesAlarm` | src/TimerQueue.cc:60-67 | a timer that is not the earliest leaves the alarm alone |
| `TimerQueue.TimerQueue.Boundary` | src/TimerQueue.cc:112-113 | the sentry splits the set exactly at time <= now |
| `TimerQueue.TimerQueue.GetExpired` | src/TimerQueue.cc:109-118 | exactly the entries with time <= now leave, in order, and their timers are being fired |
| `TimerQueue.TimerQueue.AddAll` | src/TimerQueue.cc:127-133 | callbacks and handlers that add timers keep the set valid and every added timer queued |
| `TimerQueue.TimerQueue.ResetOne` | src/TimerQueue.cc:142-161 | a fired timer is settled as the functions of TimerRuns say, and the queue is armed |
| `TimerRepeats.RepeaterQueuedAgain` | src/TimerQueue.cc:139-150 | a repeater that fires is queued again, one interval after a moment between the handler's reading of the clock and its end |
| `TimerRepeats.OneShotGone` | src/TimerQueue.cc:151-154 | a one-shot timer that fires is queued no more |
| `TimerRepeats.HandledMember` | src/TimerQueue.cc:109-162 | nothing is queued after the handler but what was not due, what the callbacks added and the repeaters that fired |
| `TimerRepeats.FiringsApart` | src/TimerQueue.cc:120-162 | on every run two firings of a repeater are at least its interval apart |
| `TimerQueue.TimerQueue.Reset` | src/TimerQueue.cc:139-162 | each fired timer is settled once; the queue is armed if there was one |
| `TimerRuns.HandlerArmsIff` | src/TimerQueue.cc:120-162 | called on an armed queue, the handler leaves it armed whatever the clock does if and only if the queue is empty or its earliest timer is due at the call |
| `TimerRuns.HandledArmed` | src/TimerQueue.cc:120-162 | for a given course of time, the handler leaves an armed queue armed if and only if it had no timer, fired one, or did not consume the alarm |
| `TimerRuns.PassArmed` | src/TimerQueue.cc:58-162 | a pass that is no hazard keeps the queue armed |
| `TimerRuns.HazardLoses` | src/TimerQueue.cc:120-137 | after every run that leads to a hazard some course of time leaves timers queued with no alarm for them |
| `TimerRuns.AlwaysArmedIff` | src/TimerQueue.cc:58-162 | for every sequence of passes: the queue is armed before each and after each handler call, for all courses of time, if and only if no course of time leads to a hazard |
| `TimerRuns.NoneBeforeIsSafe` | src/TimerQueue.cc:58-162 | if no handler adds timers ahead of the timer handler, the queue is always armed |
| `TimerRuns.ReportFires` | src/TimerQueue.cc:109-137 | a pass that reports the alarm fires every timer due at the report, and at least one if the queue was armed and not empty |
| `TimerRuns.TimerLost` | src/TimerQueue.cc:58-162 | from a new queue, a run of three passes and three one-shot timers that leaves the third queued for good |
| `TimerQueue.TimerQueue.HandleRead` | src/TimerQueue.cc:120-137 | fires exactly the timers due at its reading of the clock, settles them, and arms the queue if the earliest was due at the call |
| `TimerQueue.TimerQueue.RunPass` | src/TimerQueue.cc:58-162 | one pass, whatever the queue held and whoever adds timers: all timers due at a reported alarm fire, every timer's fate is stated, and the queue is where its passes so far lead from a new one |
| `TimerReplay.Replay` | src/TimerQueue.cc:58-162 | every sequence of passes, under every course of time, plays on the class from a new queue and ends where the functions say, so the theorems on runs speak of it |
| `TimerQueue.HandlerFate` | src/TimerQueue.cc:120-162 | after a handler call each fired repeater is queued, each fired one-shot deleted, each new timer queued, each other timer where it was |
| `Buffers.CopyDown` | include/Buffer.h:98-100 | the overlapping copy moves the bytes unharmed |
| `Buffers.Buffer.Retrieve` | include/Buffer.h:28-38 | drops the first bytes, or all if more are asked for |
| `Buffers.Buffer.RetrieveAsString` | include/Buffer.h:47-52 | what is returned followed by what is left is what was there; a length beyond that takes all of it and what lies behind |
| `Buffers.Buffer.MoveToFront` | include/Buffer.h:93-103 | compaction keeps the readable bytes and the size |
| `Buffers.Buffer.MakeSpace` | include/Buffer.h:83-104 | makes room for the request, by growth or compaction, without touching the readable bytes |
| `Buffers.Buffer.EnsureWritableBytes` | include/Buffer.h:55-61 | there is room for the request and the readable bytes are as before |
| `Buffers.Buffer.Append` | include/Buffer.h:64-69 | the bytes join the end of the queue |
| `Buffers.Buffer.ReadFd` | src/Buffer.cc:15-60 | for every answer of readv, what was read joins the queue whole, spilled or not, and an error changes nothing |
| `Buffers.Play` | include/Buffer.h:28-104 | for every sequence of appends, retrievals and arrivals of any length: what was taken out, followed by what is readable, is what was put in, and each retrieval takes what it asks for or all there is |
| `TcpConnection.TcpConnection.ConnectEstablished` | src/TcpConnection.cc:161-169 | the connection becomes connected, tied and reading, the callback sees it connected, and the stream invariant is kept |
| `TcpConnection.TcpConnection.TryWrite` | src/TcpConnection.cc:92-117 | for every answer of write: what reached the wire, whether it was a fault, and when completion is announced |
| `TcpConnection.TcpConnection.Keep` | src/TcpConnection.cc:125-139 | the rest waits with write interest on; the high-water notice is queued exactly when the mark is crossed |
| `TcpConnection.TcpConnection.SendInLoop` | src/TcpConnection.cc:80-140 | wire ++ waiting grows by the payload for every answer of write but EPIPE/ECONNRESET; completion is announced exactly for a full direct write, the high-water mark exactly when the waiting bytes reach it |
| `TcpConnection.TcpConnection.Send` | src/TcpConnection.cc:61-75 | accepted and announced likewise while connected, unless a direct write meets a broken pipe; ignored otherwise |
| `TcpConnection.TcpConnection.Shutdown` | src/TcpConnection.cc:142-150 | SHUT_WR at once if nothing waits, and never before all accepted bytes are on the wire |
| `TcpConnection.TcpConnection.HandleWrite` | src/TcpConnection.cc:204-237 | moves bytes from the buffer's front to the wire; draining turns interest off and completes a pending shutdown |
| `TcpConnection.TcpConnection.HandleClose` | src/TcpConnection.cc:239-248 | the connection is closed with no interest left, and the connection and the close callback, in this order, see it closed |
| `TcpConnection.Handle` | src/TcpConnection.cc:61-248 | every event keeps the stream and half-close invariants, moves to the wire exactly the bytes that write takes of what it is offered, and SHUT_WR only goes out when everything accepted is on the wire |
| `TcpConnection.Play` | src/TcpConnection.cc:61-248 | for every sequence of events without a broken pipe: wire ++ waiting is what was sent before shutdown; SHUT_WR at most once, and while shutting down exactly when all is on the wire |
| `TcpConnection.Serve` | src/TcpConnection.cc:61-248 | the same from a new connection on |
| `Padding.PadBounds` | memory/memoryPool.cc:96-100 | for aligned addresses the padding is a multiple of 8 below the slot size, wraparound included |
| `Padding.PaddedRemainder` | memory/memoryPool.cc:96-100 | where the padded address lands modulo the slot size |
| `Padding.AlignedIff` | memory/memoryPool.cc:95-100 | all padded addresses are multiples of the slot size if and only if it is a power of two |
| `Padding.SmallestSufficientPool` | include/memoryPool.h:55-77 | the size class of 1..512 bytes is one of the 64 pools and the smallest whose slots suffice |
| `Arenas.InstallOk` | memory/memoryPool.cc:77-93 | a new block keeps the layout: blocks apart, headers linked, slots inside |
| `Arenas.CarveOk` | memory/memoryPool.cc:52-60 | the next slot is new, inside its block and apart from all others |
| `Arenas.StoreOk` | memory/memoryPool.cc:66-75 | a store into a slot disturbs no block header |
| `Arenas.SlotsSeparate` | memory/memoryPool.cc:33-93 | no two slots overlap and no slot overlaps a block's header link |
| `Arenas.BytesAccountedFor` | memory/memoryPool.cc:77-93 | every byte of a block is header, padding below a slot, slot or uncarved; a finished block wastes less than a slot |
| `MemoryPool.MemoryPool.constructor` | memory/memoryPool.cc:23-31 | a new pool has no block, no slot and no free list |
| `MemoryPool.MemoryPool.AllocateNewBlock` | memory/memoryPool.cc:77-93 | a fresh block always has room for a slot; slots are conserved if and only if the free list was empty |
| `MemoryPool.MemoryPool.Carve` | memory/memoryPool.cc:49-63 | hands out a slot never handed out before |
| `MemoryPool.MemoryPool.PopFree` | memory/memoryPool.cc:36-47 | hands out the slot released last, read through memory |
| `MemoryPool.MemoryPool.Allocate` | memory/memoryPool.cc:33-64 | the slot was held by nobody and comes from the free list if that has one, else it is new; no slot is lost, and the blocks gain at most the one obtained |
| `MemoryPool.MemoryPool.Deallocate` | memory/memoryPool.cc:66-75 | the slot moves from its holder to the front of the free list; null does nothing |
| `MemoryPool.MemoryPool.OwnerWrites` | memory/memoryPool.cc:66-75 | whatever a holder stores in its slot, free list and headers are intact |
| `MemoryPool.Play` | memory/memoryPool.cc:33-93 | in every sequential run of allocations, correct releases and stores by holders, over any supply of disjoint blocks, the pool stays valid, the slots held are exactly those handed out and not returned, and every slot is held or free |
| `MemoryPool.InterleavedReleaseLeaks` | memory/memoryPool.cc:33-93 | in every pool with a full block and an empty free list, a release between the two halves of allocate is lost |
| `EPollPoller.EPollPoller.UpdateChannel` | src/EPollPoller.cc:63-94 | added if and only if in the kernel with the present events, in channels_ if and only if not new, and no call refused |
| `EPollPoller.EPollPoller.RemoveChannel` | src/EPollPoller.cc:97-110 | the channel is new again and in neither table; all other channels keep their books |
| `EPollPoller.EPollPoller.Change` | include/Channel.h:41-45 | each enable and disable call changes the events and leaves kernel, table and index in agreement |
| `EPollPoller.InterestsIndependent` | include/Channel.h:41-50 | each of the five calls sets or clears all of its own bits and leaves the other interest alone |
| `EPollPoller.OnlyKnownBits` | include/Channel.h:41-45 | no call sets any other bit |
| `ConsistentHash.AddingMovesOnlyToNew` | include/ConsistenHash.h:35-90 | a lookup changes only onto an added hash, and exactly if one lies between the key and the old answer |
| `ConsistentHash.DocumentedIff` | include/ConsistenHash.h:67-90 | the lookup is the documented one, the least hash not below the key's, if and only if the key's hash is not on the ring or is alone on it |
| `ConsistentHash.DocumentedFails` | include/ConsistenHash.h:67-90 | a ring and a key for which it is not |
| `ConsistentHash.NextIsUnique` | include/ConsistenHash.h:77-90 | a lookup is determined by the ring and the key |
| `ConsistentHash.UpperBound` | include/ConsistenHash.h:84 | the first position above the key in a sorted vector |
| `ConsistentHash.SortSorts` | include/ConsistenHash.h:44 | sorted, with the same values |
| `ConsistentHash.LabelsDiffer` | include/ConsistenHash.h:39 | the labels of different replicas of a node differ |
| `ConsistentHash.ConsistentHash.ReplicasAre` | include/ConsistenHash.h:37-42 | a node's places on the ring are exactly the hashes of its labels and lead to the node |
| `ConsistentHash.ConsistentHash.ReplicasCount` | include/ConsistenHash.h:37-42 | with a hash function that tells labels apart they are as many as the replicas |
| `ConsistentHash.ConsistentHash.AddNode` | include/ConsistenHash.h:35-45 | ring gains exactly the node's replicas and the sorted vector follows |
| `ConsistentHash.ConsistentHash.GetNode` | include/ConsistenHash.h:77-90 | the one next hash clockwise, strictly after the key; the error exactly on an empty ring |
| `ConsistentHash.ConsistentHash.LookupAround` | include/ConsistenHash.h:35-90 | a lookup after addNode returns what it returned before or a hash of the new node |

## Left out

- LfuCache.RLfuCache.Put: not for a put that strays, that is, makes kickOut erase the sentinels' key from the map and leave its node in its list (`LfuCache.RLfuCache.KickOut` says when, `LfuLimits.NeverStraysIff` for which limits): what the code does from then on, with a node that is in a list and in no map, is not modelled.
- LfuCache.RLfuCache.PutInternal: as Put.
- The LFU counters are unbounded integers: 32-bit overflow of the access total, and the unsigned division a negative total would meet (limits of -2 and below only), are not modelled. The null guards of addNode and removeNode, the mutex, and the sharded RHashLfuCache are left out.
- The list objects that `purge` forgets without deleting (a memory leak in the source) are not tracked.
- EventLoop: channel handlers other than the wakeup channel's, and the bodies of tasks, appear only through what they queue and whether they quit. Time is not modelled, so the theorems say that a wakeup is due, not when the kernel delivers it.
- AsyncLogging: file rolling and flushing are left out; the wait on the condition variable may end at any moment. The conservation theorem speaks of lines shorter than 4,000,000 bytes, since FixedBuffer drops longer ones, and of the file together with the buffers, since stop() may leave lines behind (`AsyncLogging.StopDrainsIff` says when). That theorem is for runs in which nobody appends after stop(); `AsyncLogging.EndedDrainsIff` is for all.
- TimerQueue.TimerQueue.AddAll: callbacks and handlers act on the queue only by adding timers, the one thing the class lets them do.
- Timers: one monotone clock in whole microseconds stands for Timestamp::now and the timerfd; the floating-point conversion in addTime, the cross-thread addTimer and the destructor are left out.
- TcpConnection: sendFile, handleRead, handleError and connectDestroyed are left out, and so is what the user's callbacks do; send and shutdown are those of the loop thread. The raw pointer that the cross-thread send captures is an object-lifetime question outside this model.
- Buffers.Buffer.RetrieveAsString: a length that reaches beyond the vector is excluded, because the source then reads memory that is not its own.
- TcpConnection.TcpConnection.SendInLoop: a payload that meets EPIPE or ECONNRESET on the direct write is dropped by the source and is not counted as accepted.
- MemoryPool: sequential use by callers that return only slots they hold. The unlocked reads, the destructor and requests above 512 bytes, which go to operator new, are left out. Stores are whole words.
- EPollPoller: poll, event dispatch and descriptors closed before their channel is removed are left out; live channels have different descriptors.
- ConsistentHash.removeNode is left out: it hashes other labels than addNode, so it does not undo it. The thread pool that uses the ring as a load balancer mostly falls back to the base loop, and no balance property holds of it.
- Sockets, acceptor, address, thread, file and log-front-end classes, which wrap system calls, and time formatting, which wraps the C library, are left out.
