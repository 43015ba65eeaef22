# Event dispatcher, cache and web server: verification model

A Dafny model of four parts of the libeventdisp repository and proofs about them.

1. **Task dispatcher.** `EventDispatcher` is the protocol of one queue, one step per lock acquisition, lock
   release and unlocked flag read (sequentially consistent memory): any number of enqueuers, stop and resume
   callers, the loop thread, the destructor. `DispatcherObject` is the C++ object with its fields; each piece of
   its code between two yield points is proved to take the protocol step of the same name. `GroupRouting` puts n
   of these dispatchers behind the two routings of `MPEventDispatcher`. `Lanes` is what remains once locks and
   flags are abstracted away, with a proof that every protocol step of an object that is not being destroyed is
   a lane step or none, and `LaneRuns` carries that to whole schedules of all n dispatchers; `DelayedInc`,
   `WordCount` and `Convolution` build on that grain. `Semaphores` is the semaphore with a negative start.
2. **Barrier programs.** `WordCount` (map, reduce, checkpoint, a semaphore started at 1 - S*S) and `Convolution`
   (disjoint row bands), each with its sequential reference and the theorem that, whatever the interleaving, the
   parallel result equals it. Both also state exactly when the program's own comparison succeeds.
3. **Cache.** `FastFifo` is the linked free list with real heap nodes. `CacheModel` says what each operation of the
   cache does to its value; `Cache` is the object, with real free-list nodes, proved to compute exactly that;
   `CacheRuns` proves what follows for every sequence of operations by clients that keep to the rules
   (`Allowed`: nobody reserves an occupied slot, `doneWith` is called by a holder and not for a reservation, a
   buffer is offered once unless refused, callbacks do not call back into the cache).
4. **HTTP pipeline.** `RequestParser` is the pointer walk over the received text and the chain of packages it
   builds; `Pipeline` one connection's packages being served and deleted one by one; `BodyStream` any number of
   requests streaming file bodies piece by piece through the shared cache, under the keys of `ContentKeys`.
   `Service` runs the two together: what arrives on one connection is the files it asked for, in its order.
   `Chains` shows that the numbered packages of `Pipeline` picture the linked objects of `RequestParser`.

`Wrappers`, `Sequences` and `Arithmetic` hold shared helpers. `dafny verify dfyconfig.toml` checks the project.

State machines are written as `Enabled`, `Apply` and `Run`; where the C++ code could go wrong (popping an empty
queue, a wrapped count, a broken assertion, a freed buffer), the step also has a `Faults` or `Sound` predicate
and a `NoFault` lemma shows that no reachable step fails it. `Run` takes an arbitrary schedule, so a theorem
about `Run` is one about every interleaving.

## Where the code and its documentation differ

- `reserve` (webserver/cache.cc:149-152) takes an occupied slot that is not reserved, although
  webserver/cache.h:175-176 says it fails: `CacheRuns.ReserveFailsOnOccupied` states exactly when the documented
  answer is given, `CacheRuns.OccupiedReserveLosesBuffer` an input on which a held buffer is lost.
- An entry whose reservation was cancelled stays, and `get` answers it with NULL and isCached true, although
  webserver/cache.h:160-161 says isCached means data was acquired: `CacheRuns.CachedMeansData` (exactly when),
  `CacheRuns.CancelledEntryAnswersNull` (the input).
- Filling a reservation does not add to `currentSize_` (webserver/cache.cc:79-95), so a client that, like the web
  server, only ever fills reservations never evicts: `CacheRuns.OnlyFillsNeverEvicts`.
  `CacheRuns.ExactSizeIff` states exactly when `currentSize_` is right all the same.
- `enqueueTask` returns true even for a task it refuses and deletes
  (lib/event_dispatcher.cc:58-63), although lib/inc/event_dispatcher_interface.h:30 says true means success:
  `EventDispatcher.ResultMeansAcceptedIff` states exactly when the result is right,
  `EventDispatcher.RefusedYetTrue` a schedule on which it is not.
- The word-count test counts all words sequentially but only whole splits in parallel, so it succeeds exactly when
  the split count divides the word count: `WordCount.TestPassesIff`.
- The convolution writes its output shifted by the margins, so the comparison reads cells that nobody wrote
  and misses the last rows: `Convolution.TestPassesIff`; the bands reach the last rows only if the partition
  count divides the height: `Convolution.SameRowsIff`.
- The parser looks at the rest of a request line again, so a version (or header) that starts with `GET ` is taken
  for another request: `RequestParser.ParseUndoesPrint` says exactly when parsing undoes printing.
- Keys are cut to MAXKEYS - 1 characters. `ContentKeys.OwnKeysIff` states exactly when all that is stored for a uri
  has a key of its own, `ContentKeys.LongUrisMixPieces` inputs on which two pieces of one file share a key.
- A uri may contain '#'. `ContentKeys.KeysApart` states exactly when an uncut header key is a body key: when its uri
  is another uri, '#' and an offset. Body keys are told apart even then.

## Model

| member | source | states |
|---|---|---|
| EventDispatcher.NoFault | lib/event_dispatcher.cc:124-146 | front() and pop() never meet an empty queue and no task count is lowered below zero, in any reachable state |
| EventDispatcher.InvariantStep | lib/event_dispatcher.cc:26-152 | every step of every thread keeps the locking, queueing, executing, accounting, shutdown and counting invariants |
| EventDispatcher.RunInvariant | lib/event_dispatcher.cc:26-152 | those invariants hold after every schedule |
| EventDispatcher.RunsInOrder | lib/event_dispatcher.cc:37-64 | in every schedule the tasks started are a prefix of those accepted, in acceptance order; a task is accepted or refused at most once, deleted at most once, and never while queued |
| EventDispatcher.AtMostOneLate | lib/event_dispatcher.cc:26-64 | after isDying_ is set at most one more task is ever accepted, and the flag stays set |
| EventDispatcher.ReturnedForGood | lib/event_dispatcher.cc:120-122 | once the loop thread has returned, the queue stays empty, nothing more is accepted or started, and every accepted task has been deleted exactly once (a refused one too, unless its deletion is the enqueuer's next step) |
| EventDispatcher.ResultMeansAcceptedIff | lib/event_dispatcher.cc:45-63 | in every reachable state and whatever happens during a call, its result says truly whether a task was accepted if and only if it was given one and its unlocked test read isStopped_ as false |
| EventDispatcher.RefusedYetTrue | lib/event_dispatcher.cc:58-63 | a schedule on which a refused and deleted task's call returns true |
| EventDispatcher.DyingLoopEnds | lib/event_dispatcher.cc:106-152 | after isDying_ is set every step of the loop thread strictly lowers a bound on its remaining steps and no other thread raises it, so the join in the destructor ends |
| EventDispatcher.LoopNotStuck | lib/event_dispatcher.cc:106-152 | the loop thread always has a step to take unless an enqueuer holds the queue lock |
| EventDispatcher.LoopNearsStart | lib/event_dispatcher.cc:106-133 | while the object lives and an accepted task has not been started, each step of the loop thread starts the next one or lowers a bound on its steps until then |
| EventDispatcher.StartsWithinTen | lib/event_dispatcher.cc:106-133 | in every reachable state with a task to run, ten steps of the loop thread, whatever the other threads do meanwhile, start the next accepted task |
| EventDispatcher.FrontIsRun | lib/event_dispatcher.cc:106-133 | from the top of the loop with the lock free the four steps lock, test, choose, decide run the front of the queue |
| EventDispatcher.NothingStartsDying | lib/event_dispatcher.cc:129-133 | once isDying_ is set no task is started any more |
| EventDispatcher.ResumeIff | lib/event_dispatcher.cc:71-76 | after resume the object is stopped if and only if it is dying |
| EventDispatcher.AcceptedAfterResume | lib/event_dispatcher.cc:37-76 | a task offered after stop and resume to an object that nobody destroys is accepted and queued last |
| EventDispatcher.CountingStep | lib/event_dispatcher.cc:45-53 | per group the count agrees with the queued tasks, off by the one task whose count is about to be changed |
| EventDispatcher.PendingTasksNearlyExact | lib/event_dispatcher.cc:155-165 | the total of the counts is never more than one off the queue length, and while the queue lock is free each group's count is exactly its queued tasks |
| DispatcherObject.EventDispatcher.constructor | lib/event_dispatcher.cc:21-24 | a new object represents the initial protocol state |
| DispatcherObject.EventDispatcher.EnqueueTest | lib/event_dispatcher.cc:45-45 | the unlocked test decides admission as the protocol step does |
| DispatcherObject.EventDispatcher.EnqueuePush | lib/event_dispatcher.cc:46-46 | pushing takes the protocol step and keeps the object's invariant |
| DispatcherObject.EventDispatcher.EnqueueCount | lib/event_dispatcher.cc:48-53 | raising the count takes the protocol step |
| DispatcherObject.EventDispatcher.EnqueueLeave | lib/event_dispatcher.cc:63-64 | the return gives up the queue lock and answers true |
| DispatcherObject.EventDispatcher.Stop | lib/event_dispatcher.cc:66-69 | stop takes the protocol step |
| DispatcherObject.EventDispatcher.Resume | lib/event_dispatcher.cc:71-76 | resume takes the protocol step; it changes nothing once the object is dying |
| DispatcherObject.EventDispatcher.DtorStop | lib/event_dispatcher.cc:28-29 | the destructor's first write takes the protocol step |
| DispatcherObject.EventDispatcher.DtorDie | lib/event_dispatcher.cc:30-31 | the destructor's second write takes the protocol step |
| DispatcherObject.EventDispatcher.LoopTest | lib/event_dispatcher.cc:114-118 | the wait condition decides as the protocol step does |
| DispatcherObject.EventDispatcher.LoopChoose | lib/event_dispatcher.cc:120-125 | the loop either returns, with the queue empty, or takes the queue's front without removing it |
| DispatcherObject.EventDispatcher.LoopDecide | lib/event_dispatcher.cc:129-133 | the unlocked read of isDying_ decides whether the task is run |
| DispatcherObject.EventDispatcher.LoopPop | lib/event_dispatcher.cc:140-141 | the task just run is the one removed |
| DispatcherObject.EventDispatcher.LoopUncount | lib/event_dispatcher.cc:144-146 | lowering the count takes the protocol step |
| DispatcherObject.EventDispatcher.Busy | lib/event_dispatcher.cc:78-81 | busy answers whether the queue is non-empty, changing nothing |
| DispatcherObject.PendingTasks | lib/event_dispatcher.cc:155-165 | the loop over the count map returns the total that PendingTasksNearlyExact speaks of |
| DispatcherObject.AnyBusy | lib/mp_event_dispatcher.cc:67-76 | with nothing running in between, the loop over the dispatchers answers true exactly if some accepted task is not finished |
| GroupRouting.RouteAssigns | lib/mp_event_dispatcher.cc:33-54 | for both routings: a group keeps its dispatcher for ever, and routing one group changes no other's |
| GroupRouting.DealtStep | lib/mp_event_dispatcher.cc:36-53 | the token stays the number of known ids modulo n, and the j-th new id (from 0) is sent to dispatcher j mod n |
| GroupRouting.Balanced | lib/mp_event_dispatcher.cc:36-53 | in a table dealt round robin, any two dispatchers' numbers of ids differ by at most one |
| GroupRouting.RunBalanced | lib/mp_event_dispatcher.cc:36-53 | after every schedule of the round-robin build the table holds exactly the ids that came, the j-th on dispatcher j mod n, and any two dispatchers' numbers of ids differ by at most one |
| GroupRouting.MPEventDispatcher.constructor | lib/mp_event_dispatcher.cc:15-23 | no id is known and the token is 0 |
| GroupRouting.MPEventDispatcher.Destination | lib/mp_event_dispatcher.cc:36-53 | the table and token code routes as specified, in range, and keeps the ids dealt in order |
| GroupRouting.PinnedStep | lib/mp_event_dispatcher.cc:30-59 | every step of any of the n dispatchers keeps each accepted task on the dispatcher its group is assigned to |
| GroupRouting.AcceptedWhere | lib/mp_event_dispatcher.cc:33-54 | after every schedule each accepted task is on dispatcher hash(group) mod n, or on the one the table names for its group |
| GroupRouting.CallGetsThrough | lib/mp_event_dispatcher.cc:30-59 | a new task offered is accepted last by that dispatcher (the token's for a new group) if it is not stopped and its queue is free |
| GroupRouting.GroupsInOrder | lib/mp_event_dispatcher.cc:30-59 | across all dispatchers, a group's tasks start in the order of their acceptance, none skipped |
| GroupRouting.GroupsExclusive | lib/mp_event_dispatcher.cc:30-59 | two tasks of one group never run at the same time |
| GroupRouting.GroupGuarantee | lib/mp_event_dispatcher.cc:30-59 | both hold after every schedule, for the round-robin table and any hash routing |
| Lanes.DispatcherIsLane | lib/event_dispatcher.cc:37-152 | every protocol step of an object not being destroyed is a push, start, finish or pop of one lane, or leaves it unchanged |
| LaneRuns.StepIsLaneStep | lib/mp_event_dispatcher.cc:30-59 | each step of any of the n dispatchers is an enabled step of one lane, or none |
| LaneRuns.DispatchersAreLanes | lib/mp_event_dispatcher.cc:30-59 | every schedule of the n dispatchers without a destructor is a schedule of n lanes that start empty, and a task is only ever on the lane its group is assigned to |
| DelayedInc.BodyKeepsAccount | test/libtest/test_helper.cc:11-20 | one execution keeps, for every group, increments plus tasks still to come |
| DelayedInc.RoundsStep | test/libtest/test_helper.cc:11-20 | one execution takes exactly one off the sum of max(1, delay) over the tasks to come; no other step changes it |
| DelayedInc.PlacedStep | lib/mp_event_dispatcher.cc:67-76 | a queue found empty by the scan stays empty, since tasks re-enqueue only into their own group |
| DelayedInc.RunInvariant | test/libtest/test_helper.cc:11-20 | placement, quiet queues, conservation and the count of executions hold after every schedule |
| DelayedInc.NotBusyMeansDone | lib/mp_event_dispatcher.cc:67-76 | when the scan has found every queue empty, one after another, all tasks are finished: one increment per initial task, and max(1, delay) executions each |
| DelayedInc.SoleChain | test/libtest/test_helper.cc:11-20 | one task alone is executed delay times, once if the delay is not positive, and raises its counter by one |
| DelayedInc.NeverStuck | test/libtest/test_helper.cc:11-20 | while a task is queued its dispatcher can go on |
| WordCount.DealSplits | test/benchmark/word_count.cc:90-103 | the loop with its running start and end deals the consecutive splits of generateCount / S words |
| WordCount.MapTasks | test/benchmark/word_count.cc:27-42 | map enqueues one reduce per word of its split, in order, and then one checkpoint per group, in order |
| WordCount.InvariantStep | test/benchmark/word_count.cc:23-42 | every step of the map, reduce, checkpoint and main code keeps placement, order, effects and tallies |
| WordCount.UndisturbedStep | test/benchmark/word_count.cc:23-25 | a reduce between its read and its write has read what its cell still holds: no increment is lost |
| WordCount.TalliedStep | test/benchmark/word_count.cc:23-25 | each cell always holds the number of its words reduced so far modulo 2^32, and the semaphore counts checkpoints |
| WordCount.CheckAfterReduces | test/benchmark/word_count.cc:27-42 | a checkpoint runs only after every reduce its map has sent to that group |
| WordCount.AllReduced | test/benchmark/word_count.cc:88-106 | once all S*S checkpoints have run, exactly the words of whole splits have been reduced |
| WordCount.RunBarred | test/benchmark/word_count.cc:106-106 | in every schedule down() has returned only if all S*S checkpoints have run |
| WordCount.ParallelIsSequential | test/benchmark/word_count.cc:88-120 | for every S, split size, word array and interleaving: when down() may return and ever after, each cell is the sequential count over the first (generateCount / S) * S words |
| WordCount.ParallelCountsWords | test/benchmark/word_count.cc:27-106 | when down() may return and ever after, block w / splitSize holds at offset w % splitSize, modulo 2^32, how often each word w is among the first S * (generateCount / S) words, and nothing is counted outside the blocks |
| WordCount.NoReduceAfterReturn | test/benchmark/word_count.cc:133-137 | after down() returns no task that touches a cell is left, so the blocks may be deleted |
| WordCount.CountSequentially | test/benchmark/word_count.cc:109-120 | the reference loop computes the sequential count of every cell over all words, and so each word's count at block w / splitSize, offset w % splitSize |
| WordCount.CheckEqual | test/benchmark/word_count.cc:45-68 | the comparison loop succeeds exactly if all cells agree |
| WordCount.TestPassesIff | test/benchmark/word_count.cc:90-124 | the parallel and the reference count agree on every cell if and only if S divides the number of words |
| WordCount.NeverStuck | test/benchmark/word_count.cc:88-106 | until down() returns, some step is always possible |
| WordCount.SchedulesEnd | test/benchmark/word_count.cc:88-106 | every schedule is bounded by the work of the job, so down() is reached |
| Semaphores.Semaphore.constructor | lib/inc/lock.h:134-135 | the value starts as given, also below zero |
| Semaphores.Semaphore.Up | lib/inc/lock.h:139-146 | up raises the value and signals exactly when it is then positive |
| Semaphores.Semaphore.Pass | lib/inc/lock.h:151-159 | one test of down either takes one from a positive value or goes to sleep |
| Semaphores.RunCounts | lib/inc/lock.h:131-165 | in every schedule the value is start + ups - downs, no down returns before the ups cover a negative start, and no wake-up is lost |
| Semaphores.Barrier | lib/inc/lock.h:131-165 | started at 1 - n, down returns only after the n-th up, and a sole caller sleeps for good only if fewer have happened |
| Semaphores.SettledServesAll | lib/inc/lock.h:131-165 | with nobody about to test again, exactly min(calls, start + ups) downs have returned (none if that is negative) |
| Convolution.Matrix2D.constructor | test/benchmark/conv_helper.cc:13-16 | the array has four times the matrix's cells |
| Convolution.Matrix2D.Set | test/benchmark/conv_helper.h:34-36 | set writes the row-major cell and no other |
| Convolution.ApplyMask | test/benchmark/conv_helper.cc:35-46 | the nested loops compute the convolution sum, reading in bounds |
| Convolution.ConvolvedImpulse | test/benchmark/conv_helper.cc:35-46 | of an input that is c at (a, b) and 0 elsewhere the result at (x, y) is c times the mask cell in column a - (x - side/2) and row b - (y - side/2), or 0 if the mask does not lie on (a, b) |
| Convolution.ConvolvedAdds | test/benchmark/conv_helper.cc:35-46 | the result is additive in the input, which with ConvolvedImpulse leaves no choice of it |
| Convolution.PartialConv | test/benchmark/conv_helper.cc:48-56 | exactly the region's cells are overwritten, each by its convolution |
| Convolution.PaintedMeans | test/benchmark/conv_helper.cc:48-56 | in coordinates: each (x, y) of the region holds its convolution and every other offset what it held |
| Convolution.Deal | test/benchmark/conv.cc:71-84 | the loop over the partitions deals consecutive bands of equal height from the top margin on |
| Convolution.BandsDisjoint | test/benchmark/conv.cc:71-84 | no two bands write the same cell |
| Convolution.BandReadsInside | test/benchmark/conv.cc:55-68 | with an odd mask and the padded input, applyMask reads inside the input wherever a band writes |
| Convolution.InsideAllocation | test/benchmark/conv_helper.cc:13-16 | every write of every band is inside the 4*W*H allocation if and only if m*W + m <= 3*W*H |
| Convolution.InvariantStep | test/benchmark/conv.cc:69-87 | under any interleaving of cell writes, every cell is the sequential value or still the old one, and the semaphore counts finished bands |
| Convolution.BandsAreSequential | test/benchmark/conv.cc:69-93 | when down() may return and ever after, the output is what the one sequential call makes of the same cells |
| Convolution.BandsConvolve | test/benchmark/conv.cc:69-87 | in coordinates: when down() may return each cell of the output region holds its convolution |
| Convolution.NeverStuck | test/benchmark/conv.cc:69-87 | until down() returns some step is possible |
| Convolution.SameRowsIff | test/benchmark/conv.cc:68-93 | the bands cover what the sequential call covers if and only if the partition count divides the height |
| Convolution.CheckEqual | test/benchmark/conv.cc:22-41 | the comparison succeeds exactly if the dimensions and all cells agree |
| Convolution.TestPassesIff | test/benchmark/conv.cc:89-98 | the compared outputs agree if and only if the compared cells before the first written one agreed beforehand |
| FastFifo.FastFifo.constructor | webserver/fast_fifo.h:85-87 | the list is empty and consists of its sentinel |
| FastFifo.FastFifo.Push | webserver/fast_fifo.h:95-113 | push appends one fresh node holding the data |
| FastFifo.FastFifo.Pop | webserver/fast_fifo.h:115-126 | pop takes the front, or nothing from an empty list |
| FastFifo.FastFifo.Bypass | webserver/fast_fifo.h:132-146 | the pointer updates link the other nodes in their order |
| FastFifo.FastFifo.RemoveNode | webserver/fast_fifo.h:128-148 | exactly the given node goes, wherever it is, and the others keep their order and links; the deleted node leaves the list's allocation, so it cannot be removed or used again |
| CacheModel.ReserveWellFormed | webserver/cache.cc:136-158 | reserve keeps entries, references and free list consistent if and only if the slot, when occupied, is referenced |
| CacheModel.UnreferenceWellFormed | webserver/cache.cc:185-194 | dropping a reference keeps them consistent if and only if the entry is not reserved or somebody else still holds it |
| CacheModel.GetWellFormed | webserver/cache.cc:103-134 | get keeps them consistent, taking an idle entry off the free list |
| CacheModel.EvictWellFormed | webserver/cache.cc:205-219 | evicting any prefix of the free list keeps them consistent |
| Cache.Cache.constructor | webserver/cache.cc:44-45 | a new cache is empty |
| Cache.Cache.Put | webserver/cache.cc:65-101 | new value, result, callbacks in order: as CacheModel.Put |
| Cache.Cache.Get | webserver/cache.cc:103-134 | as CacheModel.Get, with the free-list node unlinked |
| Cache.Cache.Reserve | webserver/cache.cc:136-158 | as CacheModel.Reserve |
| Cache.Cache.CancelReservation | webserver/cache.cc:160-183 | as CacheModel.CancelReservation, waiters told in order |
| Cache.Cache.DoneWith | webserver/cache.cc:185-203 | as CacheModel.DoneWith, whose evictions CacheRuns.DoneWithEvicts states |
| Cache.Cache.EvictLoop | webserver/cache.cc:205-216 | the loop evicts exactly the number of entries CacheModel.Victims gives, frees them in order and sums their sizes |
| Cache.Cache.Cleanup | webserver/cache.cc:205-219 | as CacheModel.Cleanup; the code's assertion holds at every turn |
| Cache.Cache.Destroy | webserver/cache.cc:47-63 | every entry's data is freed once and the final pop loop finds the free list empty |
| CacheRuns.StepInvariant | webserver/cache.cc:65-219 | every disciplined operation keeps: free list exactly the unreferenced entries, references equal to holders, buffers owned once, callbacks answered once, exact sizes |
| CacheRuns.RunInvariant | webserver/cache.cc:65-219 | all of that after every disciplined run |
| CacheRuns.HeldBufferStays | webserver/cache.h:156-158 | while fewer doneWith calls than holds are made for a buffer it stays in its entry and is not freed |
| CacheRuns.WaitersInOrder | webserver/cache.cc:79-97 | a reservation's waiters are queued, and so called, in the order of their gets |
| CacheRuns.ReservationEndsInOrder | webserver/cache.cc:83-91 | put ends a reservation by calling the callbacks that came since it was made, the i-th call being the i-th callback's with put's buffer, size and isCached true; cancelReservation the same ones with NULL, 0 and false |
| CacheRuns.GetAnswers | webserver/cache.cc:103-134 | get on a filled entry calls once, at once, with the entry's data; on an absent key it deletes the callback uncalled; on a reserved one it does neither yet |
| CacheRuns.ResultsAsDocumented | webserver/cache.h:140-187 | put, get and cancelReservation answer as documented, and a call that fails changes nothing |
| CacheRuns.PutStores | webserver/cache.cc:65-100 | an accepted put is what its key holds, and no other key changes |
| CacheRuns.GetAnswered | webserver/cache.cc:103-134 | a callback given to get is deleted exactly once or waits, once, on one live reservation |
| CacheRuns.ReservationEndsAnswered | webserver/cache.cc:83-91 | when a reservation ends each waiter is disposed of once and no other callback is |
| CacheRuns.PutSized | webserver/cache.cc:65-97 | put keeps currentSize_ equal, modulo the word size, to the sizes' sum less what fills left out |
| CacheRuns.CleanupSized | webserver/cache.cc:205-219 | so does cleanup |
| CacheRuns.DriftIsFilledBytes | webserver/cache.cc:79-95 | in every disciplined run what currentSize_ misses is the bytes given to puts that filled reservations |
| CacheRuns.ExactSizeIff | webserver/cache.cc:65-219 | after every disciplined run currentSize_ is the sum of the sizes if and only if those bytes are a multiple of the word size |
| CacheRuns.ExactSize | webserver/cache.cc:65-219 | after a run without reservation fills currentSize_ is exactly the sum |
| CacheRuns.VictimsLeast | webserver/cache.cc:205-216 | cleanup takes the shortest prefix of the free list that reaches the space, or all of it |
| CacheRuns.DoneWithEvicts | webserver/cache.cc:185-219 | doneWith evicts nothing within the quota, and beyond it exactly the shortest front of the idle list whose sizes reach the excess, or all of it; their buffers are freed in that order and all other entries stay |
| CacheRuns.DoneStepIs | webserver/cache.cc:185-203 | the step of a run at doneWith, built from CacheModel.DoneWith, drops one reference and then cleans up exactly beyond the quota |
| CacheRuns.DoneHolds | webserver/cache.cc:185-203 | doneWith takes back exactly the caller's one hold, and evictions none |
| CacheRuns.DoneWithMeetsQuota | webserver/cache.cc:200-202 | after a run without reservation fills a doneWith ends within quota or with nothing idle |
| CacheRuns.OnlyFillsNeverEvicts | webserver/cache.cc:79-95 | a run whose puts all fill reservations never counts a byte and never frees a buffer |
| CacheRuns.LifetimeFrees | webserver/cache.cc:36-63 | over a cache's whole life each accepted buffer is freed exactly once and no other buffer at all |
| CacheRuns.ReserveFailsOnOccupied | webserver/cache.h:175-176 | reserve answers as documented if and only if an occupied slot is already reserved |
| CacheRuns.OccupiedReserveLosesBuffer | webserver/cache.cc:149-152 | an input on which reserving an occupied slot lets put replace a held buffer |
| CacheRuns.CachedMeansData | webserver/cache.h:160-161 | get answers an unreserved entry with isCached true, and with NULL if and only if the entry's reservation was cancelled |
| CacheRuns.CancelledEntryAnswersNull | webserver/cache.cc:160-183 | an input on which isCached is true without data |
| RequestParser.Append | webserver/svr_http.cc:158-167 | linking keeps the chain of siblings and puts the new package last |
| RequestParser.Parse | webserver/svr_http.cc:114-184 | on every text the loop ends and the parent's children are new, distinct packages linked first to last, carrying the requests found in text order; the first is the one to fetch |
| RequestParser.Final | webserver/svr_http.cc:898-919 | taking the first package off leaves the chain of the rest; the next one is fetched, or the parent has no child left |
| RequestParser.ScanLine | webserver/svr_http.cc:121-173 | the walk over one line finds that line's requests and goes on behind its line end |
| RequestParser.ScanLines | webserver/svr_http.cc:121-173 | a text of whole lines gives its lines' requests in order although the scan drops the last byte |
| RequestParser.ParseUndoesPrint | webserver/svr_http.cc:114-173 | for every non-empty list of printable messages, parsing undoes printing if and only if no version or header line starts like a request |
| RequestParser.GoodLineGets | webserver/svr_http.cc:127-153 | a request line with a second space gives what lies between, less one leading slash if any, as uri, and the rest as version, which is looked at again |
| RequestParser.BadRequest | webserver/svr_http.cc:127-154 | a text of one GET line without a second space gives exactly one request, with neither uri nor version |
| RequestParser.OtherLineGets | webserver/svr_http.cc:170-172 | a line gives no request if and only if it does not start with "GET " |
| Pipeline.LinkAllChain | webserver/svr_http.cc:158-167 | the links made in one parse are a chain of the new packages in order, with the last as the parent's last child |
| Pipeline.ParseInvariant | webserver/svr_http.cc:175-184 | after a parse the live children are exactly the text's requests, in order, and the first is fetched, or the socket read again if there are none |
| Pipeline.FinalChain | webserver/svr_http.cc:898-919 | deleting the first package leaves the chain of the rest, which is fetched next, or the parent with lcg NULL |
| Pipeline.NoFault | webserver/svr_http.cc:872-922 | no handler touches a deleted package |
| Pipeline.RunInvariant | webserver/svr_http.cc:119-184 | every run of the connection is one of a server that serves the packages one after the other and reads again only with none left |
| Pipeline.NeverStuck | webserver/svr_http.cc:119-184 | something is always pending that can happen, be it only the arrival of a text |
| Pipeline.Conserved | webserver/svr_http.cc:549-697 | per package: made = deleted + queued, fetched = deleted (+1 for the one being served), writes issued = writes ended (+1 for the one under way) |
| Pipeline.WritesApart | webserver/svr_http.cc:601-697 | a write is issued only with no other write under way and every other fetched package deleted |
| Pipeline.ReadsApart | webserver/svr_http.cc:910-915 | the socket is read only when every package ever made has been fetched and deleted and all writes have ended |
| Pipeline.ServedOnce | webserver/svr_http.cc:898-919 | each package is fetched and deleted at most once, and exactly once by the time the chain is used up |
| Chains.ParseBoth | webserver/svr_http.cc:114-184 | parsing a text on the linked objects and on the numbered packages gives the same chain |
| Chains.FinalBoth | webserver/svr_http.cc:898-919 | so does taking the first package off |
| ContentKeys.DecimalValue | webserver/svr_http.cc:772-772 | the offset in a key is its decimal form, without leading zeros |
| ContentKeys.KeysApart | webserver/svr_http.cc:771-772 | uncut body keys are injective in uri and offset, uncut header keys in the uri, and a header key is a body key if and only if its uri is written as the other uri, '#' and the offset |
| ContentKeys.CutTenfold | webserver/svr_http.cc:771-772 | a piece whose key is cut shares it with the piece at a tenth of its offset |
| ContentKeys.OwnKeysIff | webserver/svr_http.cc:483-485 | a uri's header and pieces up to an offset all have different keys if and only if none is cut, or the only piece's key loses just its one digit |
| ContentKeys.LongUrisMixPieces | webserver/svr_http.cc:771-772 | inputs: offsets 1 and 10 under a uri of 253 characters, 65536 and 655360 under one of 250 |
| BodyStream.NoFault | webserver/svr_http.cc:601-792 | the server keeps to the cache's discipline, its assertions hold, and it never writes a freed buffer or one of the wrong kind |
| BodyStream.AskInvariant | webserver/svr_http.cc:765-792 | looking up, reserving and starting to read keep the invariant, whether the key is filled, reserved or absent |
| BodyStream.FillReqs | webserver/svr_http.cc:700-733 | a put makes exactly the requests that wait for the key write the new buffer |
| BodyStream.FillInvariant | webserver/svr_http.cc:700-733 | a put keeps the invariant: every filled entry `uri#o` is a slice of that file from o on |
| BodyStream.WroteInvariant | webserver/svr_http.cc:654-697 | the end of a write keeps the invariant: sent is the file up to tr_offset |
| BodyStream.EvictInvariant | webserver/cache.cc:205-219 | an eviction at any time keeps it |
| BodyStream.RunSound | webserver/svr_http.cc:601-792 | in every run, whatever can happen next is sound |
| BodyStream.StreamIsFile | webserver/svr_http.cc:601-697 | in every run a request's sent bytes are a prefix of its file, and a finished request ended with 200 and the whole file if there is one, with 404 and nothing if not |
| BodyStream.BodyHoldsAreWriters | webserver/svr_http.cc:654-697 | in every run each body buffer has exactly as many holders in the cache as requests are writing it: each piece's doneWith gives back the one hold that its get took |
| BodyStream.NeverStuck | webserver/svr_http.cc:601-792 | while a request is unfinished, something other than an eviction can happen |
| BodyStream.SchedulesEnd | webserver/svr_http.cc:654-697 | evictions apart, a schedule is bounded by what the requests have yet to do |
| Service.NoFault | webserver/svr_http.cc:601-922 | connection and server together never break an assumption of the code |
| Service.OwnInvariant | webserver/svr_http.cc:119-184 | steps of the connection alone keep its requests in turn |
| Service.EndWriteInvariant | webserver/svr_http.cc:654-697 | the end of a write keeps the bytes on the connection equal to what its requests have sent, in their order |
| Service.BodiesInOrder | webserver/svr_http.cc:601-922 | in every run, with any other connections beside it: once all that a connection asked for is served, the body bytes written on it are the files asked for, whole, in request order |
| Service.PipelinedFiles | webserver/svr_http.cc:114-922 | a client that sends printed messages in one text gets, in their order, the file of each message in HTTP/1.0 or HTTP/1.1 whose file exists, and nothing for the others |
| Service.EveryFileServed | webserver/svr_http.cc:114-922 | if all the messages are in those versions and name files that exist, the bytes are all their files, one after the other |
| Service.RefusedUntouched | webserver/svr_http.cc:583-593 | a request without uri or version, or in another version, is never put to the server and sends nothing |
| Service.NeverStuck | webserver/svr_http.cc:549-922 | while a package is left, something can happen that serves it or what it waits for |

## Left out

- The pthread wrappers, timed-wait clocks and thread creation: mutual exclusion and wake-up are atomic steps.
- aio_wrapper.cc and delayed_task.cc, sockets, accept, open, stat, close: an I/O is a step that delivers one callback; file contents and lengths are inputs.
- Cache entries are records in the map and free-list nodes name their keys, where the C++ list points into the map; the map is a finite map without its hash function, and cleanup's read of an entry after erasing it is not reproduced.
- Cache.Cache.DoneWith: requires, beyond the code's assertions, that a reserved entry has another holder; `CacheModel.UnreferenceWellFormed` shows that this is exactly what is needed.
- Cache.Cache.Reserve: requires that an occupied slot is referenced; `CacheModel.ReserveWellFormed` shows that this is exactly what is needed.
- Callbacks that call back into the cache, and the error and closing paths of the HTTP handlers, which do so.
- The widths of reference counts, task counts, queue lengths and the semaphore's int; only size_t sizes and the uint32_t count cells wrap in the model.
- Overflow in convolution sums: integers are unbounded there. The random input is arbitrary input.
- Code whose threads interleave inside it (the tasks of word_count.cc and conv.cc, delayedInc, the HTTP handlers) is a state machine on values; the object's update in place is kept where one thread owns it: the dispatcher between its yield points, the semaphore under its mutex, the free list, the cache, the parser and the sequential loops.
- WordCount, Convolution and DelayedInc run on lanes with a fixed assignment of groups; LaneRuns.DispatchersAreLanes is what justifies it.
- BodyStream.StreamIsFile: lets the parts of one handler be interleaved with other handlers, which allows more runs than the code, and puts no order on one connection's requests; that order is Pipeline's and Service's. Header bytes and 400 responses are not among the bytes counted.
- The text of response headers and dates, and that a header cached for one HTTP version is sent for another.
- Pipeline.RunInvariant: a response is any number of writes; end of file and connection errors, which close the connection, are not modelled.
- That the server eventually evicts: it never does on the success path.
- Debug output, timing fields and C string copies.
