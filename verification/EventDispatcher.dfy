/** The protocol of lib/event_dispatcher.cc, one step per lock acquisition, lock release and unlocked
    flag read, under sequentially consistent memory.  A critical section of taskCountMutex_ or of
    stoppedMutex_ that no unlocked read can look into is one step.

    Any number of threads may call enqueueTask; one at a time holds queueMutex_.  One thread runs
    eventLoop, one destroys the object, others call stop and resume. */
module EventDispatcher {
  import opened Wrappers
  import opened Sequences

  type GroupId = nat

  /** A UnitTask object, by identity. */
  datatype Task = Task(id: nat, group: GroupId)

  /** Where the thread inside enqueueTask is; it holds queueMutex_ all along. */
  datatype EnqueuePc =
    | Entered  // about to read isStopped_
    | Admitted // read it as false
    | Pushed   // the task is queued, its count is not yet raised
    | Refused  // read it as true: about to delete the task
    | Leaving

  datatype QueueLock =
    | Free
    | Enqueuer(task: Option<Task>, pc: EnqueuePc, byLoop: bool) // byLoop: called from a running task
    | Loop

  /** Where eventLoop is. */
  datatype LoopPc =
    | Top              // about to take queueMutex_
    | Testing          // holds it, about to evaluate the wait condition
    | Waiting          // in timedWait, queueMutex_ released
    | Choosing         // holds it, out of the wait loop
    | Deciding(t: Task) // released it, about to read isDying_
    | Running(t: Task)
    | Finished(t: Task) // about to take queueMutex_ again, having run or skipped t
    | Popping(t: Task)  // holds it
    | Popped(t: Task)   // t is off the queue, its count is not yet lowered
    | Releasing(t: Task) // count lowered, locks still held
    | Deleting(t: Task)
    | Returned

  /** Where the destructor is; it holds stoppedMutex_ in the middle two. */
  datatype DtorPc = NotCalled | SetStopped | SetDying | Joining

  datatype State = State(
    queue: seq<Task>, executing: bool, count: map<GroupId, nat>,
    stopped: bool, dying: bool,
    lock: QueueLock, loop: LoopPc, dtor: DtorPc,
    // what has happened
    offered: set<Task>,   // tasks passed to enqueueTask
    accepted: seq<Task>,  // tasks pushed, in order
    started: seq<Task>,   // tasks run, in order
    popped: seq<Task>,    // tasks taken off the queue, in order
    refused: seq<Task>,   // tasks found to come too late
    deleted: seq<Task>,   // every delete of a task
    acceptedAtDying: nat) // how many had been accepted when isDying_ was set

  const INITIAL := State([], false, map[], false, false, Free, Top, NotCalled, {}, [], [], [], [], [], 0)

  datatype Action =
    | EnqueueLock(task: Option<Task>, byLoop: bool)
    | EnqueueTest | EnqueuePush | EnqueueCount | EnqueueDelete | EnqueueUnlock
    | Stop | Resume
    | DtorStop | DtorDie | DtorUnlock
    | LoopLock | LoopTest | LoopWake | LoopChoose | LoopDecide | LoopFinish | LoopRelock | LoopPop | LoopUncount
    | LoopUnlock | LoopDelete

  function CountOf(count: map<GroupId, nat>, g: GroupId): nat {
    if g in count then count[g] else 0
  }

  predicate StoppedMutexFree(s: State) {
    s.dtor == NotCalled || s.dtor == Joining
  }

  predicate Enabled(s: State, a: Action) {
    match a
    case EnqueueLock(task, byLoop) =>
      // a task object is handed over once; a running task calls from the loop thread
      s.lock == Free && (task.Some? ==> task.value !in s.offered) && (byLoop ==> s.loop.Running?)
    case EnqueueTest => s.lock.Enqueuer? && s.lock.pc == Entered
    case EnqueuePush => s.lock.Enqueuer? && s.lock.pc == Admitted && s.lock.task.Some?
    case EnqueueCount => s.lock.Enqueuer? && s.lock.pc == Pushed && s.lock.task.Some?
    case EnqueueDelete => s.lock.Enqueuer? && s.lock.pc == Refused && s.lock.task.Some?
    case EnqueueUnlock => s.lock.Enqueuer? && s.lock.pc == Leaving
    case Stop => StoppedMutexFree(s)
    case Resume => StoppedMutexFree(s)
    case DtorStop => s.dtor == NotCalled
    case DtorDie => s.dtor == SetStopped
    case DtorUnlock => s.dtor == SetDying
    case LoopLock => s.loop == Top && s.lock == Free
    case LoopTest => s.loop == Testing
    case LoopWake => s.loop == Waiting && s.lock == Free // signalled or timed out
    case LoopChoose => s.loop == Choosing
    case LoopDecide => s.loop.Deciding?
    case LoopFinish => s.loop.Running? && !(s.lock.Enqueuer? && s.lock.byLoop)
    case LoopRelock => s.loop.Finished? && s.lock == Free
    case LoopPop => s.loop.Popping?
    case LoopUncount => s.loop.Popped?
    case LoopUnlock => s.loop.Releasing?
    case LoopDelete => s.loop.Deleting?
  }

  /** front or pop on an empty queue, or a count decremented below zero. */
  predicate Faults(s: State, a: Action) {
    match a
    case LoopChoose => s.queue == [] && !s.dying
    case LoopPop => s.queue == []
    case LoopUncount => s.loop.Popped? && CountOf(s.count, s.loop.t.group) == 0
    case _ => false
  }

  function Apply(s: State, a: Action): State
    requires Enabled(s, a) && !Faults(s, a)
  {
    match a
    case EnqueueLock(task, byLoop) =>
      s.(lock := Enqueuer(task, Entered, byLoop),
         offered := if task.Some? then s.offered + {task.value} else s.offered)
    case EnqueueTest =>
      if s.lock.task.None? then s.(lock := s.lock.(pc := Leaving))
      else if s.stopped then s.(lock := s.lock.(pc := Refused), refused := s.refused + [s.lock.task.value])
      else s.(lock := s.lock.(pc := Admitted))
    case EnqueuePush =>
      s.(queue := s.queue + [s.lock.task.value], accepted := s.accepted + [s.lock.task.value],
         lock := s.lock.(pc := Pushed))
    case EnqueueCount =>
      var g := s.lock.task.value.group;
      s.(count := s.count[g := CountOf(s.count, g) + 1], lock := s.lock.(pc := Leaving))
    case EnqueueDelete =>
      s.(deleted := s.deleted + [s.lock.task.value], lock := s.lock.(pc := Leaving))
    case EnqueueUnlock => s.(lock := Free)
    case Stop => s.(stopped := true)
    case Resume => if s.dying then s else s.(stopped := false)
    case DtorStop => s.(stopped := true, dtor := SetStopped)
    case DtorDie => s.(dying := true, dtor := SetDying, acceptedAtDying := |s.accepted|)
    case DtorUnlock => s.(dtor := Joining)
    case LoopLock => s.(lock := Loop, loop := Testing)
    case LoopTest =>
      if s.queue == [] && !s.dying then s.(lock := Free, loop := Waiting) else s.(loop := Choosing)
    case LoopWake => s.(lock := Loop, loop := Testing)
    case LoopChoose =>
      if s.dying && s.queue == [] then s.(lock := Free, loop := Returned)
      else s.(lock := Free, loop := Deciding(s.queue[0]), executing := true)
    case LoopDecide =>
      if s.dying then s.(loop := Finished(s.loop.t))
      else s.(loop := Running(s.loop.t), started := s.started + [s.loop.t])
    case LoopFinish => s.(loop := Finished(s.loop.t))
    case LoopRelock => s.(lock := Loop, loop := Popping(s.loop.t))
    case LoopPop =>
      s.(queue := s.queue[1..], popped := s.popped + [s.queue[0]], executing := false, loop := Popped(s.loop.t))
    case LoopUncount =>
      var g := s.loop.t.group;
      s.(count := s.count[g := CountOf(s.count, g) - 1], loop := Releasing(s.loop.t))
    case LoopUnlock => s.(lock := Free, loop := Deleting(s.loop.t))
    case LoopDelete => s.(deleted := s.deleted + [s.loop.t], loop := Top)
  }

  // ---- the invariant, in parts ----

  /** Who holds queueMutex_. */
  predicate Locking(s: State) {
    && (s.lock == Loop <==>
        s.loop == Testing || s.loop == Choosing || s.loop.Popping? || s.loop.Popped? || s.loop.Releasing?)
    && (s.lock.Enqueuer? ==>
        && (s.lock.byLoop ==> s.loop.Running?)
        && (s.lock.task.None? ==> s.lock.pc == Entered || s.lock.pc == Leaving))
  }

  /** The task fetched and not yet popped. */
  predicate AtFront(l: LoopPc) {
    l.Deciding? || l.Running? || l.Finished? || l.Popping?
  }

  /** The task popped and not yet deleted. */
  predicate OffQueue(l: LoopPc) {
    l.Popped? || l.Releasing? || l.Deleting?
  }

  /** Accepted tasks leave the queue in order, and the one being run stays at the front until it is done. */
  predicate Queueing(s: State) {
    && s.accepted == s.popped + s.queue
    && (AtFront(s.loop) ==> s.queue != [] && s.queue[0] == s.loop.t)
    && (OffQueue(s.loop) ==> s.popped != [] && s.popped[|s.popped| - 1] == s.loop.t)
    && (s.executing <==> AtFront(s.loop))
    && (s.loop == Choosing ==> s.queue != [] || s.dying)
  }

  /** Tasks are run in the order they were accepted, none left out while the object is not dying. */
  predicate Executing(s: State) {
    && s.started <= s.accepted
    && (!s.dying ==> s.started == s.popped + (if AtFront(s.loop) && !s.loop.Deciding? then [s.loop.t] else []))
  }

  /** t is inside enqueueTask, neither accepted nor refused yet. */
  predicate Undecided(s: State, t: Task) {
    s.lock.Enqueuer? && s.lock.task == Some(t) && (s.lock.pc == Entered || s.lock.pc == Admitted)
  }

  /** t is refused and about to be deleted by enqueueTask. */
  predicate RefusedHere(s: State, t: Task) {
    s.lock.Enqueuer? && s.lock.task == Some(t) && s.lock.pc == Refused
  }

  /** t is popped and about to be deleted by the loop. */
  predicate PoppedHere(s: State, t: Task) {
    OffQueue(s.loop) && s.loop.t == t
  }

  function One(b: bool): nat {
    if b then 1 else 0
  }

  predicate OfferedOnce(s: State, t: Task) {
    Times(s.accepted, t) + Times(s.refused, t) + One(Undecided(s, t)) == One(t in s.offered)
  }

  predicate DeletedOnce(s: State, t: Task) {
    Times(s.deleted, t) + One(RefusedHere(s, t)) + One(PoppedHere(s, t)) == Times(s.popped, t) + Times(s.refused, t)
  }

  /** Every task offered is accepted or refused, once; every popped or refused task is deleted, once. */
  ghost predicate Accounted(s: State) {
    forall t :: OfferedOnce(s, t) && DeletedOnce(s, t)
  }

  /** The flags only ever move towards the end; at most one task slips in after isDying_ is set. */
  predicate Shutting(s: State) {
    && (s.dying <==> s.dtor == SetDying || s.dtor == Joining)
    && (s.dtor != NotCalled ==> s.stopped)
    && (s.dying ==> s.acceptedAtDying <= |s.accepted| <= s.acceptedAtDying + 1)
    && (s.dying && s.lock.Enqueuer? && s.lock.pc == Admitted ==> |s.accepted| == s.acceptedAtDying)
    && (s.loop == Returned ==>
          s.dying && s.queue == [] && !(s.lock.Enqueuer? && (s.lock.pc == Admitted || s.lock.pc == Pushed)))
  }

  function Occurrences(q: seq<Task>, g: GroupId): nat {
    if q == [] then 0 else
      Occurrences(q[..|q| - 1], g) + if q[|q| - 1].group == g then 1 else 0
  }

  /** taskCount_ agrees with the queue, but for the one task whose count is being changed. */
  ghost predicate Counting(s: State) {
    forall g ::
      CountOf(s.count, g) + One(Uncounted(s, g)) == Occurrences(s.queue, g) + One(s.loop.Popped? && s.loop.t.group == g)
  }

  /** A task of the group has been pushed but not counted. */
  predicate Uncounted(s: State, g: GroupId) {
    s.lock.Enqueuer? && s.lock.pc == Pushed && s.lock.task.Some? && s.lock.task.value.group == g
  }

  ghost predicate Invariant(s: State) {
    Locking(s) && Queueing(s) && Executing(s) && Accounted(s) && Shutting(s) && Counting(s)
  }

  lemma InitialInvariant()
    ensures Invariant(INITIAL)
  {
  }

  /** front() and pop() never meet an empty queue and no count is lowered below zero. */
  lemma NoFault(s: State, a: Action)
    requires Invariant(s) && Enabled(s, a)
    ensures !Faults(s, a)
  {
  }

  // Each part is kept by the steps of enqueueTask, by those of eventLoop and by the rest.

  predicate LoopAction(a: Action) {
    a.LoopLock? || a.LoopTest? || a.LoopWake? || a.LoopChoose? || a.LoopDecide? || a.LoopFinish? ||
    a.LoopRelock? || a.LoopPop? || a.LoopUncount? || a.LoopUnlock? || a.LoopDelete?
  }

  predicate EnqueueAction(a: Action) {
    a.EnqueueLock? || a.EnqueueTest? || a.EnqueuePush? || a.EnqueueCount? || a.EnqueueDelete? || a.EnqueueUnlock?
  }

  predicate FlagAction(a: Action) {
    !LoopAction(a) && !EnqueueAction(a)
  }

  lemma LockingStep(s: State, a: Action)
    requires Locking(s) && Enabled(s, a) && !Faults(s, a)
    ensures Locking(Apply(s, a))
  {
  }

  lemma QueueingEnqueue(s: State, a: Action)
    requires Locking(s) && Queueing(s) && Shutting(s) && Enabled(s, a) && EnqueueAction(a)
    ensures Queueing(Apply(s, a))
  {
    if a.EnqueuePush? {
      Associative(s.popped, s.queue, [s.lock.task.value]);
    }
  }

  lemma QueueingPop(s: State)
    requires Queueing(s) && Enabled(s, LoopPop) && !Faults(s, LoopPop)
    ensures Queueing(Apply(s, LoopPop))
  {
    assert s.queue == [s.queue[0]] + s.queue[1..];
    Associative(s.popped, [s.queue[0]], s.queue[1..]);
  }

  lemma QueueingLoop(s: State, a: Action)
    requires Locking(s) && Queueing(s) && Enabled(s, a) && !Faults(s, a) && LoopAction(a)
    ensures Queueing(Apply(s, a))
  {
    if a.LoopPop? {
      QueueingPop(s);
    }
  }

  lemma QueueingFlags(s: State, a: Action)
    requires Queueing(s) && Enabled(s, a) && FlagAction(a)
    ensures Queueing(Apply(s, a))
  {
  }

  lemma QueueingStep(s: State, a: Action)
    requires Locking(s) && Queueing(s) && Shutting(s) && Enabled(s, a) && !Faults(s, a)
    ensures Queueing(Apply(s, a))
  {
    if EnqueueAction(a) {
      QueueingEnqueue(s, a);
    } else if LoopAction(a) {
      QueueingLoop(s, a);
    } else {
      QueueingFlags(s, a);
    }
  }

  lemma ExecutingEnqueue(s: State, a: Action)
    requires Locking(s) && Executing(s) && Enabled(s, a) && EnqueueAction(a)
    ensures Executing(Apply(s, a))
  {
  }

  lemma ExecutingLoop(s: State, a: Action)
    requires Queueing(s) && Executing(s) && Enabled(s, a) && !Faults(s, a) && LoopAction(a)
    ensures Executing(Apply(s, a))
  {
    match a
    case LoopDecide =>
      assert s.queue == [s.queue[0]] + s.queue[1..];
      Associative(s.popped, [s.queue[0]], s.queue[1..]);
      assert s.popped + [] == s.popped;
    case LoopPop => assert s.popped + [s.queue[0]] + [] == s.popped + [s.queue[0]];
    case _ =>
  }

  lemma ExecutingFlags(s: State, a: Action)
    requires Executing(s) && Enabled(s, a) && FlagAction(a)
    ensures Executing(Apply(s, a))
  {
  }

  lemma ExecutingStep(s: State, a: Action)
    requires Locking(s) && Queueing(s) && Executing(s) && Enabled(s, a) && !Faults(s, a)
    ensures Executing(Apply(s, a))
  {
    if EnqueueAction(a) {
      ExecutingEnqueue(s, a);
    } else if LoopAction(a) {
      ExecutingLoop(s, a);
    } else {
      ExecutingFlags(s, a);
    }
  }

  lemma OfferedTest(s: State, t: Task)
    requires OfferedOnce(s, t) && Enabled(s, EnqueueTest)
    ensures OfferedOnce(Apply(s, EnqueueTest), t)
  {
    if s.lock.task.Some? {
      TimesAppend(s.refused, s.lock.task.value, t);
    }
  }

  lemma OfferedPush(s: State, t: Task)
    requires OfferedOnce(s, t) && Enabled(s, EnqueuePush)
    ensures OfferedOnce(Apply(s, EnqueuePush), t)
  {
    TimesAppend(s.accepted, s.lock.task.value, t);
  }

  lemma OfferedEnqueue(s: State, a: Action, t: Task)
    requires Locking(s) && OfferedOnce(s, t) && Enabled(s, a) && EnqueueAction(a)
    ensures OfferedOnce(Apply(s, a), t)
  {
    if a.EnqueueTest? {
      OfferedTest(s, t);
    } else if a.EnqueuePush? {
      OfferedPush(s, t);
    }
  }

  /** The loop accepts and refuses no task, and does not disturb an enqueuer. */
  lemma LoopFrame(s: State, a: Action)
    requires Locking(s) && Enabled(s, a) && !Faults(s, a) && LoopAction(a)
    ensures var v := Apply(s, a);
      && v.accepted == s.accepted && v.refused == s.refused && v.offered == s.offered
      && (s.lock.Enqueuer? || v.lock.Enqueuer? ==> v.lock == s.lock)
  {
  }

  lemma OfferedStep(s: State, a: Action, t: Task)
    requires Locking(s) && OfferedOnce(s, t) && Enabled(s, a) && !Faults(s, a)
    ensures OfferedOnce(Apply(s, a), t)
  {
    if EnqueueAction(a) {
      OfferedEnqueue(s, a, t);
    } else if LoopAction(a) {
      LoopFrame(s, a);
    } else {
      FlagsFrame(s, a);
    }
  }

  /** The flags' steps leave the queue and its history alone. */
  lemma FlagsFrame(s: State, a: Action)
    requires Enabled(s, a) && FlagAction(a)
    ensures var v := Apply(s, a);
      && v.queue == s.queue && v.count == s.count && v.lock == s.lock && v.loop == s.loop && v.offered == s.offered
      && v.accepted == s.accepted && v.popped == s.popped && v.refused == s.refused && v.deleted == s.deleted
  {
  }

  lemma DeletedByTest(s: State, t: Task)
    requires DeletedOnce(s, t) && Enabled(s, EnqueueTest)
    ensures DeletedOnce(Apply(s, EnqueueTest), t)
  {
    if s.lock.task.Some? {
      TimesAppend(s.refused, s.lock.task.value, t);
    }
  }

  lemma DeletedEnqueue(s: State, a: Action, t: Task)
    requires Locking(s) && DeletedOnce(s, t) && Enabled(s, a) && EnqueueAction(a)
    ensures DeletedOnce(Apply(s, a), t)
  {
    if a.EnqueueTest? {
      DeletedByTest(s, t);
    } else if a.EnqueueDelete? {
      TimesAppend(s.deleted, s.lock.task.value, t);
    }
  }

  lemma DeletedByDelete(s: State, t: Task)
    requires DeletedOnce(s, t) && Enabled(s, LoopDelete)
    ensures DeletedOnce(Apply(s, LoopDelete), t)
  {
    TimesAppend(s.deleted, s.loop.t, t);
  }

  lemma DeletedByPop(s: State, t: Task)
    requires Queueing(s) && DeletedOnce(s, t) && Enabled(s, LoopPop) && !Faults(s, LoopPop)
    ensures DeletedOnce(Apply(s, LoopPop), t)
  {
    TimesAppend(s.popped, s.loop.t, t);
  }

  /** The loop's other steps pop and delete no task. */
  lemma LoopKeepsTasks(s: State, a: Action)
    requires Enabled(s, a) && !Faults(s, a) && LoopAction(a) && !a.LoopDelete? && !a.LoopPop?
    ensures var v := Apply(s, a);
      && v.deleted == s.deleted && v.popped == s.popped
      && OffQueue(v.loop) == OffQueue(s.loop) && (OffQueue(s.loop) ==> v.loop.t == s.loop.t)
  {
  }

  lemma DeletedLoop(s: State, a: Action, t: Task)
    requires Locking(s) && Queueing(s) && DeletedOnce(s, t) && Enabled(s, a) && !Faults(s, a) && LoopAction(a)
    ensures DeletedOnce(Apply(s, a), t)
  {
    if a.LoopDelete? {
      DeletedByDelete(s, t);
    } else if a.LoopPop? {
      DeletedByPop(s, t);
    } else {
      LoopFrame(s, a);
      LoopKeepsTasks(s, a);
    }
  }

  lemma DeletedStep(s: State, a: Action, t: Task)
    requires Locking(s) && Queueing(s) && DeletedOnce(s, t) && Enabled(s, a) && !Faults(s, a)
    ensures DeletedOnce(Apply(s, a), t)
  {
    if EnqueueAction(a) {
      DeletedEnqueue(s, a, t);
    } else if LoopAction(a) {
      DeletedLoop(s, a, t);
    } else {
      FlagsFrame(s, a);
    }
  }

  lemma AccountedStep(s: State, a: Action)
    requires Locking(s) && Queueing(s) && Accounted(s) && Enabled(s, a) && !Faults(s, a)
    ensures Accounted(Apply(s, a))
  {
    forall t
      ensures OfferedOnce(Apply(s, a), t) && DeletedOnce(Apply(s, a), t)
    {
      assert OfferedOnce(s, t) && DeletedOnce(s, t);
      OfferedStep(s, a, t);
      DeletedStep(s, a, t);
    }
  }

  lemma ShuttingEnqueue(s: State, a: Action)
    requires Locking(s) && Shutting(s) && Enabled(s, a) && EnqueueAction(a)
    ensures Shutting(Apply(s, a))
  {
  }

  lemma ShuttingLoop(s: State, a: Action)
    requires Locking(s) && Queueing(s) && Shutting(s) && Enabled(s, a) && !Faults(s, a) && LoopAction(a)
    ensures Shutting(Apply(s, a))
  {
  }

  lemma ShuttingFlags(s: State, a: Action)
    requires Shutting(s) && Enabled(s, a) && FlagAction(a)
    ensures Shutting(Apply(s, a))
  {
  }

  lemma ShuttingStep(s: State, a: Action)
    requires Locking(s) && Queueing(s) && Shutting(s) && Enabled(s, a) && !Faults(s, a)
    ensures Shutting(Apply(s, a))
  {
    if EnqueueAction(a) {
      ShuttingEnqueue(s, a);
    } else if LoopAction(a) {
      ShuttingLoop(s, a);
    } else {
      ShuttingFlags(s, a);
    }
  }

  lemma {:induction false} OccurrencesFront(q: seq<Task>, g: GroupId)
    requires q != []
    ensures Occurrences(q, g) == Occurrences(q[1..], g) + if q[0].group == g then 1 else 0
  {
    if |q| > 1 {
      var init := q[..|q| - 1];
      OccurrencesFront(init, g);
      assert q[1..][..|q| - 2] == init[1..];
    }
  }

  lemma CountingEnqueue(s: State, a: Action)
    requires Locking(s) && Counting(s) && Enabled(s, a) && EnqueueAction(a)
    ensures Counting(Apply(s, a))
  {
    if a.EnqueuePush? {
      assert Apply(s, a).queue[..|s.queue|] == s.queue;
    }
  }

  lemma CountingPop(s: State)
    requires Queueing(s) && Counting(s) && Enabled(s, LoopPop) && !Faults(s, LoopPop)
    ensures Counting(Apply(s, LoopPop))
  {
    forall g { OccurrencesFront(s.queue, g); }
  }

  lemma CountingLoop(s: State, a: Action)
    requires Locking(s) && Queueing(s) && Counting(s) && Enabled(s, a) && !Faults(s, a) && LoopAction(a)
    ensures Counting(Apply(s, a))
  {
    if a.LoopPop? {
      CountingPop(s);
    }
  }

  lemma CountingStep(s: State, a: Action)
    requires Locking(s) && Queueing(s) && Counting(s) && Enabled(s, a) && !Faults(s, a)
    ensures Counting(Apply(s, a))
  {
    if EnqueueAction(a) {
      CountingEnqueue(s, a);
    } else if LoopAction(a) {
      CountingLoop(s, a);
    } else {
      FlagsFrame(s, a);
    }
  }

  lemma InvariantStep(s: State, a: Action)
    requires Invariant(s) && Enabled(s, a)
    ensures !Faults(s, a) && Invariant(Apply(s, a))
  {
    NoFault(s, a);
    LockingStep(s, a);
    QueueingStep(s, a);
    ExecutingStep(s, a);
    AccountedStep(s, a);
    ShuttingStep(s, a);
    CountingStep(s, a);
  }

  // ---- every interleaving ----

  /** The state after a schedule; None if it names a step that cannot be taken then, or that faults. */
  function Run(s: State, schedule: seq<Action>): Option<State> {
    if schedule == [] then Some(s) else
      var last := |schedule| - 1;
      var before := Run(s, schedule[..last]);
      if before.Some? && Enabled(before.value, schedule[last]) && !Faults(before.value, schedule[last])
      then Some(Apply(before.value, schedule[last]))
      else None
  }

  lemma {:induction false} RunInvariant(s: State, schedule: seq<Action>)
    requires Invariant(s) && Run(s, schedule).Some?
    ensures Invariant(Run(s, schedule).value)
  {
    if schedule != [] {
      var last := |schedule| - 1;
      RunInvariant(s, schedule[..last]);
      InvariantStep(Run(s, schedule[..last]).value, schedule[last]);
    }
  }

  /** Tasks are executed in the order of their acceptance, none skipped, and no task is deleted twice or
      deleted while it is queued. */
  lemma RunsInOrder(schedule: seq<Action>, t: Task)
    requires Run(INITIAL, schedule).Some?
    ensures var s := Run(INITIAL, schedule).value;
      && s.started <= s.accepted
      && Times(s.accepted, t) + Times(s.refused, t) <= 1
      && Times(s.deleted, t) <= Times(s.accepted, t) + Times(s.refused, t)
      && (t in s.queue ==> Times(s.deleted, t) == 0)
  {
    InitialInvariant();
    RunInvariant(INITIAL, schedule);
    var s := Run(INITIAL, schedule).value;
    assert OfferedOnce(s, t) && DeletedOnce(s, t);
    assert multiset(s.accepted) == multiset(s.popped) + multiset(s.queue);
  }

  /** However enqueuers race with the destructor, at most one task is accepted after isDying_ is set. */
  lemma {:induction false} AtMostOneLate(s: State, schedule: seq<Action>)
    requires Invariant(s) && s.dying && Run(s, schedule).Some?
    ensures var v := Run(s, schedule).value;
      && v.dying && v.acceptedAtDying == s.acceptedAtDying
      && s.accepted <= v.accepted && |v.accepted| <= s.acceptedAtDying + 1
      && s.started <= v.started
  {
    if schedule != [] {
      var last := |schedule| - 1;
      AtMostOneLate(s, schedule[..last]);
      RunInvariant(s, schedule[..last]);
      InvariantStep(Run(s, schedule[..last]).value, schedule[last]);
    }
  }

  /** Once the loop thread has returned, the queue stays empty and nothing more is accepted, every accepted
      task has been deleted exactly once, and a refused one is deleted too unless enqueueTask is about to. */
  lemma {:induction false} ReturnedForGood(s: State, schedule: seq<Action>, t: Task)
    requires Invariant(s) && s.loop == Returned && Run(s, schedule).Some?
    ensures var v := Run(s, schedule).value;
      && v.loop == Returned && v.queue == [] && v.accepted == s.accepted && v.started == s.started
      && Times(v.deleted, t) + One(RefusedHere(v, t)) == Times(v.accepted, t) + Times(v.refused, t)
  {
    if schedule != [] {
      var last := |schedule| - 1;
      ReturnedForGood(s, schedule[..last], t);
      RunInvariant(s, schedule[..last]);
      InvariantStep(Run(s, schedule[..last]).value, schedule[last]);
    }
    RunInvariant(s, schedule);
    var v := Run(s, schedule).value;
    assert DeletedOnce(v, t);
    assert v.popped + [] == v.popped;
  }

  // ---- what enqueueTask returns ----

  /** What every call of enqueueTask returns at EnqueueUnlock. */
  const ENQUEUE_RESULT := true

  /** A call whose test was made in state s, and which has not left yet, is in state v. */
  ghost predicate InCall(s: State, v: State) {
    && s.lock.Enqueuer? && v.lock.Enqueuer? && v.lock.task == s.lock.task
    && match s.lock.task
       case None => v.lock.pc == Leaving && v.accepted == s.accepted
       case Some(t) =>
         if s.stopped then (v.lock.pc == Refused || v.lock.pc == Leaving) && v.accepted == s.accepted
         else if v.lock.pc == Admitted then v.accepted == s.accepted
         else (v.lock.pc == Pushed || v.lock.pc == Leaving) && v.accepted == s.accepted + [t]
  }

  lemma InCallStep(s: State, v: State, a: Action)
    requires InCall(s, v) && Locking(v) && Enabled(v, a) && !Faults(v, a) && a != EnqueueUnlock
    ensures InCall(s, Apply(v, a))
  {
  }

  lemma {:induction false} CallRuns(s: State, schedule: seq<Action>)
    requires Invariant(s) && Enabled(s, EnqueueTest)
    requires Run(Apply(s, EnqueueTest), schedule).Some? && EnqueueUnlock !in schedule
    ensures var v := Run(Apply(s, EnqueueTest), schedule).value; Invariant(v) && InCall(s, v)
  {
    var first := Apply(s, EnqueueTest);
    if schedule == [] {
      InvariantStep(s, EnqueueTest);
    } else {
      var last := |schedule| - 1;
      CallRuns(s, schedule[..last]);
      var u := Run(first, schedule[..last]).value;
      InCallStep(s, u, schedule[last]);
      InvariantStep(u, schedule[last]);
    }
  }

  lemma UndecidedIsNew(s: State, t: Task)
    requires Invariant(s) && Undecided(s, t)
    ensures t !in s.accepted
  {
    assert OfferedOnce(s, t);
    assert Times(s.accepted, t) == 0;
  }

  /** In every reachable state, and whatever happens until the call leaves: its result says truly whether it
      accepted a task exactly if it was given one and its unlocked test read isStopped_ as false. */
  lemma ResultMeansAcceptedIff(before: seq<Action>, schedule: seq<Action>)
    requires Run(INITIAL, before).Some? && Enabled(Run(INITIAL, before).value, EnqueueTest)
    requires var s := Run(INITIAL, before).value;
      && Run(Apply(s, EnqueueTest), schedule).Some? && EnqueueUnlock !in schedule
      && Enabled(Run(Apply(s, EnqueueTest), schedule).value, EnqueueUnlock)
    ensures var s := Run(INITIAL, before).value;
      var v := Run(Apply(s, EnqueueTest), schedule).value;
      ENQUEUE_RESULT == (v.lock.task.Some? && v.lock.task.value in v.accepted) <==> s.lock.task.Some? && !s.stopped
  {
    InitialInvariant();
    RunInvariant(INITIAL, before);
    var s := Run(INITIAL, before).value;
    CallRuns(s, schedule);
    if s.lock.task.Some? {
      UndecidedIsNew(s, s.lock.task.value);
    }
  }

  lemma RunNext(s: State, schedule: seq<Action>, a: Action)
    requires Run(s, schedule).Some? && Enabled(Run(s, schedule).value, a) && !Faults(Run(s, schedule).value, a)
    ensures Run(s, schedule + [a]) == Some(Apply(Run(s, schedule).value, a))
  {
    assert (schedule + [a])[..|schedule|] == schedule;
  }

  /** An input: the task is refused and deleted, and the call is about to return true. */
  lemma RefusedYetTrue(t: Task)
    ensures var v := Run(INITIAL, [Stop] + [EnqueueLock(Some(t), false)] + [EnqueueTest] + [EnqueueDelete]);
      v.Some? && Enabled(v.value, EnqueueUnlock) && ENQUEUE_RESULT && t !in v.value.accepted && t in v.value.deleted
  {
    assert Run(INITIAL, []) == Some(INITIAL);
    assert [] + [Stop] == [Stop];
    RunNext(INITIAL, [], Stop);
    RunNext(INITIAL, [Stop], EnqueueLock(Some(t), false));
    RunNext(INITIAL, [Stop] + [EnqueueLock(Some(t), false)], EnqueueTest);
    RunNext(INITIAL, [Stop] + [EnqueueLock(Some(t), false)] + [EnqueueTest], EnqueueDelete);
  }

  // ---- the destructor's join returns ----

  function Rank(l: LoopPc): nat {
    match l
    case Popped(_) => 11
    case Releasing(_) => 10
    case Deleting(_) => 9
    case Top => 8
    case Waiting => 8
    case Testing => 7
    case Choosing => 6
    case Deciding(_) => 5
    case Running(_) => 4
    case Finished(_) => 3
    case Popping(_) => 2
    case Returned => 0
  }

  /** How many more steps the loop thread can take once isDying_ is set. */
  function StepsLeft(s: State): nat {
    10 * (|s.queue| + if s.lock.Enqueuer? && s.lock.pc == Admitted then 1 else 0) + Rank(s.loop)
  }

  lemma DyingLoopStep(s: State, a: Action)
    requires Locking(s) && Queueing(s) && s.dying && Enabled(s, a) && !Faults(s, a) && LoopAction(a)
    ensures StepsLeft(Apply(s, a)) < StepsLeft(s)
  {
  }

  lemma DyingEnqueueStep(s: State, a: Action)
    requires Shutting(s) && s.dying && Enabled(s, a) && EnqueueAction(a)
    ensures StepsLeft(Apply(s, a)) <= StepsLeft(s)
  {
  }

  /** Once isDying_ is set, every step of the loop brings its return nearer and no other step puts it off. */
  lemma DyingLoopEnds(s: State, a: Action)
    requires Invariant(s) && s.dying && Enabled(s, a)
    ensures !Faults(s, a)
    ensures StepsLeft(Apply(s, a)) <= StepsLeft(s)
    ensures LoopAction(a) ==> StepsLeft(Apply(s, a)) < StepsLeft(s)
  {
    NoFault(s, a);
    if EnqueueAction(a) {
      DyingEnqueueStep(s, a);
    } else if LoopAction(a) {
      DyingLoopStep(s, a);
    } else {
      FlagsFrame(s, a);
    }
  }

  /** The loop thread has a step to take whenever no enqueuer stands in its way. */
  lemma LoopNotStuck(s: State)
    requires Invariant(s) && s.loop != Returned && !s.lock.Enqueuer?
    ensures exists a :: LoopAction(a) && Enabled(s, a)
  {
    var a := match s.loop
      case Top => LoopLock
      case Testing => LoopTest
      case Waiting => LoopWake
      case Choosing => LoopChoose
      case Deciding(_) => LoopDecide
      case Running(_) => LoopFinish
      case Finished(_) => LoopRelock
      case Popping(_) => LoopPop
      case Popped(_) => LoopUncount
      case Releasing(_) => LoopUnlock
      case _ => LoopDelete;
    assert LoopAction(a) && Enabled(s, a);
  }

  // ---- a live object runs its tasks ----

  /** How many steps of its own the loop thread takes at most before it starts a task, if one is queued. */
  function StepsToStart(l: LoopPc): nat {
    match l
    case Running(_) => 10
    case Finished(_) => 9
    case Popping(_) => 8
    case Popped(_) => 7
    case Releasing(_) => 6
    case Deleting(_) => 5
    case Top => 4
    case Waiting => 4
    case Testing => 3
    case Choosing => 2
    case Deciding(_) => 1
    case Returned => 0
  }

  /** The task to be started next: the first accepted one that has not been. */
  lemma NextIsQueued(s: State)
    requires Queueing(s) && Executing(s) && !s.dying && |s.started| < |s.accepted|
    ensures !AtFront(s.loop) || s.loop.Deciding? ==> s.queue != [] && s.queue[0] == s.accepted[|s.started|]
    ensures s.loop.Deciding? ==> s.loop.t == s.accepted[|s.started|]
  {
    if !AtFront(s.loop) || s.loop.Deciding? {
      assert s.started == s.popped + [] == s.popped;
      assert s.accepted[|s.popped|] == s.queue[0];
    }
  }

  /** While the object lives and a task waits to be run, each step of the loop thread starts the next task or
      brings it nearer. */
  lemma LoopNearsStart(s: State, a: Action)
    requires Locking(s) && Queueing(s) && Executing(s) && Shutting(s) && !s.dying && |s.started| < |s.accepted|
    requires Enabled(s, a) && !Faults(s, a) && LoopAction(a)
    ensures var v := Apply(s, a);
      && v.accepted == s.accepted
      && (v.started == s.started + [s.accepted[|s.started|]]
          || (v.started == s.started && StepsToStart(v.loop) < StepsToStart(s.loop)))
  {
    NextIsQueued(s);
  }

  /** ... and no step of another thread puts it off. */
  lemma OthersKeepStart(s: State, a: Action)
    requires Enabled(s, a) && !Faults(s, a) && !LoopAction(a)
    ensures Apply(s, a).started == s.started && Apply(s, a).loop == s.loop && s.accepted <= Apply(s, a).accepted
  {
  }

  function LoopSteps(schedule: seq<Action>): nat {
    if schedule == [] then 0 else
      LoopSteps(schedule[..|schedule| - 1]) + if LoopAction(schedule[|schedule| - 1]) then 1 else 0
  }

  lemma DyingStays(s: State, a: Action)
    requires Enabled(s, a) && !Faults(s, a) && s.dying
    ensures Apply(s, a).dying
  {
  }

  /** From any reachable state in which a task waits, whatever the other threads do: either the loop thread has
      started the next task, or it has used up some of the few steps it may take before that. */
  lemma {:induction false} StartsSoon(s: State, schedule: seq<Action>)
    requires Invariant(s) && |s.started| < |s.accepted| && Run(s, schedule).Some? && !Run(s, schedule).value.dying
    ensures !s.dying
    ensures var v := Run(s, schedule).value;
      s.started + [s.accepted[|s.started|]] <= v.started
      || (v.started == s.started && s.accepted <= v.accepted
          && LoopSteps(schedule) + StepsToStart(v.loop) <= StepsToStart(s.loop))
  {
    if schedule != [] {
      var last := |schedule| - 1;
      var u := Run(s, schedule[..last]).value;
      if u.dying {
        DyingStays(u, schedule[last]);
      }
      StartsSoon(s, schedule[..last]);
      RunInvariant(s, schedule[..last]);
      StartsSoonStep(s, u, schedule[last]);
    }
  }

  lemma StartsSoonStep(s: State, u: State, a: Action)
    requires Invariant(u) && |s.started| < |s.accepted| && !u.dying && Enabled(u, a) && !Faults(u, a)
    ensures s.started <= u.started ==> s.started <= Apply(u, a).started
    ensures s.started + [s.accepted[|s.started|]] <= u.started ==>
      s.started + [s.accepted[|s.started|]] <= Apply(u, a).started
    ensures u.started == s.started && s.accepted <= u.accepted ==>
      var v := Apply(u, a);
      v.started == s.started + [s.accepted[|s.started|]]
      || (v.started == s.started && s.accepted <= v.accepted
          && StepsToStart(v.loop) + One(LoopAction(a)) <= StepsToStart(u.loop))
  {
    StartedGrows(u, a);
    if LoopAction(a) {
      if u.started == s.started && s.accepted <= u.accepted {
        LoopNearsStart(u, a);
      }
    } else {
      OthersKeepStart(u, a);
    }
  }

  lemma StartedGrows(s: State, a: Action)
    requires Enabled(s, a) && !Faults(s, a)
    ensures s.started <= Apply(s, a).started
  {
  }

  /** So within ten steps of the loop thread the next task is started, be it the first of a new object or one
      that was queued while another ran. */
  lemma StartsWithinTen(before: seq<Action>, schedule: seq<Action>)
    requires Run(INITIAL, before).Some? && Run(Run(INITIAL, before).value, schedule).Some?
    requires !Run(Run(INITIAL, before).value, schedule).value.dying
    requires var s := Run(INITIAL, before).value; |s.started| < |s.accepted|
    requires LoopSteps(schedule) >= 10
    ensures var s := Run(INITIAL, before).value;
      s.started + [s.accepted[|s.started|]] <= Run(s, schedule).value.started
  {
    InitialInvariant();
    RunInvariant(INITIAL, before);
    StartsSoon(Run(INITIAL, before).value, schedule);
    RunInvariant(Run(INITIAL, before).value, schedule);
  }

  /** With the loop thread on its own: from the top of the loop four steps run the front of the queue. */
  lemma FrontIsRun(s: State)
    requires Invariant(s) && !s.dying && s.loop == Top && s.lock == Free && s.queue != []
    ensures var v := Run(s, [LoopLock] + [LoopTest] + [LoopChoose] + [LoopDecide]);
      v.Some? && v.value.loop == Running(s.queue[0]) && v.value.started == s.started + [s.queue[0]]
  {
    assert Run(s, []) == Some(s);
    assert [] + [LoopLock] == [LoopLock];
    RunNext(s, [], LoopLock);
    RunNext(s, [LoopLock], LoopTest);
    RunNext(s, [LoopLock] + [LoopTest], LoopChoose);
    RunNext(s, [LoopLock] + [LoopTest] + [LoopChoose], LoopDecide);
  }

  /** Once isDying_ is set no task is started any more. */
  lemma {:induction false} NothingStartsDying(s: State, schedule: seq<Action>)
    requires s.dying && Run(s, schedule).Some?
    ensures Run(s, schedule).value.dying && Run(s, schedule).value.started == s.started
  {
    if schedule != [] {
      var last := |schedule| - 1;
      NothingStartsDying(s, schedule[..last]);
      var u := Run(s, schedule[..last]).value;
      DyingStays(u, schedule[last]);
      DyingStartsNothing(u, schedule[last]);
    }
  }

  lemma DyingStartsNothing(s: State, a: Action)
    requires s.dying && Enabled(s, a) && !Faults(s, a)
    ensures Apply(s, a).started == s.started
  {
  }

  // ---- stop and resume ----

  /** resume undoes stop exactly while the object lives. */
  lemma ResumeIff(s: State)
    requires Invariant(s) && Enabled(s, Resume)
    ensures Apply(s, Resume).stopped <==> s.dying
  {
  }

  /** In any reachable state of a live object that nobody destroys: a task offered after stop and resume is accepted. */
  lemma AcceptedAfterResume(s: State, t: Task)
    requires Invariant(s) && s.dtor == NotCalled && s.lock == Free && t !in s.offered
    ensures var v := Run(s, [Stop] + [Resume] + [EnqueueLock(Some(t), false)] + [EnqueueTest] + [EnqueuePush]);
      v.Some? && v.value.accepted == s.accepted + [t] && v.value.queue == s.queue + [t]
  {
    var offer := EnqueueLock(Some(t), false);
    assert Run(s, []) == Some(s);
    assert [] + [Stop] == [Stop];
    RunNext(s, [], Stop);
    RunNext(s, [Stop], Resume);
    RunNext(s, [Stop] + [Resume], offer);
    RunNext(s, [Stop] + [Resume] + [offer], EnqueueTest);
    RunNext(s, [Stop] + [Resume] + [offer] + [EnqueueTest], EnqueuePush);
  }

  // ---- pendingTasks ----

  /** The sum pendingTasks takes over the map, in whatever order it is walked. */
  ghost function Total(count: map<GroupId, nat>): nat {
    if count == map[] then 0 else
      var g :| g in count;
      count[g] + Total(count - {g})
  }

  lemma {:induction false} TotalRemove(count: map<GroupId, nat>, g: GroupId)
    requires g in count
    ensures Total(count) == count[g] + Total(count - {g})
    decreases |count|
  {
    var k :| k in count && Total(count) == count[k] + Total(count - {k});
    if k != g {
      TotalRemove(count - {k}, g);
      TotalRemove(count - {g}, k);
      assert count - {k} - {g} == count - {g} - {k};
    }
  }

  lemma TotalWrite(count: map<GroupId, nat>, g: GroupId, n: nat)
    ensures Total(count[g := n]) == Total(count) + n - CountOf(count, g)
  {
    TotalRemove(count[g := n], g);
    assert count[g := n] - {g} == count - {g};
    if g in count {
      TotalRemove(count, g);
    } else {
      assert count - {g} == count;
    }
  }

  /** The total pendingTasks reports, which nothing but taskCountMutex_ guards. */
  ghost predicate Totalled(s: State) {
    Total(s.count) + (if s.lock.Enqueuer? && s.lock.pc == Pushed then 1 else 0)
    == |s.queue| + (if s.loop.Popped? then 1 else 0)
  }

  lemma TotalledEnqueue(s: State, a: Action)
    requires Locking(s) && Totalled(s) && Enabled(s, a) && EnqueueAction(a)
    ensures Totalled(Apply(s, a))
  {
    if a.EnqueueCount? {
      var g := s.lock.task.value.group;
      TotalWrite(s.count, g, CountOf(s.count, g) + 1);
    }
  }

  lemma TotalledUncount(s: State)
    requires Locking(s) && Totalled(s) && Enabled(s, LoopUncount) && !Faults(s, LoopUncount)
    ensures Totalled(Apply(s, LoopUncount))
  {
    TotalWrite(s.count, s.loop.t.group, CountOf(s.count, s.loop.t.group) - 1);
  }

  lemma TotalledLoop(s: State, a: Action)
    requires Locking(s) && Totalled(s) && Enabled(s, a) && !Faults(s, a) && LoopAction(a)
    ensures Totalled(Apply(s, a))
  {
    if a.LoopUncount? {
      TotalledUncount(s);
    }
  }

  lemma TotalledStep(s: State, a: Action)
    requires Invariant(s) && Totalled(s) && Enabled(s, a)
    ensures !Faults(s, a) && Totalled(Apply(s, a))
  {
    NoFault(s, a);
    if EnqueueAction(a) {
      TotalledEnqueue(s, a);
    } else if LoopAction(a) {
      TotalledLoop(s, a);
    } else {
      FlagsFrame(s, a);
    }
  }

  /** pendingTasks is never more than one off the length of the queue, and exact while queueMutex_ is free. */
  lemma {:induction false} PendingTasksNearlyExact(schedule: seq<Action>)
    requires Run(INITIAL, schedule).Some?
    ensures var s := Run(INITIAL, schedule).value;
      && Totalled(s)
      && |s.queue| - 1 <= Total(s.count) <= |s.queue| + 1
      && (s.lock == Free ==> Total(s.count) == |s.queue| && forall g :: CountOf(s.count, g) == Occurrences(s.queue, g))
  {
    InitialInvariant();
    RunInvariant(INITIAL, schedule);
    if schedule != [] {
      var last := |schedule| - 1;
      PendingTasksNearlyExact(schedule[..last]);
      RunInvariant(INITIAL, schedule[..last]);
      TotalledStep(Run(INITIAL, schedule[..last]).value, schedule[last]);
    }
  }
}
