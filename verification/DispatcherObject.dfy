/** The fields of lib/event_dispatcher.cc and the code between two yield points of its methods.  The ghost
    `s` is the protocol's state; each piece of code is proved to take the step of EventDispatcher that
    carries its name, so what is proved there of every schedule holds of these fields. */
module DispatcherObject {
  import opened Wrappers
  import ED = EventDispatcher

  class EventDispatcher {
    var taskQueue: seq<ED.Task>
    var isExecuting: bool
    var taskCount: map<ED.GroupId, nat>
    var isStopped: bool
    var isDying: bool
    ghost var s: ED.State

    ghost predicate Valid()
      reads this
    {
      && ED.Invariant(s)
      && taskQueue == s.queue && isExecuting == s.executing && taskCount == s.count
      && isStopped == s.stopped && isDying == s.dying
    }

    constructor ()
      ensures Valid() && s == ED.INITIAL
    {
      taskQueue, isExecuting, taskCount, isStopped, isDying := [], false, map[], false, false;
      s := ED.INITIAL;
      new;
      ED.InitialInvariant();
    }

    /** The test in enqueueTask. */
    method EnqueueTest(newTask: Option<ED.Task>) returns (admitted: bool)
      requires Valid() && ED.Enabled(s, ED.EnqueueTest) && s.lock.task == newTask
      modifies this
      ensures Valid() && s == ED.Apply(old(s), ED.EnqueueTest)
      ensures admitted == (s.lock.pc == ED.Admitted)
    {
      ED.InvariantStep(s, ED.EnqueueTest);
      admitted := !isStopped && newTask.Some?;
      s := ED.Apply(s, ED.EnqueueTest);
    }

    /** taskQueue_.push(newTask). */
    method EnqueuePush(newTask: ED.Task)
      requires Valid() && ED.Enabled(s, ED.EnqueuePush) && s.lock.task == Some(newTask)
      modifies this
      ensures Valid() && s == ED.Apply(old(s), ED.EnqueuePush)
    {
      ED.InvariantStep(s, ED.EnqueuePush);
      taskQueue := taskQueue + [newTask];
      s := ED.Apply(s, ED.EnqueuePush);
    }

    /** taskCount_[newTask->id]++; a missing key reads as 0. */
    method EnqueueCount(newTask: ED.Task)
      requires Valid() && ED.Enabled(s, ED.EnqueueCount) && s.lock.task == Some(newTask)
      modifies this
      ensures Valid() && s == ED.Apply(old(s), ED.EnqueueCount)
    {
      ED.InvariantStep(s, ED.EnqueueCount);
      var n := if newTask.group in taskCount then taskCount[newTask.group] else 0;
      taskCount := taskCount[newTask.group := n + 1];
      s := ED.Apply(s, ED.EnqueueCount);
    }

    /** The return of enqueueTask, which gives up queueMutex_. */
    method EnqueueLeave() returns (ret: bool)
      requires Valid() && ED.Enabled(s, ED.EnqueueUnlock)
      modifies this
      ensures Valid() && s == ED.Apply(old(s), ED.EnqueueUnlock)
      ensures ret == ED.ENQUEUE_RESULT
    {
      ED.InvariantStep(s, ED.EnqueueUnlock);
      s := ED.Apply(s, ED.EnqueueUnlock);
      ret := true;
    }

    method Stop()
      requires Valid() && ED.Enabled(s, ED.Stop)
      modifies this
      ensures Valid() && s == ED.Apply(old(s), ED.Stop)
    {
      ED.InvariantStep(s, ED.Stop);
      isStopped := true;
      s := ED.Apply(s, ED.Stop);
    }

    method Resume()
      requires Valid() && ED.Enabled(s, ED.Resume)
      modifies this
      ensures Valid() && s == ED.Apply(old(s), ED.Resume)
    {
      ED.InvariantStep(s, ED.Resume);
      if !isDying {
        isStopped := false;
      }
      s := ED.Apply(s, ED.Resume);
    }

    /** The destructor sets isStopped_. */
    method DtorStop()
      requires Valid() && ED.Enabled(s, ED.DtorStop)
      modifies this
      ensures Valid() && s == ED.Apply(old(s), ED.DtorStop)
    {
      ED.InvariantStep(s, ED.DtorStop);
      isStopped := true;
      s := ED.Apply(s, ED.DtorStop);
    }

    /** The destructor sets isDying_. */
    method DtorDie()
      requires Valid() && ED.Enabled(s, ED.DtorDie)
      modifies this
      ensures Valid() && s == ED.Apply(old(s), ED.DtorDie)
    {
      ED.InvariantStep(s, ED.DtorDie);
      isDying := true;
      s := ED.Apply(s, ED.DtorDie);
    }

    /** The wait condition of eventLoop. */
    method LoopTest() returns (wait: bool)
      requires Valid() && ED.Enabled(s, ED.LoopTest)
      modifies this
      ensures Valid() && s == ED.Apply(old(s), ED.LoopTest)
      ensures wait == (s.loop == ED.Waiting)
    {
      ED.InvariantStep(s, ED.LoopTest);
      wait := taskQueue == [] && !isDying;
      s := ED.Apply(s, ED.LoopTest);
    }

    /** eventLoop returns or fetches the front. */
    method LoopChoose() returns (nextTask: Option<ED.Task>)
      requires Valid() && ED.Enabled(s, ED.LoopChoose)
      modifies this
      ensures !ED.Faults(old(s), ED.LoopChoose)
      ensures Valid() && s == ED.Apply(old(s), ED.LoopChoose)
      ensures nextTask == if s.loop.Deciding? then Some(s.loop.t) else None
    {
      ED.InvariantStep(s, ED.LoopChoose);
      if isDying && taskQueue == [] {
        nextTask := None;
      } else {
        nextTask := Some(taskQueue[0]);
        isExecuting := true;
      }
      s := ED.Apply(s, ED.LoopChoose);
    }

    /** The unlocked read of isDying_. */
    method LoopDecide() returns (run: bool)
      requires Valid() && ED.Enabled(s, ED.LoopDecide)
      modifies this
      ensures Valid() && s == ED.Apply(old(s), ED.LoopDecide)
      ensures run == s.loop.Running?
    {
      ED.InvariantStep(s, ED.LoopDecide);
      run := !isDying;
      s := ED.Apply(s, ED.LoopDecide);
    }

    /** taskQueue_.pop(); isExecuting_ = false. */
    method LoopPop()
      requires Valid() && ED.Enabled(s, ED.LoopPop)
      modifies this
      ensures !ED.Faults(old(s), ED.LoopPop)
      ensures Valid() && s == ED.Apply(old(s), ED.LoopPop)
    {
      ED.InvariantStep(s, ED.LoopPop);
      taskQueue := taskQueue[1..];
      isExecuting := false;
      s := ED.Apply(s, ED.LoopPop);
    }

    /** taskCount_[nextTask->id]--. */
    method LoopUncount(nextTask: ED.Task)
      requires Valid() && ED.Enabled(s, ED.LoopUncount) && s.loop == ED.Popped(nextTask)
      modifies this
      ensures !ED.Faults(old(s), ED.LoopUncount)
      ensures Valid() && s == ED.Apply(old(s), ED.LoopUncount)
    {
      ED.InvariantStep(s, ED.LoopUncount);
      taskCount := taskCount[nextTask.group := taskCount[nextTask.group] - 1];
      s := ED.Apply(s, ED.LoopUncount);
    }

    method Busy() returns (b: bool)
      requires Valid() && s.lock == ED.Free
      ensures !b ==> s.popped == s.accepted && !ED.AtFront(s.loop)
      ensures b ==> s.popped < s.accepted
    {
      b := taskQueue != [];
    }
  }

  /** Every task this dispatcher accepted is off its queue, and so no longer running. */
  ghost predicate Finished(d: EventDispatcher)
    reads d
  {
    d.s.popped == d.s.accepted && !ED.AtFront(d.s.loop)
  }

  /** MPEventDispatcher::busy with nothing else running; DelayedInc looks at the queues while tasks run. */
  method AnyBusy(dispatchers: seq<EventDispatcher>) returns (b: bool)
    requires forall i :: 0 <= i < |dispatchers| ==> dispatchers[i].Valid() && dispatchers[i].s.lock == ED.Free
    ensures b <==> exists i :: 0 <= i < |dispatchers| && !Finished(dispatchers[i])
  {
    for n := 0 to |dispatchers|
      invariant forall i :: 0 <= i < n ==> Finished(dispatchers[i])
    {
      b := dispatchers[n].Busy();
      if b {
        return;
      }
    }
    b := false;
  }

  /** pendingTasks: the counts, added up in the order the map happens to be walked. */
  method PendingTasks(taskCount: map<ED.GroupId, nat>) returns (count: nat)
    ensures count == ED.Total(taskCount)
  {
    count := 0;
    var rest := taskCount;
    while rest != map[]
      invariant count + ED.Total(rest) == ED.Total(taskCount)
      invariant forall g :: g in rest ==> g in taskCount && rest[g] == taskCount[g]
      decreases |rest|
    {
      var g :| g in rest;
      ED.TotalRemove(rest, g);
      count := count + rest[g];
      rest := rest - {g};
    }
  }
}
