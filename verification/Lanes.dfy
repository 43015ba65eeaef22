/** What is left of a dispatcher once locks and flags are abstracted away: tasks are pushed at the back,
    and the front one is started, finished and only then popped.  Every step of EventDispatcher, as long
    as nobody destroys the object, is one of these or no step at all. */
module Lanes {
  import ED = EventDispatcher

  datatype Front = Idle | Running | Done

  /** `log` is all that was ever pushed; the queue is what lies beyond the first `popped`. */
  datatype Lane<T> = Lane(log: seq<T>, popped: nat, front: Front)

  predicate Sound<T>(l: Lane<T>) {
    l.popped <= |l.log| && (l.front != Idle ==> l.popped < |l.log|)
  }

  function Push<T>(l: Lane<T>, t: T): Lane<T> {
    l.(log := l.log + [t])
  }

  predicate CanStart<T>(l: Lane<T>) {
    l.front == Idle && l.popped < |l.log|
  }

  function Start<T>(l: Lane<T>): Lane<T> {
    l.(front := Running)
  }

  predicate Runs<T(==)>(l: Lane<T>, t: T) {
    l.front == Running && l.popped < |l.log| && l.log[l.popped] == t
  }

  function Finish<T>(l: Lane<T>): Lane<T> {
    l.(front := Done)
  }

  function Pop<T>(l: Lane<T>): Lane<T> {
    Lane(l.log, l.popped + 1, Idle)
  }

  /** How many tasks, from the first pushed on, have been executed. */
  function Executed<T>(l: Lane<T>): nat {
    l.popped + if l.front == Done then 1 else 0
  }

  function View(s: ED.State): Lane<ED.Task> {
    Lane(s.accepted, |s.popped|,
         if s.loop.Running? then Running else if s.loop.Finished? || s.loop.Popping? then Done else Idle)
  }

  /** The step of the lane that a step of the dispatcher amounts to. */
  function Step(s: ED.State, a: ED.Action): Lane<ED.Task>
    requires ED.Enabled(s, a)
  {
    var l := View(s);
    if a.EnqueuePush? then Push(l, s.lock.task.value)
    else if a.LoopDecide? then Start(l)
    else if a.LoopFinish? then Finish(l)
    else if a.LoopPop? then Pop(l)
    else l
  }

  lemma DispatcherIsLane(s: ED.State, a: ED.Action)
    requires ED.Invariant(s) && ED.Enabled(s, a) && !s.dying
    ensures !ED.Faults(s, a)
    ensures Sound(View(s)) && View(ED.Apply(s, a)) == Step(s, a)
    ensures a.LoopDecide? ==> CanStart(View(s)) && View(s).log[View(s).popped] == s.loop.t
    ensures a.LoopFinish? ==> Runs(View(s), s.loop.t)
    ensures a.LoopPop? ==> View(s).front == Done
    ensures a == ED.LoopTest && s.queue == [] ==> View(s).popped == |View(s).log|
  {
    ED.NoFault(s, a);
    assert ED.AtFront(s.loop) ==> s.accepted[|s.popped|] == s.queue[0];
  }
}
