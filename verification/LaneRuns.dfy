/** All of lib/mp_event_dispatcher.cc as n lanes: whatever its threads do, as long as nobody destroys an
    object, the dispatchers go through a schedule of lane steps, and each lane gets only tasks of the
    groups that are pinned to it. */
module LaneRuns {
  import opened Wrappers
  import opened Lanes
  import ED = EventDispatcher
  import GR = GroupRouting

  type Task = ED.Task

  datatype Action = PushOn(d: nat, t: Task) | StartOn(d: nat) | FinishOn(d: nat) | PopOn(d: nat)

  predicate Enabled(lanes: seq<Lane<Task>>, a: Action) {
    && a.d < |lanes|
    && match a
       case PushOn(_, _) => true
       case StartOn(d) => CanStart(lanes[d])
       case FinishOn(d) => lanes[d].front == Running
       case PopOn(d) => lanes[d].front == Done
  }

  function Apply(lanes: seq<Lane<Task>>, a: Action): seq<Lane<Task>>
    requires Enabled(lanes, a)
  {
    match a
    case PushOn(d, t) => lanes[d := Push(lanes[d], t)]
    case StartOn(d) => lanes[d := Start(lanes[d])]
    case FinishOn(d) => lanes[d := Finish(lanes[d])]
    case PopOn(d) => lanes[d := Pop(lanes[d])]
  }

  function Run(lanes: seq<Lane<Task>>, schedule: seq<Action>): Option<seq<Lane<Task>>> {
    if schedule == [] then Some(lanes) else
      var last := |schedule| - 1;
      var before := Run(lanes, schedule[..last]);
      if before.Some? && Enabled(before.value, schedule[last]) then Some(Apply(before.value, schedule[last])) else None
  }

  function Views(s: GR.State): (lanes: seq<Lane<Task>>)
    ensures |lanes| == |s.d| && forall i :: 0 <= i < |lanes| ==> lanes[i] == View(s.d[i])
  {
    seq(|s.d|, i requires 0 <= i < |s.d| => View(s.d[i]))
  }

  /** The lane step that a step of the dispatchers amounts to, if any. */
  function Amounts(s: GR.State, a: GR.Action): seq<Action>
    requires GR.Enabled(s, a)
  {
    match a
    case Call(_) => []
    case At(i, step) =>
      if step.EnqueuePush? then [PushOn(i, s.d[i].lock.task.value)]
      else if step.LoopDecide? then [StartOn(i)]
      else if step.LoopFinish? then [FinishOn(i)]
      else if step.LoopPop? then [PopOn(i)]
      else []
  }

  function Project(s: GR.State, schedule: seq<GR.Action>): seq<Action> {
    if schedule == [] then [] else
      var last := |schedule| - 1;
      var before := GR.Run(s, schedule[..last]);
      Project(s, schedule[..last])
      + if before.Some? && GR.Enabled(before.value, schedule[last]) then Amounts(before.value, schedule[last]) else []
  }

  predicate Destroys(a: GR.Action) {
    a.At? && (a.step.DtorStop? || a.step.DtorDie? || a.step.DtorUnlock?)
  }

  ghost predicate Alive(s: GR.State) {
    GR.Pinned(s) && forall i :: 0 <= i < |s.d| ==> s.d[i].dtor == ED.NotCalled && !s.d[i].dying
  }

  /** One step, on the lanes. */
  ghost predicate Simulated(s: GR.State, a: GR.Action)
    requires GR.Enabled(s, a)
  {
    var v := GR.Apply(s, a);
    var lane := Amounts(s, a);
    && Alive(v)
    && if lane == [] then Views(v) == Views(s) else Enabled(Views(s), lane[0]) && Views(v) == Apply(Views(s), lane[0])
  }

  lemma StaysAlive(s: GR.State, a: GR.Action)
    requires Alive(s) && GR.Enabled(s, a) && !Destroys(a)
    ensures Alive(GR.Apply(s, a))
  {
    GR.PinnedStep(s, a);
  }

  lemma StepIsLaneStep(s: GR.State, a: GR.Action)
    requires Alive(s) && GR.Enabled(s, a) && !Destroys(a)
    ensures Simulated(s, a)
  {
    StaysAlive(s, a);
    match a
    case Call(_) =>
    case At(i, step) =>
      DispatcherIsLane(s.d[i], step);
      var v := GR.Apply(s, a);
      assert Views(v) == Views(s)[i := Step(s.d[i], step)];
      assert Views(s)[i := View(s.d[i])] == Views(s);
  }

  lemma RunNext(lanes: seq<Lane<Task>>, schedule: seq<Action>, a: Action)
    requires Run(lanes, schedule).Some? && Enabled(Run(lanes, schedule).value, a)
    ensures Run(lanes, schedule + [a]) == Some(Apply(Run(lanes, schedule).value, a))
  {
    assert (schedule + [a])[..|schedule|] == schedule;
  }

  lemma {:induction false} RunIsLaneRun(s: GR.State, schedule: seq<GR.Action>)
    requires Alive(s) && GR.Run(s, schedule).Some? && forall a :: a in schedule ==> !Destroys(a)
    ensures Alive(GR.Run(s, schedule).value)
    ensures Run(Views(s), Project(s, schedule)) == Some(Views(GR.Run(s, schedule).value))
  {
    if schedule != [] {
      var last := |schedule| - 1;
      RunIsLaneRun(s, schedule[..last]);
      var u := GR.Run(s, schedule[..last]).value;
      StepIsLaneStep(u, schedule[last]);
      var lane := Amounts(u, schedule[last]);
      if lane == [] {
        assert Project(s, schedule[..last]) + [] == Project(s, schedule[..last]);
      } else {
        RunNext(Views(s), Project(s, schedule[..last]), lane[0]);
        assert lane == [lane[0]];
      }
    }
  }

  /** Every schedule of the n dispatchers without a destructor is a schedule of n lanes, which start out empty;
      and a task is only ever on the lane of its group. */
  lemma DispatchersAreLanes(n: nat, routing: GR.Routing, schedule: seq<GR.Action>)
    requires n > 0 && GR.Run(GR.Initial(n, routing), schedule).Some?
    requires forall a :: a in schedule ==> !Destroys(a)
    ensures var v := GR.Run(GR.Initial(n, routing), schedule).value;
      && Run(seq(n, i => Lane([], 0, Idle)), Project(GR.Initial(n, routing), schedule)) == Some(Views(v))
      && forall i, t :: 0 <= i < |v.d| && t in Views(v)[i].log ==> GR.Assigned(v.routing, t.group, |v.d|, i)
  {
    var s := GR.Initial(n, routing);
    GR.InitialPinned(n, routing);
    assert Views(s) == seq(n, i => Lane([], 0, Idle));
    RunIsLaneRun(s, schedule);
    var v := GR.Run(s, schedule).value;
    forall i, t | 0 <= i < |v.d| && t in Views(v)[i].log
      ensures GR.Assigned(v.routing, t.group, |v.d|, i)
    {
      GR.AcceptedWhereAssigned(v.d[i], t);
    }
  }
}
