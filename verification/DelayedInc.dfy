/** test/libtest/test_helper.cc on n dispatchers: tasks that enqueue themselves again, into their own
    group, and MPEventDispatcher::busy, which looks at one queue after the other while they run. */
module DelayedInc {
  import opened Wrappers
  import opened Lanes
  import opened Sequences

  datatype Task = Task(group: nat, delay: int)

  datatype State = State(
    lanes: seq<Lane<Task>>,
    val: map<nat, nat>,  // per group, how often it was incremented
    bodies: nat,         // how often delayedInc has been executed
    scan: nat)           // how many queues busy() has found empty in a row

  datatype Action = Begin(d: nat) | Body(d: nat) | Remove(d: nat) | Inspect

  function Val(s: State, g: nat): nat {
    if g in s.val then s.val[g] else 0
  }

  predicate Enabled(s: State, a: Action, lane: nat -> nat) {
    match a
    case Begin(d) => d < |s.lanes| && CanStart(s.lanes[d])
    case Body(d) => d < |s.lanes| && s.lanes[d].front == Running && s.lanes[d].popped < |s.lanes[d].log|
                    && lane(s.lanes[d].log[s.lanes[d].popped].group) < |s.lanes|
    case Remove(d) => d < |s.lanes| && s.lanes[d].front == Done
    case Inspect => s.scan < |s.lanes|
  }

  function Apply(s: State, a: Action, lane: nat -> nat): State
    requires Enabled(s, a, lane)
  {
    match a
    case Begin(d) => s.(lanes := s.lanes[d := Start(s.lanes[d])])
    case Remove(d) => s.(lanes := s.lanes[d := Pop(s.lanes[d])])
    case Body(d) =>
      var t := s.lanes[d].log[s.lanes[d].popped];
      if t.delay - 1 > 0 then
        var e := lane(t.group);
        var pushed := s.lanes[e := Push(s.lanes[e], Task(t.group, t.delay - 1))];
        s.(lanes := pushed[d := Finish(pushed[d])], bodies := s.bodies + 1)
      else
        s.(lanes := s.lanes[d := Finish(s.lanes[d])], val := s.val[t.group := Val(s, t.group) + 1],
           bodies := s.bodies + 1)
    case Inspect =>
      // busy() returns true at the first queue that is not empty
      s.(scan := if s.lanes[s.scan].popped == |s.lanes[s.scan].log| then s.scan + 1 else 0)
  }

  /** How many of the tasks beyond the first k belong to group g. */
  function Live(log: seq<Task>, k: nat, g: nat): nat {
    if |log| <= k then 0 else
      var last := |log| - 1;
      Live(log[..last], k, g) + if log[last].group == g then 1 else 0
  }

  lemma {:induction false} LiveNext(log: seq<Task>, k: nat, g: nat)
    requires k < |log|
    ensures Live(log, k, g) == Live(log, k + 1, g) + if log[k].group == g then 1 else 0
  {
    if k < |log| - 1 {
      LiveNext(log[..|log| - 1], k, g);
    }
  }

  /** A task with this delay makes delayedInc run max(1, delay) times. */
  function Rounds(t: Task): nat {
    if t.delay > 1 then t.delay else 1
  }

  function RoundsLeft(log: seq<Task>, k: nat): nat {
    if |log| <= k then 0 else RoundsLeft(log[..|log| - 1], k) + Rounds(log[|log| - 1])
  }

  lemma {:induction false} RoundsNext(log: seq<Task>, k: nat)
    requires k < |log|
    ensures RoundsLeft(log, k) == RoundsLeft(log, k + 1) + Rounds(log[k])
  {
    if k < |log| - 1 {
      RoundsNext(log[..|log| - 1], k);
    }
  }

  function LaneRounds(lanes: seq<Lane<Task>>): (rounds: seq<nat>)
    ensures |rounds| == |lanes|
    ensures forall d :: 0 <= d < |lanes| ==> rounds[d] == RoundsLeft(lanes[d].log, Executed(lanes[d]))
  {
    seq(|lanes|, d requires 0 <= d < |lanes| => RoundsLeft(lanes[d].log, Executed(lanes[d])))
  }

  /** All that will still be run. */
  function TotalRounds(s: State): nat {
    Sum(LaneRounds(s.lanes))
  }

  // ---- the invariant ----

  ghost predicate Placed(s: State, lane: nat -> nat) {
    && (forall d :: 0 <= d < |s.lanes| ==> Sound(s.lanes[d]))
    && (forall d, i :: 0 <= d < |s.lanes| && 0 <= i < |s.lanes[d].log| ==> lane(s.lanes[d].log[i].group) == d)
    && s.scan <= |s.lanes|
  }

  /** A queue that busy() has found empty is still empty: the running task stays at the front of its
      queue, and nobody pushes on another lane. */
  predicate Quiet(s: State) {
    forall d :: 0 <= d < s.scan && d < |s.lanes| ==> s.lanes[d].front == Idle && s.lanes[d].popped == |s.lanes[d].log|
  }

  /** Increments of group g and tasks of g still to come, all on lane d. */
  function Account(s: State, g: nat, d: nat): nat
    requires d < |s.lanes|
  {
    Val(s, g) + Live(s.lanes[d].log, Executed(s.lanes[d]), g)
  }

  /** Every initial task is incremented once or lives on. */
  ghost predicate Conserved(s: State, lane: nat -> nat, initial: nat -> nat) {
    forall g :: lane(g) < |s.lanes| ==> Account(s, g, lane(g)) == initial(g)
  }

  lemma PlacedStep(s: State, a: Action, lane: nat -> nat)
    requires Placed(s, lane) && Quiet(s) && Enabled(s, a, lane)
    ensures Placed(Apply(s, a, lane), lane) && Quiet(Apply(s, a, lane))
  {
  }

  /** What a body does to its lane, on which its task's group lives. */
  lemma BodyOnOwnLane(s: State, d: nat, lane: nat -> nat)
    requires Placed(s, lane) && Enabled(s, Body(d), lane)
    ensures var l := s.lanes[d];
      var t := l.log[l.popped];
      var v := Apply(s, Body(d), lane);
      && lane(t.group) == d
      && v.lanes == s.lanes[d := Finish(if t.delay > 1 then Push(l, Task(t.group, t.delay - 1)) else l)]
      && v.val == if t.delay > 1 then s.val else s.val[t.group := Val(s, t.group) + 1]
  {
    var l := s.lanes[d];
    var v := Apply(s, Body(d), lane);
    if l.log[l.popped].delay > 1 {
      var pushed := Push(l, Task(l.log[l.popped].group, l.log[l.popped].delay - 1));
      assert s.lanes[d := pushed][d := Finish(pushed)] == s.lanes[d := Finish(pushed)];
    }
  }

  lemma LivePush(l: Lane<Task>, t: Task, k: nat, g: nat)
    requires k <= |l.log|
    ensures Live(Push(l, t).log, k, g) == Live(l.log, k, g) + if t.group == g then 1 else 0
  {
    assert Push(l, t).log[..|l.log|] == l.log;
  }

  lemma BodyLive(l: Lane<Task>, g: nat)
    requires Sound(l) && l.front == Running
    ensures var t := l.log[l.popped];
      var k := Finish(if t.delay > 1 then Push(l, Task(t.group, t.delay - 1)) else l);
      Live(k.log, Executed(k), g) + (if t.delay <= 1 && t.group == g then 1 else 0) == Live(l.log, Executed(l), g)
  {
    var t := l.log[l.popped];
    LiveNext(l.log, l.popped, g);
    if t.delay > 1 {
      LivePush(l, Task(t.group, t.delay - 1), l.popped + 1, g);
    }
  }

  lemma BodyKeepsAccount(s: State, d: nat, lane: nat -> nat, g: nat)
    requires Placed(s, lane) && Enabled(s, Body(d), lane) && lane(g) < |s.lanes|
    ensures Account(Apply(s, Body(d), lane), g, lane(g)) == Account(s, g, lane(g))
  {
    BodyOnOwnLane(s, d, lane);
    BodyLive(s.lanes[d], g);
  }

  lemma ConservedStep(s: State, a: Action, lane: nat -> nat, initial: nat -> nat)
    requires Placed(s, lane) && Conserved(s, lane, initial) && Enabled(s, a, lane)
    ensures Conserved(Apply(s, a, lane), lane, initial)
  {
    var v := Apply(s, a, lane);
    forall g | lane(g) < |v.lanes|
      ensures Account(v, g, lane(g)) == initial(g)
    {
      assert Account(s, g, lane(g)) == initial(g);
      if a.Body? {
        BodyKeepsAccount(s, a.d, lane, g);
      }
    }
  }

  function LeftOf(l: Lane<Task>): nat {
    RoundsLeft(l.log, Executed(l))
  }

  /** One lane changes. */
  lemma RoundsWrite(lanes: seq<Lane<Task>>, d: nat, l: Lane<Task>)
    requires d < |lanes|
    ensures Sum(LaneRounds(lanes[d := l])) == Sum(LaneRounds(lanes)) - LeftOf(lanes[d]) + LeftOf(l)
  {
    SumWrite(LaneRounds(lanes), d, LeftOf(l));
    assert LaneRounds(lanes[d := l]) == LaneRounds(lanes)[d := LeftOf(l)];
  }

  lemma BodyRounds(l: Lane<Task>)
    requires Sound(l) && l.front == Running && l.popped < |l.log|
    ensures var t := l.log[l.popped];
      LeftOf(Finish(if t.delay > 1 then Push(l, Task(t.group, t.delay - 1)) else l)) + 1 == LeftOf(l)
  {
    var t := l.log[l.popped];
    RoundsNext(l.log, l.popped);
    if t.delay > 1 {
      var k := Push(l, Task(t.group, t.delay - 1));
      assert k.log[..|l.log|] == l.log;
      assert RoundsLeft(k.log, l.popped + 1) == RoundsLeft(l.log, l.popped + 1) + Rounds(k.log[|l.log|]);
    }
  }

  lemma BodyTotal(s: State, d: nat, lane: nat -> nat)
    requires Placed(s, lane) && Enabled(s, Body(d), lane)
    ensures TotalRounds(Apply(s, Body(d), lane)) + 1 == TotalRounds(s)
  {
    var l := s.lanes[d];
    var t := l.log[l.popped];
    var k := Finish(if t.delay > 1 then Push(l, Task(t.group, t.delay - 1)) else l);
    BodyOnOwnLane(s, d, lane);
    BodyRounds(l);
    RoundsWrite(s.lanes, d, k);
  }

  lemma BeginTotal(s: State, d: nat, lane: nat -> nat)
    requires Enabled(s, Begin(d), lane)
    ensures TotalRounds(Apply(s, Begin(d), lane)) == TotalRounds(s)
  {
    RoundsWrite(s.lanes, d, Start(s.lanes[d]));
  }

  lemma RemoveTotal(s: State, d: nat, lane: nat -> nat)
    requires Enabled(s, Remove(d), lane)
    ensures TotalRounds(Apply(s, Remove(d), lane)) == TotalRounds(s)
  {
    RoundsWrite(s.lanes, d, Pop(s.lanes[d]));
  }

  /** Each execution of delayedInc takes exactly one round off the total. */
  lemma RoundsStep(s: State, a: Action, lane: nat -> nat)
    requires Placed(s, lane) && Enabled(s, a, lane)
    ensures var v := Apply(s, a, lane);
      v.bodies + TotalRounds(v) == s.bodies + TotalRounds(s)
    ensures a.Body? ==> TotalRounds(Apply(s, a, lane)) < TotalRounds(s)
  {
    match a
    case Body(d) => BodyTotal(s, d, lane);
    case Begin(d) => BeginTotal(s, d, lane);
    case Remove(d) => RemoveTotal(s, d, lane);
    case Inspect =>
  }

  function Run(s: State, schedule: seq<Action>, lane: nat -> nat): Option<State> {
    if schedule == [] then Some(s) else
      var last := |schedule| - 1;
      var before := Run(s, schedule[..last], lane);
      if before.Some? && Enabled(before.value, schedule[last], lane)
      then Some(Apply(before.value, schedule[last], lane)) else None
  }

  /** Before anything runs: the initial tasks are queued, group by group, and nothing has been looked at. */
  ghost predicate Fresh(s: State, lane: nat -> nat, initial: nat -> nat) {
    && Placed(s, lane)
    && s.scan == 0 && s.val == map[] && s.bodies == 0
    && (forall d :: 0 <= d < |s.lanes| ==> s.lanes[d].popped == 0 && s.lanes[d].front == Idle)
    && (forall g :: lane(g) < |s.lanes| ==> Live(s.lanes[lane(g)].log, 0, g) == initial(g))
  }

  lemma {:induction false} RunInvariant(s: State, schedule: seq<Action>, lane: nat -> nat, initial: nat -> nat)
    requires Fresh(s, lane, initial) && Run(s, schedule, lane).Some?
    ensures var v := Run(s, schedule, lane).value;
      && Placed(v, lane) && Quiet(v) && Conserved(v, lane, initial)
      && |v.lanes| == |s.lanes| && v.bodies + TotalRounds(v) == TotalRounds(s)
  {
    if schedule == [] {
      assert forall d :: 0 <= d < |s.lanes| ==> Executed(s.lanes[d]) == 0;
    } else {
      var last := |schedule| - 1;
      RunInvariant(s, schedule[..last], lane, initial);
      var u := Run(s, schedule[..last], lane).value;
      PlacedStep(u, schedule[last], lane);
      ConservedStep(u, schedule[last], lane, initial);
      RoundsStep(u, schedule[last], lane);
    }
  }

  lemma {:induction false} SumZero(xs: seq<nat>)
    requires forall i :: 0 <= i < |xs| ==> xs[i] == 0
    ensures Sum(xs) == 0
  {
    if xs != [] {
      SumZero(xs[..|xs| - 1]);
    }
  }

  /** When busy() returns false, although it inspects the queues one by one, every task ever enqueued has
      finished: each group's counter has been raised once per initial task, and delayedInc has run
      max(1, delay) times for each. */
  lemma NotBusyMeansDone(s: State, schedule: seq<Action>, lane: nat -> nat, initial: nat -> nat, g: nat)
    requires Fresh(s, lane, initial) && Run(s, schedule, lane).Some?
    requires Run(s, schedule, lane).value.scan == |s.lanes|
    requires lane(g) < |s.lanes|
    ensures var v := Run(s, schedule, lane).value;
      && (forall d :: 0 <= d < |v.lanes| ==> Executed(v.lanes[d]) == |v.lanes[d].log|)
      && Val(v, g) == initial(g)
      && v.bodies == TotalRounds(s)
  {
    RunInvariant(s, schedule, lane, initial);
    var v := Run(s, schedule, lane).value;
    SumZero(LaneRounds(v.lanes));
  }

  lemma {:induction false} SumOfOne(xs: seq<nat>, d: nat)
    requires d < |xs| && forall i :: 0 <= i < |xs| && i != d ==> xs[i] == 0
    ensures Sum(xs) == xs[d]
  {
    var rest := xs[d := 0];
    SumWrite(rest, d, xs[d]);
    assert rest[d := xs[d]] == xs;
    SumZero(rest);
  }

  /** One task with a delay, alone: when busy() returns false it has run delay times, once if the delay is not
      positive, and its counter has been raised by one. */
  lemma SoleChain(s: State, schedule: seq<Action>, lane: nat -> nat, initial: nat -> nat, t: Task)
    requires Fresh(s, lane, initial) && lane(t.group) < |s.lanes| && s.lanes[lane(t.group)].log == [t]
    requires forall d :: 0 <= d < |s.lanes| && d != lane(t.group) ==> s.lanes[d].log == []
    requires Run(s, schedule, lane).Some? && Run(s, schedule, lane).value.scan == |s.lanes|
    ensures var v := Run(s, schedule, lane).value;
      v.bodies == (if t.delay < 1 then 1 else t.delay) && Val(v, t.group) == 1
  {
    NotBusyMeansDone(s, schedule, lane, initial, t.group);
    var d := lane(t.group);
    assert [t][..0] == [];
    assert RoundsLeft([t], 0) == Rounds(t) && Live([t], 0, t.group) == 1;
    assert s.lanes[d].log == [t] && Executed(s.lanes[d]) == 0;
    assert forall e :: 0 <= e < |s.lanes| && e != d ==> LaneRounds(s.lanes)[e] == 0;
    SumOfOne(LaneRounds(s.lanes), d);
  }

  /** While a task is queued, its dispatcher can go on; with RoundsStep, busy() ends up false. */
  lemma NeverStuck(s: State, lane: nat -> nat, d: nat)
    requires Placed(s, lane) && d < |s.lanes| && s.lanes[d].popped < |s.lanes[d].log|
    ensures Enabled(s, Begin(d), lane) || Enabled(s, Body(d), lane) || Enabled(s, Remove(d), lane)
  {
    assert lane(s.lanes[d].log[s.lanes[d].popped].group) == d;
  }
}
