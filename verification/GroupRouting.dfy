/** lib/mp_event_dispatcher.cc: n event dispatchers, every task group pinned to one of them. */
module GroupRouting {
  import opened Wrappers
  import opened Arithmetic
  import opened Sequences
  import ED = EventDispatcher

  type GroupId = ED.GroupId
  type Task = ED.Task

  // ---- routing ----

  /** taskIDTable_ and roundRobinToken_, or the hash function of a build with USE_HASHING. */
  datatype Routing = RoundRobin(table: map<GroupId, nat>, token: nat) | Hashed(hash: GroupId -> nat)

  /** The critical section of enqueueTask, lib/mp_event_dispatcher.cc:33-54. */
  function Route(r: Routing, g: GroupId, n: nat): (Routing, nat)
    requires n > 0
  {
    match r
    case Hashed(hash) => (r, hash(g) % n)
    case RoundRobin(table, token) =>
      if g in table then (r, table[g])
      else (RoundRobin(table[g := token], if token + 1 >= n then 0 else token + 1), token)
  }

  predicate Assigned(r: Routing, g: GroupId, n: nat, d: nat)
    requires n > 0
  {
    match r
    case Hashed(hash) => hash(g) % n == d
    case RoundRobin(table, _) => g in table && table[g] == d
  }

  /** A group is assigned by its first task, and no later task of any group changes that. */
  lemma RouteAssigns(r: Routing, g: GroupId, n: nat)
    requires n > 0
    ensures Assigned(Route(r, g, n).0, g, n, Route(r, g, n).1)
    ensures forall h, d :: Assigned(r, h, n, d) ==> Assigned(Route(r, g, n).0, h, n, d)
    ensures forall d :: Assigned(r, g, n, d) ==> Route(r, g, n).1 == d
  {
  }

  /** The groups in `order`, in the order their first tasks came, have been dealt out in turn. */
  ghost predicate Dealt(r: Routing, n: nat, order: seq<GroupId>) {
    && n > 0 && r.RoundRobin?
    && Distinct(order)
    && (forall g :: g in r.table <==> g in order)
    && (forall j :: 0 <= j < |order| ==> order[j] in r.table && r.table[order[j]] == j % n)
    && r.token == |order| % n
  }

  /** The j-th new group goes to dispatcher j mod n and roundRobinToken_ stays in step. */
  lemma DealtStep(r: Routing, n: nat, order: seq<GroupId>, g: GroupId)
    requires Dealt(r, n, order)
    ensures Dealt(Route(r, g, n).0, n, if g in order then order else order + [g])
    ensures g !in order ==> Route(r, g, n).1 == |order| % n
    ensures Route(r, g, n).1 < n
  {
    if g !in order {
      NextTurn(|order|, n);
      AppendDistinct(order, g);
      var next := order + [g];
      forall h
        ensures h in Route(r, g, n).0.table <==> h in next
      {
      }
    } else {
      var j :| 0 <= j < |order| && order[j] == g;
    }
  }

  /** How many of the first m groups dispatcher d got. */
  function Share(m: nat, n: nat, d: nat): nat
    requires n > 0
  {
    if m == 0 then 0 else Share(m - 1, n, d) + if (m - 1) % n == d then 1 else 0
  }

  lemma {:induction false} ShareIs(m: nat, n: nat, d: nat)
    requires d < n
    ensures Share(m, n, d) == m / n + if d < m % n then 1 else 0
  {
    if m > 0 {
      ShareIs(m - 1, n, d);
      NextTurn(m - 1, n);
    } else {
      DivMod(0, n, 0, 0);
    }
  }

  /** The groups that the table sends to dispatcher d. */
  ghost function GroupsOf(r: Routing, d: nat): set<GroupId>
    requires r.RoundRobin?
  {
    set g | g in r.table && r.table[g] == d
  }

  /** The routing before the last group was dealt. */
  lemma DealtBefore(r: Routing, n: nat, order: seq<GroupId>) returns (before: Routing)
    requires Dealt(r, n, order) && order != []
    ensures var last := |order| - 1;
      && Dealt(before, n, order[..last])
      && before.table == r.table - {order[last]}
  {
    var last := |order| - 1;
    before := RoundRobin(r.table - {order[last]}, last % n);
    RemoveDistinct(order, last);
    assert RemoveAt(order, last) == order[..last];
    assert forall g :: g in order <==> g == order[last] || g in order[..last];
  }

  lemma GroupsOfOneMore(r: Routing, before: Routing, g: GroupId, d: nat)
    requires r.RoundRobin? && before.RoundRobin? && g in r.table && before.table == r.table - {g}
    ensures |GroupsOf(r, d)| == |GroupsOf(before, d)| + if r.table[g] == d then 1 else 0
  {
    if r.table[g] == d {
      assert GroupsOf(r, d) == GroupsOf(before, d) + {g};
    } else {
      assert GroupsOf(r, d) == GroupsOf(before, d);
    }
  }

  lemma {:induction false} GroupsOfShare(r: Routing, n: nat, order: seq<GroupId>, d: nat)
    requires Dealt(r, n, order)
    ensures |GroupsOf(r, d)| == Share(|order|, n, d)
    decreases |order|
  {
    if order == [] {
      assert GroupsOf(r, d) == {};
    } else {
      var last := |order| - 1;
      var before := DealtBefore(r, n, order);
      GroupsOfShare(before, n, order[..last], d);
      GroupsOfOneMore(r, before, order[last], d);
    }
  }

  /** No dispatcher has more than one group more than another. */
  lemma Balanced(r: Routing, n: nat, order: seq<GroupId>, c: nat, d: nat)
    requires Dealt(r, n, order) && c < n && d < n
    ensures |GroupsOf(r, c)| <= |GroupsOf(r, d)| + 1
  {
    GroupsOfShare(r, n, order, c);
    GroupsOfShare(r, n, order, d);
    ShareIs(|order|, n, c);
    ShareIs(|order|, n, d);
  }

  class MPEventDispatcher {
    const concurrentTaskCount: nat
    var taskIDTable: map<GroupId, nat>
    var roundRobinToken: nat

    ghost function Value(): Routing
      reads this
    {
      RoundRobin(taskIDTable, roundRobinToken)
    }

    constructor (concurrentTaskCount: nat)
      ensures Value() == RoundRobin(map[], 0) && this.concurrentTaskCount == concurrentTaskCount
      ensures concurrentTaskCount > 0 ==> Dealt(Value(), concurrentTaskCount, [])
    {
      this.concurrentTaskCount := concurrentTaskCount;
      taskIDTable, roundRobinToken := map[], 0;
    }

    /** The destination of a task of group `id`; the two mutexes make this one step. */
    method Destination(id: GroupId, ghost order: seq<GroupId>) returns (taskDestination: nat)
      requires Dealt(Value(), concurrentTaskCount, order)
      modifies this
      ensures (Value(), taskDestination) == Route(old(Value()), id, concurrentTaskCount)
      ensures taskDestination < concurrentTaskCount
      ensures Dealt(Value(), concurrentTaskCount, if id in order then order else order + [id])
    {
      DealtStep(Value(), concurrentTaskCount, order, id);
      if id in taskIDTable {
        taskDestination := taskIDTable[id];
      } else {
        taskIDTable := taskIDTable[id := roundRobinToken];
        taskDestination := roundRobinToken;
        roundRobinToken := roundRobinToken + 1;
        if roundRobinToken >= concurrentTaskCount {
          roundRobinToken := 0;
        }
      }
    }
  }

  // ---- the n dispatchers together ----

  /** Entries of the two logs are tagged with the dispatcher that accepted or started the task. */
  datatype State = State(
    d: seq<ED.State>,
    routing: Routing,
    calls: set<(Task, nat)>,     // routed, not yet inside enqueueTask of their dispatcher
    offered: set<Task>,          // tasks passed to MPEventDispatcher::enqueueTask
    accepted: seq<(nat, Task)>,  // pushed, across all dispatchers
    started: seq<(nat, Task)>)   // run, across all dispatchers

  datatype Action =
    | Call(task: Task)                 // MPEventDispatcher::enqueueTask before it calls its dispatcher's, by any thread
    | At(i: nat, step: ED.Action)      // a step of dispatcher i

  function Initial(n: nat, routing: Routing): State {
    State(seq(n, i => ED.INITIAL), routing, {}, {}, [], [])
  }

  predicate Enabled(s: State, a: Action) {
    match a
    case Call(task) => task !in s.offered && |s.d| > 0
    case At(i, step) =>
      && i < |s.d| && ED.Enabled(s.d[i], step) && !ED.Faults(s.d[i], step)
      && (step.EnqueueLock? ==> step.task.Some? && (step.task.value, i) in s.calls)
  }

  function Apply(s: State, a: Action): State
    requires Enabled(s, a)
  {
    match a
    case Call(task) =>
      var (routing, dest) := Route(s.routing, task.group, |s.d|);
      s.(routing := routing, calls := s.calls + {(task, dest)}, offered := s.offered + {task})
    case At(i, step) =>
      var d := s.d[i];
      s.(d := s.d[i := ED.Apply(d, step)],
         calls := if step.EnqueueLock? then s.calls - {(step.task.value, i)} else s.calls,
         accepted := if step.EnqueuePush? then s.accepted + [(i, d.lock.task.value)] else s.accepted,
         started := if step.LoopDecide? && !d.dying then s.started + [(i, d.loop.t)] else s.started)
  }

  function OfDispatcher(log: seq<(nat, Task)>, i: nat): seq<Task> {
    if log == [] then [] else
      var last := log[|log| - 1];
      OfDispatcher(log[..|log| - 1], i) + if last.0 == i then [last.1] else []
  }

  function OfGroup(tasks: seq<Task>, g: GroupId): seq<Task> {
    if tasks == [] then [] else
      var last := tasks[|tasks| - 1];
      OfGroup(tasks[..|tasks| - 1], g) + if last.group == g then [last] else []
  }

  function Untagged(log: seq<(nat, Task)>): (r: seq<Task>)
    ensures |r| == |log|
    ensures forall i :: 0 <= i < |r| ==> r[i] == log[i].1
  {
    seq(|log|, i requires 0 <= i < |log| => log[i].1)
  }

  ghost predicate Pinned(s: State) {
    && |s.d| > 0
    && (forall i :: 0 <= i < |s.d| ==> ED.Invariant(s.d[i]))
    && (forall i, t :: 0 <= i < |s.d| && t in s.d[i].offered ==> Assigned(s.routing, t.group, |s.d|, i))
    && (forall c :: c in s.calls ==> Assigned(s.routing, c.0.group, |s.d|, c.1))
  }

  /** The tagged logs are the dispatchers' own logs, interleaved. */
  ghost predicate Logged(s: State) {
    && (forall i :: 0 <= i < |s.d| ==>
          OfDispatcher(s.accepted, i) == s.d[i].accepted && OfDispatcher(s.started, i) == s.d[i].started)
    && (forall e :: e in s.accepted ==> e.0 < |s.d|)
    && (forall e :: e in s.started ==> e.0 < |s.d|)
  }

  lemma InitialPinned(n: nat, routing: Routing)
    requires n > 0
    ensures Pinned(Initial(n, routing)) && Logged(Initial(n, routing))
  {
    ED.InitialInvariant();
  }

  lemma CallPinned(s: State, task: Task)
    requires Pinned(s) && Enabled(s, Call(task))
    ensures Pinned(Apply(s, Call(task)))
  {
    RouteAssigns(s.routing, task.group, |s.d|);
  }

  lemma AtPinned(s: State, i: nat, step: ED.Action)
    requires Pinned(s) && Enabled(s, At(i, step))
    ensures Pinned(Apply(s, At(i, step)))
  {
    var v := Apply(s, At(i, step));
    ED.InvariantStep(s.d[i], step);
    OfferedAfter(s.d[i], step);
    forall k, t | 0 <= k < |v.d| && t in v.d[k].offered
      ensures Assigned(v.routing, t.group, |v.d|, k)
    {
      assert k == i && t !in s.d[i].offered ==> (t, i) in s.calls;
    }
  }

  lemma OfferedAfter(s: ED.State, step: ED.Action)
    requires ED.Enabled(s, step) && !ED.Faults(s, step)
    ensures ED.Apply(s, step).offered
         == s.offered + if step.EnqueueLock? && step.task.Some? then {step.task.value} else {}
  {
  }

  lemma PinnedStep(s: State, a: Action)
    requires Pinned(s) && Enabled(s, a)
    ensures Pinned(Apply(s, a))
  {
    match a
    case Call(task) => CallPinned(s, task);
    case At(i, step) => AtPinned(s, i, step);
  }

  lemma LogAppend(log: seq<(nat, Task)>, e: (nat, Task), k: nat)
    ensures OfDispatcher(log + [e], k) == OfDispatcher(log, k) + if e.0 == k then [e.1] else []
  {
    assert (log + [e])[..|log|] == log;
  }

  lemma AcceptedAt(s: State, i: nat, step: ED.Action, k: nat)
    requires Enabled(s, At(i, step)) && k < |s.d| && OfDispatcher(s.accepted, k) == s.d[k].accepted
    ensures var v := Apply(s, At(i, step)); OfDispatcher(v.accepted, k) == v.d[k].accepted
  {
    if step.EnqueuePush? {
      LogAppend(s.accepted, (i, s.d[i].lock.task.value), k);
    }
  }

  lemma StartedAt(s: State, i: nat, step: ED.Action, k: nat)
    requires Enabled(s, At(i, step)) && k < |s.d| && OfDispatcher(s.started, k) == s.d[k].started
    ensures var v := Apply(s, At(i, step)); OfDispatcher(v.started, k) == v.d[k].started
  {
    if step.LoopDecide? && !s.d[i].dying {
      LogAppend(s.started, (i, s.d[i].loop.t), k);
    }
  }

  lemma LoggedStep(s: State, a: Action)
    requires Logged(s) && Enabled(s, a)
    ensures Logged(Apply(s, a))
  {
    if a.At? {
      var v := Apply(s, a);
      forall k | 0 <= k < |v.d|
        ensures OfDispatcher(v.accepted, k) == v.d[k].accepted && OfDispatcher(v.started, k) == v.d[k].started
      {
        AcceptedAt(s, a.i, a.step, k);
        StartedAt(s, a.i, a.step, k);
      }
    }
  }

  function Run(s: State, schedule: seq<Action>): Option<State> {
    if schedule == [] then Some(s) else
      var last := |schedule| - 1;
      var before := Run(s, schedule[..last]);
      if before.Some? && Enabled(before.value, schedule[last]) then Some(Apply(before.value, schedule[last])) else None
  }

  lemma {:induction false} RunPinned(s: State, schedule: seq<Action>)
    requires Pinned(s) && Logged(s) && Run(s, schedule).Some?
    ensures Pinned(Run(s, schedule).value) && Logged(Run(s, schedule).value)
  {
    if schedule != [] {
      var last := |schedule| - 1;
      RunPinned(s, schedule[..last]);
      PinnedStep(Run(s, schedule[..last]).value, schedule[last]);
      LoggedStep(Run(s, schedule[..last]).value, schedule[last]);
    }
  }

  /** The groups of the tasks enqueued, each where it came first. */
  function Arrivals(schedule: seq<Action>): seq<GroupId> {
    if schedule == [] then [] else Arrive(Arrivals(schedule[..|schedule| - 1]), schedule[|schedule| - 1])
  }

  function Arrive(before: seq<GroupId>, a: Action): seq<GroupId> {
    if a.Call? && a.task.group !in before then before + [a.task.group] else before
  }

  lemma StepDealt(s: State, a: Action, order: seq<GroupId>)
    requires Enabled(s, a) && Dealt(s.routing, |s.d|, order)
    ensures |Apply(s, a).d| == |s.d| && Dealt(Apply(s, a).routing, |s.d|, Arrive(order, a))
  {
    if a.Call? {
      DealtStep(s.routing, |s.d|, order, a.task.group);
    }
  }

  lemma {:induction false} RunDealt(n: nat, schedule: seq<Action>)
    requires n > 0 && Run(Initial(n, RoundRobin(map[], 0)), schedule).Some?
    ensures var s := Run(Initial(n, RoundRobin(map[], 0)), schedule).value;
      |s.d| == n && Dealt(s.routing, n, Arrivals(schedule))
  {
    if schedule != [] {
      var last := |schedule| - 1;
      RunDealt(n, schedule[..last]);
      var u := Run(Initial(n, RoundRobin(map[], 0)), schedule[..last]).value;
      StepDealt(u, schedule[last], Arrivals(schedule[..last]));
    }
  }

  /** After every schedule of the round-robin build: the j-th group to come is on dispatcher j mod n, and any two
      dispatchers' numbers of groups differ by at most one. */
  lemma RunBalanced(n: nat, schedule: seq<Action>, c: nat, d: nat)
    requires n > 0 && Run(Initial(n, RoundRobin(map[], 0)), schedule).Some? && c < n && d < n
    ensures var r := Run(Initial(n, RoundRobin(map[], 0)), schedule).value.routing;
      && r.RoundRobin? && r.table.Keys == (set g | g in Arrivals(schedule))
      && (forall j :: 0 <= j < |Arrivals(schedule)| ==> r.table[Arrivals(schedule)[j]] == j % n)
      && |GroupsOf(r, c)| <= |GroupsOf(r, d)| + 1
  {
    RunDealt(n, schedule);
    Balanced(Run(Initial(n, RoundRobin(map[], 0)), schedule).value.routing, n, Arrivals(schedule), c, d);
  }

  /** Tasks of one group are all accepted by one dispatcher. */
  lemma AcceptedWhereAssigned(s: ED.State, t: Task)
    requires ED.Invariant(s) && t in s.accepted
    ensures t in s.offered
  {
    assert ED.OfferedOnce(s, t);
    assert Times(s.accepted, t) > 0;
  }

  lemma {:induction false} InDispatcherLog(log: seq<(nat, Task)>, e: (nat, Task))
    requires e in log
    ensures e.1 in OfDispatcher(log, e.0)
  {
    var last := |log| - 1;
    if log[last] != e {
      assert e in log[..last];
      InDispatcherLog(log[..last], e);
    }
  }

  lemma {:induction false} GroupInOneDispatcher(log: seq<(nat, Task)>, g: GroupId, i: nat)
    requires forall e :: e in log && e.1.group == g ==> e.0 == i
    ensures OfGroup(Untagged(log), g) == OfGroup(OfDispatcher(log, i), g)
  {
    if log != [] {
      var last := |log| - 1;
      var init := log[..last];
      GroupInOneDispatcher(init, g, i);
      assert Untagged(log)[..last] == Untagged(init);
      var lane := OfDispatcher(log, i);
      if log[last].0 == i {
        assert lane[..|lane| - 1] == OfDispatcher(init, i);
      } else {
        assert lane == OfDispatcher(init, i);
      }
    }
  }

  lemma {:induction false} GroupOfPrefix(a: seq<Task>, b: seq<Task>, g: GroupId)
    requires a <= b
    ensures OfGroup(a, g) <= OfGroup(b, g)
    decreases |b|
  {
    if a == b {
    } else {
      var init := b[..|b| - 1];
      assert a <= init;
      GroupOfPrefix(a, init, g);
    }
  }

  /** Each group is executed in the order its tasks were accepted, however many dispatchers there are. */
  lemma GroupsInOrder(s: State, g: GroupId)
    requires Pinned(s) && Logged(s)
    ensures OfGroup(Untagged(s.started), g) <= OfGroup(Untagged(s.accepted), g)
  {
    if e :| e in s.accepted + s.started && e.1.group == g {
      var i := e.0;
      LogsWhereAssigned(s, g);
      LogOnOneDispatcher(s, g, i, e);
      GroupInOneDispatcher(s.accepted, g, i);
      GroupInOneDispatcher(s.started, g, i);
      GroupOfPrefix(s.d[i].started, s.d[i].accepted, g);
    } else {
      GroupInOneDispatcher(s.accepted, g, 0);
      GroupInOneDispatcher(s.started, g, 0);
      GroupOfPrefix(s.d[0].started, s.d[0].accepted, g);
    }
  }

  lemma LogsWhereAssigned(s: State, g: GroupId)
    requires Pinned(s) && Logged(s)
    ensures forall e :: e in s.accepted + s.started && e.1.group == g ==>
      e.0 < |s.d| && Assigned(s.routing, g, |s.d|, e.0)
  {
    forall e | e in s.accepted + s.started && e.1.group == g
      ensures e.0 < |s.d| && Assigned(s.routing, g, |s.d|, e.0)
    {
      var d := s.d[e.0];
      if e in s.accepted {
        InDispatcherLog(s.accepted, e);
      } else {
        InDispatcherLog(s.started, e);
        assert d.started <= d.accepted;
      }
      AcceptedWhereAssigned(d, e.1);
    }
  }

  lemma LogOnOneDispatcher(s: State, g: GroupId, i: nat, e: (nat, Task))
    requires |s.d| > 0
    requires forall x :: x in s.accepted + s.started && x.1.group == g ==>
      x.0 < |s.d| && Assigned(s.routing, g, |s.d|, x.0)
    requires e in s.accepted + s.started && e.1.group == g && e.0 == i
    ensures forall x :: x in s.accepted && x.1.group == g ==> x.0 == i
    ensures forall x :: x in s.started && x.1.group == g ==> x.0 == i
  {
    forall x | x in s.accepted + s.started && x.1.group == g
      ensures x.0 == i
    {
    }
    assert forall x :: x in s.accepted ==> x in s.accepted + s.started;
    assert forall x :: x in s.started ==> x in s.accepted + s.started;
  }

  predicate RunsGroup(s: State, i: nat, g: GroupId) {
    i < |s.d| && s.d[i].loop.Running? && s.d[i].loop.t.group == g
  }

  /** Two tasks of one group never run at the same time. */
  lemma GroupsExclusive(s: State, i: nat, j: nat, g: GroupId)
    requires Pinned(s) && RunsGroup(s, i, g) && RunsGroup(s, j, g)
    ensures i == j
  {
    RunningIsOffered(s.d[i]);
    RunningIsOffered(s.d[j]);
  }

  lemma RunningIsOffered(s: ED.State)
    requires ED.Invariant(s) && s.loop.Running?
    ensures s.loop.t in s.offered
  {
    assert s.loop.t in s.queue;
    assert s.loop.t in s.accepted;
    AcceptedWhereAssigned(s, s.loop.t);
  }

  /** Both hold after every schedule, whichever routing the build chose. */
  lemma GroupGuarantee(n: nat, routing: Routing, schedule: seq<Action>, g: GroupId)
    requires n > 0 && Run(Initial(n, routing), schedule).Some?
    ensures var s := Run(Initial(n, routing), schedule).value;
      && OfGroup(Untagged(s.started), g) <= OfGroup(Untagged(s.accepted), g)
      && forall i, j :: RunsGroup(s, i, g) && RunsGroup(s, j, g) ==> i == j
  {
    InitialPinned(n, routing);
    RunPinned(Initial(n, routing), schedule);
    var s := Run(Initial(n, routing), schedule).value;
    GroupsInOrder(s, g);
    forall i, j | RunsGroup(s, i, g) && RunsGroup(s, j, g)
      ensures i == j
    {
      GroupsExclusive(s, i, j, g);
    }
  }

  lemma {:induction false} RunKeepsHash(n: nat, hash: GroupId -> nat, schedule: seq<Action>)
    requires n > 0 && Run(Initial(n, Hashed(hash)), schedule).Some?
    ensures var s := Run(Initial(n, Hashed(hash)), schedule).value; s.routing == Hashed(hash) && |s.d| == n
  {
    if schedule != [] {
      RunKeepsHash(n, hash, schedule[..|schedule| - 1]);
    }
  }

  /** Where tasks go: with hashing to dispatcher hash(group) mod n, with the table to the one the table names. */
  lemma AcceptedWhere(n: nat, routing: Routing, schedule: seq<Action>, i: nat, t: Task)
    requires n > 0 && Run(Initial(n, routing), schedule).Some?
    requires var s := Run(Initial(n, routing), schedule).value; i < |s.d| && t in s.d[i].accepted
    ensures routing.Hashed? ==> i == routing.hash(t.group) % n
    ensures var r := Run(Initial(n, routing), schedule).value.routing;
      r.RoundRobin? ==> t.group in r.table && i == r.table[t.group]
  {
    InitialPinned(n, routing);
    RunPinned(Initial(n, routing), schedule);
    var s := Run(Initial(n, routing), schedule).value;
    AcceptedWhereAssigned(s.d[i], t);
    if routing.Hashed? {
      RunKeepsHash(n, routing.hash, schedule);
    }
  }

  lemma RunNext(s: State, schedule: seq<Action>, a: Action)
    requires Run(s, schedule).Some? && Enabled(Run(s, schedule).value, a)
    ensures Run(s, schedule + [a]) == Some(Apply(Run(s, schedule).value, a))
  {
    assert (schedule + [a])[..|schedule|] == schedule;
  }

  /** The dispatcher of the next task of group g: the table's, or the token's for a group not seen before. */
  function Goes(r: Routing, g: GroupId, n: nat): nat
    requires n > 0
  {
    match r
    case Hashed(hash) => hash(g) % n
    case RoundRobin(table, token) => if g in table then table[g] else token
  }

  /** A new task that is offered gets through to that dispatcher, if the dispatcher is not stopped and its queue
      is free, and is the last task accepted there. */
  lemma CallGetsThrough(s: State, t: Task)
    requires Pinned(s) && t !in s.offered && Goes(s.routing, t.group, |s.d|) < |s.d|
    requires var d := s.d[Goes(s.routing, t.group, |s.d|)]; d.lock == ED.Free && !d.stopped && t !in d.offered
    ensures var i := Goes(s.routing, t.group, |s.d|);
      var offer := At(i, ED.EnqueueLock(Some(t), false));
      var v := Run(s, [Call(t)] + [offer] + [At(i, ED.EnqueueTest)] + [At(i, ED.EnqueuePush)]);
      v.Some? && v.value.accepted == s.accepted + [(i, t)] && v.value.d[i].accepted == s.d[i].accepted + [t]
  {
    var i := Goes(s.routing, t.group, |s.d|);
    var offer := At(i, ED.EnqueueLock(Some(t), false));
    assert Run(s, []) == Some(s);
    assert [] + [Call(t)] == [Call(t)];
    RunNext(s, [], Call(t));
    RunNext(s, [Call(t)], offer);
    RunNext(s, [Call(t)] + [offer], At(i, ED.EnqueueTest));
    RunNext(s, [Call(t)] + [offer] + [At(i, ED.EnqueueTest)], At(i, ED.EnqueuePush));
  }
}
