/** test/benchmark/word_count.cc over n dispatchers, each seen as a Lane.  A map task emits its reduce tasks
    and then one checkpoint task per group; a reduce is a read and a separate write of its cell; the
    main thread waits on a semaphore that starts at 1 - S*S. */
module WordCount {
  import opened Wrappers
  import opened Arithmetic
  import opened Lanes
  import opened Sequences

  const UINT32: nat := 0x1_0000_0000

  /** x of Reduce is the index of a word; p is the map task that emits. */
  datatype Task = Map(p: nat) | Reduce(p: nat, x: nat) | Check(p: nat, x: nat)

  /** splitCount, splitSize, randChars, and where each task group's lane is. */
  datatype Job = Job(S: nat, size: nat, words: seq<nat>, n: nat, lane: nat -> nat)

  type Cell = (nat, nat) // a CountBlock and an offset in it

  ghost predicate ValidJob(j: Job) {
    && 0 < j.S < UINT32 && 0 < j.size
    && (forall x :: 0 <= x < |j.words| ==> j.words[x] / j.size < j.S)
    && (forall g :: 0 <= g < j.S ==> j.lane(g) < j.n)
  }

  /** wordsPerSplit */
  function Split(j: Job): nat
    requires ValidJob(j)
  {
    |j.words| / j.S
  }

  /** The first word of map p: `start` after p rounds of doTest's loop. */
  function First(j: Job, p: nat): nat
    requires ValidJob(j)
  {
    p * Split(j)
  }

  function CellOf(j: Job, word: nat): Cell
    requires ValidJob(j)
  {
    (word / j.size, word % j.size)
  }

  function Group(j: Job, t: Task): nat
    requires ValidJob(j)
  {
    match t
    case Map(p) => p
    case Reduce(_, x) => if x < |j.words| then CellOf(j, j.words[x]).0 else 0
    case Check(_, x) => x
  }

  function LaneOf(j: Job, t: Task): nat
    requires ValidJob(j)
  {
    j.lane(Group(j, t))
  }

  /** The i-th task that map p enqueues. */
  function Item(j: Job, p: nat, i: nat): Task
    requires ValidJob(j)
  {
    if i < Split(j) then Reduce(p, First(j, p) + i) else Check(p, i - Split(j))
  }

  /** How many tasks a map enqueues. */
  function Items(j: Job): nat
    requires ValidJob(j)
  {
    Split(j) + j.S
  }

  /** The loop that gives each map task its words, with its running start and end. */
  method DealSplits(j: Job) returns (splits: seq<(nat, nat)>)
    requires ValidJob(j)
    ensures |splits| == j.S
    ensures forall p :: 0 <= p < j.S ==> splits[p] == (First(j, p), First(j, p) + Split(j))
  {
    splits := [];
    var start, end := 0, Split(j);
    for p := 0 to j.S
      invariant |splits| == p && start == First(j, p) && end == start + Split(j)
      invariant forall q :: 0 <= q < p ==> splits[q] == (First(j, q), First(j, q) + Split(j))
    {
      splits := splits + [(start, end)];
      start := end;
      end := end + Split(j);
      assert (p + 1) * Split(j) == p * Split(j) + Split(j);
    }
  }

  /** map's two loops: the tasks it enqueues, in order. */
  method MapTasks(j: Job, p: nat, start: nat, end: nat) returns (tasks: seq<Task>)
    requires ValidJob(j) && p < j.S && start == First(j, p) && end == start + Split(j)
    ensures |tasks| == Items(j) && forall i :: 0 <= i < |tasks| ==> tasks[i] == Item(j, p, i)
  {
    tasks := [];
    for x := start to end
      invariant |tasks| == x - start
      invariant forall i :: 0 <= i < |tasks| ==> tasks[i] == Item(j, p, i)
    {
      tasks := tasks + [Reduce(p, x)];
    }
    for x := 0 to j.S
      invariant |tasks| == Split(j) + x
      invariant forall i :: 0 <= i < |tasks| ==> tasks[i] == Item(j, p, i)
    {
      tasks := tasks + [Check(p, x)];
    }
  }

  datatype State = State(
    lanes: seq<Lane<Task>>,
    reg: seq<Option<nat>>,   // per lane: what its reduce has read and not yet written back
    launched: nat,           // map tasks the main thread has enqueued
    emitted: seq<nat>,       // per map: how many of its tasks it has enqueued
    cells: map<Cell, nat>,   // the CountBlocks; a cell never written holds 0
    sem: int,
    returned: bool,          // taskDoneSem.down() has returned
    reduced: set<nat>,       // words whose reduce has been executed
    checked: set<(nat, nat)>)// checkpoints executed

  function Initial(j: Job): State
    requires ValidJob(j)
  {
    State(seq(j.n, i => Lane([], 0, Idle)), seq(j.n, i => None), 0, seq(j.S, i => 0), map[],
          1 - j.S * j.S, false, {}, {})
  }

  /** A cell that was never incremented holds 0. */
  function At(cells: map<Cell, nat>, c: Cell): nat {
    if c in cells then cells[c] else 0
  }

  function Get(s: State, c: Cell): nat {
    At(s.cells, c)
  }

  datatype Action =
    | Launch | Down                       // the main thread
    | Begin(d: nat) | Remove(d: nat)      // the loop of lane d: start its front task, pop it
    | Emit(d: nat) | MapEnd(d: nat)       // lane d runs a map task
    | Read(d: nat) | Write(d: nat)        // lane d runs a reduce task
    | Up(d: nat)                          // lane d runs a checkpoint task

  predicate RunsOn(s: State, d: nat) {
    d < |s.lanes| && d < |s.reg| && s.lanes[d].front == Running && s.lanes[d].popped < |s.lanes[d].log|
  }

  function Current(s: State, d: nat): Task
    requires RunsOn(s, d)
  {
    s.lanes[d].log[s.lanes[d].popped]
  }

  predicate Enabled(j: Job, s: State, a: Action)
    requires ValidJob(j)
  {
    match a
    case Launch => s.launched < j.S && j.lane(s.launched) < |s.lanes|
    case Down => s.launched == j.S && s.sem > 0 && !s.returned
    case Begin(d) => d < |s.lanes| && CanStart(s.lanes[d])
    case Remove(d) => d < |s.lanes| && s.lanes[d].front == Done
    case Emit(d) =>
      && RunsOn(s, d) && Current(s, d).Map? && Current(s, d).p < |s.emitted|
      && s.emitted[Current(s, d).p] < Items(j)
      && LaneOf(j, Item(j, Current(s, d).p, s.emitted[Current(s, d).p])) < |s.lanes|
    case MapEnd(d) =>
      && RunsOn(s, d) && Current(s, d).Map? && Current(s, d).p < |s.emitted|
      && s.emitted[Current(s, d).p] >= Items(j)
    case Read(d) =>
      RunsOn(s, d) && Current(s, d).Reduce? && Current(s, d).x < |j.words| && s.reg[d].None?
    case Write(d) =>
      RunsOn(s, d) && Current(s, d).Reduce? && Current(s, d).x < |j.words| && s.reg[d].Some?
    case Up(d) => RunsOn(s, d) && Current(s, d).Check?
  }

  function Apply(j: Job, s: State, a: Action): State
    requires ValidJob(j) && Enabled(j, s, a)
  {
    match a
    case Launch =>
      var d := j.lane(s.launched);
      s.(lanes := s.lanes[d := Push(s.lanes[d], Map(s.launched))], launched := s.launched + 1)
    case Down => s.(sem := s.sem - 1, returned := true)
    case Begin(d) => s.(lanes := s.lanes[d := Start(s.lanes[d])])
    case Remove(d) => s.(lanes := s.lanes[d := Pop(s.lanes[d])])
    case Emit(d) =>
      var p := Current(s, d).p;
      var item := Item(j, p, s.emitted[p]);
      var e := LaneOf(j, item);
      s.(lanes := s.lanes[e := Push(s.lanes[e], item)], emitted := s.emitted[p := s.emitted[p] + 1])
    case MapEnd(d) => s.(lanes := s.lanes[d := Finish(s.lanes[d])])
    case Read(d) =>
      s.(reg := s.reg[d := Some(Get(s, CellOf(j, j.words[Current(s, d).x])))])
    case Write(d) =>
      var x := Current(s, d).x;
      s.(lanes := s.lanes[d := Finish(s.lanes[d])], reg := s.reg[d := None],
         cells := s.cells[CellOf(j, j.words[x]) := (s.reg[d].value + 1) % UINT32],
         reduced := s.reduced + {x})
    case Up(d) =>
      s.(lanes := s.lanes[d := Finish(s.lanes[d])], sem := s.sem + 1,
         checked := s.checked + {(Current(s, d).p, Current(s, d).x)})
  }

  // ---- the invariant, in parts ----

  /** How far task t comes in the order in which its map enqueues; all maps themselves come in order. */
  function Index(j: Job, t: Task): int
    requires ValidJob(j)
  {
    match t
    case Map(p) => p
    case Reduce(p, x) => x - First(j, p)
    case Check(p, x) => Split(j) + x
  }

  /** t has been enqueued. */
  predicate Issued(j: Job, s: State, t: Task)
    requires ValidJob(j)
  {
    match t
    case Map(p) => p < s.launched
    case Reduce(p, x) =>
      p < |s.emitted| && First(j, p) <= x < First(j, p) + Split(j) && x - First(j, p) < s.emitted[p]
    case Check(p, x) => p < |s.emitted| && x < j.S && Split(j) + x < s.emitted[p]
  }

  predicate SameSource(t: Task, u: Task) {
    (t.Map? && u.Map?) || (!t.Map? && !u.Map? && t.p == u.p)
  }

  predicate Shape(j: Job, s: State)
    requires ValidJob(j)
  {
    && |s.lanes| == j.n && |s.reg| == j.n && |s.emitted| == j.S
    && s.launched <= j.S
    && (forall p :: 0 <= p < j.S ==> s.emitted[p] <= Items(j))
    && (forall d :: 0 <= d < j.n ==> Sound(s.lanes[d]))
  }

  /** The lanes hold exactly the issued tasks, each on the lane of its group. */
  ghost predicate Placed(j: Job, s: State)
    requires ValidJob(j)
  {
    && Shape(j, s)
    && (forall d, a :: 0 <= d < j.n && 0 <= a < |s.lanes[d].log| ==>
          Issued(j, s, s.lanes[d].log[a]) && LaneOf(j, s.lanes[d].log[a]) == d)
    && (forall t :: Issued(j, s, t) ==> LaneOf(j, t) < j.n && t in s.lanes[LaneOf(j, t)].log)
  }

  /** Tasks of one source lie in the order they were enqueued, each once. */
  ghost predicate Ordered(j: Job, s: State)
    requires ValidJob(j)
  {
    forall d, a, b :: 0 <= d < |s.lanes| && 0 <= a < b < |s.lanes[d].log| ==>
      InOrder(j, s.lanes[d].log[a], s.lanes[d].log[b])
  }

  predicate InOrder(j: Job, t: Task, u: Task)
    requires ValidJob(j)
  {
    SameSource(t, u) ==> Index(j, t) < Index(j, u)
  }

  /** What has been executed has had its effect. */
  ghost predicate Effective(j: Job, s: State)
    requires ValidJob(j)
  {
    && |s.emitted| == j.S
    && (forall d, a :: 0 <= d < |s.lanes| && 0 <= a < |s.lanes[d].log| && a < Executed(s.lanes[d]) ==>
          HasEffect(j, s, s.lanes[d].log[a]))
  }

  predicate HasEffect(j: Job, s: State, t: Task)
    requires ValidJob(j)
  {
    match t
    case Map(p) => p < |s.emitted| && s.emitted[p] == Items(j)
    case Reduce(_, x) => x in s.reduced
    case Check(p, x) => (p, x) in s.checked
  }

  ghost predicate WasExecuted(s: State, t: Task) {
    exists d, a :: 0 <= d < |s.lanes| && 0 <= a < |s.lanes[d].log| && a < Executed(s.lanes[d]) && s.lanes[d].log[a] == t
  }

  /** Nothing else has had an effect. */
  ghost predicate Grounded(s: State) {
    && (forall x :: x in s.reduced ==> exists p :: WasExecuted(s, Reduce(p, x)))
    && (forall c :: c in s.checked ==> WasExecuted(s, Check(c.0, c.1)))
  }

  ghost function Hits(j: Job, xs: set<nat>, c: Cell): set<nat>
    requires ValidJob(j)
  {
    set x | x in xs && x < |j.words| && CellOf(j, j.words[x]) == c
  }

  /** Each cell holds the number of its words already reduced, in a uint32_t; the semaphore counts checkpoints. */
  ghost predicate Tallied(j: Job, s: State)
    requires ValidJob(j)
  {
    && (forall c :: Get(s, c) == |Hits(j, s.reduced, c)| % UINT32)
    && s.sem == 1 - j.S * j.S + |s.checked| - (if s.returned then 1 else 0)
  }

  /** A reduce between its read and its write has read what the cell still holds. */
  ghost predicate Undisturbed(j: Job, s: State)
    requires ValidJob(j)
  {
    forall d :: 0 <= d < |s.reg| && s.reg[d].Some? ==>
      && RunsOn(s, d) && Current(s, d).Reduce? && Current(s, d).x < |j.words|
      && s.reg[d].value == Get(s, CellOf(j, j.words[Current(s, d).x]))
  }

  ghost predicate Invariant(j: Job, s: State)
    requires ValidJob(j)
  {
    Placed(j, s) && Ordered(j, s) && Effective(j, s) && Grounded(s) && Tallied(j, s) && Undisturbed(j, s)
  }

  lemma InitialInvariant(j: Job)
    requires ValidJob(j)
    ensures Invariant(j, Initial(j))
  {
    assert forall c :: Hits(j, {}, c) == {};
  }

  // ---- pushes ----

  /** One task more is issued and pushed on its lane. */
  ghost predicate Pushes(j: Job, s: State, v: State, t: Task)
    requires ValidJob(j)
  {
    var e := LaneOf(j, t);
    && e < |s.lanes|
    && v.lanes == s.lanes[e := Push(s.lanes[e], t)]
    && (forall u :: Issued(j, v, u) <==> Issued(j, s, u) || u == t)
  }

  lemma PushPlaced(j: Job, s: State, v: State, t: Task)
    requires ValidJob(j) && Placed(j, s) && Shape(j, v) && Pushes(j, s, v, t)
    ensures Placed(j, v)
  {
    var e := LaneOf(j, t);
    assert v.lanes[e].log[|s.lanes[e].log|] == t;
    forall u | Issued(j, v, u)
      ensures LaneOf(j, u) < j.n && u in v.lanes[LaneOf(j, u)].log
    {
      if u != t {
        assert u in s.lanes[LaneOf(j, u)].log;
      }
    }
  }

  lemma PushOrdered(j: Job, s: State, v: State, t: Task)
    requires ValidJob(j) && Placed(j, s) && Ordered(j, s) && Pushes(j, s, v, t)
    requires forall u :: Issued(j, s, u) ==> InOrder(j, u, t)
    ensures Ordered(j, v)
  {
  }

  lemma LaunchPushes(j: Job, s: State)
    requires ValidJob(j) && Placed(j, s) && Enabled(j, s, Launch)
    ensures Pushes(j, s, Apply(j, s, Launch), Map(s.launched))
    ensures forall u :: Issued(j, s, u) ==> InOrder(j, u, Map(s.launched))
  {
  }

  lemma EmitPushes(j: Job, s: State, d: nat)
    requires ValidJob(j) && Placed(j, s) && Enabled(j, s, Emit(d))
    ensures var p := Current(s, d).p;
      && Pushes(j, s, Apply(j, s, Emit(d)), Item(j, p, s.emitted[p]))
      && forall u :: Issued(j, s, u) ==> InOrder(j, u, Item(j, p, s.emitted[p]))
  {
    var p := Current(s, d).p;
    var i := s.emitted[p];
    var v := Apply(j, s, Emit(d));
    forall u
      ensures Issued(j, v, u) <==> Issued(j, s, u) || u == Item(j, p, i)
    {
    }
  }

  // ---- steps that push nothing ----

  ghost predicate SameLogs(s: State, v: State) {
    && |v.lanes| == |s.lanes| && v.launched == s.launched && v.emitted == s.emitted
    && (forall d :: 0 <= d < |s.lanes| ==> v.lanes[d].log == s.lanes[d].log)
  }

  lemma SameLogsPlaced(j: Job, s: State, v: State)
    requires ValidJob(j) && Placed(j, s) && Ordered(j, s) && Shape(j, v) && SameLogs(s, v)
    ensures Placed(j, v) && Ordered(j, v)
  {
    assert forall t :: Issued(j, v, t) <==> Issued(j, s, t);
  }

  lemma ShapeStep(j: Job, s: State, a: Action)
    requires ValidJob(j) && Shape(j, s) && Enabled(j, s, a)
    ensures Shape(j, Apply(j, s, a))
  {
  }

  lemma PlacedStep(j: Job, s: State, a: Action)
    requires ValidJob(j) && Placed(j, s) && Ordered(j, s) && Enabled(j, s, a)
    ensures Placed(j, Apply(j, s, a)) && Ordered(j, Apply(j, s, a))
  {
    ShapeStep(j, s, a);
    var v := Apply(j, s, a);
    match a
    case Launch =>
      LaunchPushes(j, s);
      PushPlaced(j, s, v, Map(s.launched));
      PushOrdered(j, s, v, Map(s.launched));
    case Emit(d) =>
      var item := Item(j, Current(s, d).p, s.emitted[Current(s, d).p]);
      EmitPushes(j, s, d);
      PushPlaced(j, s, v, item);
      PushOrdered(j, s, v, item);
    case _ =>
      SameLogsPlaced(j, s, v);
  }

  // ---- effects ----

  /** The words of different maps do not overlap. */
  lemma SplitsDisjoint(j: Job, p: nat, q: nat, x: nat)
    requires ValidJob(j)
    requires First(j, p) <= x < First(j, p) + Split(j) && First(j, q) <= x < First(j, q) + Split(j)
    ensures p == q
  {
    if p < q {
      Gap(q, p, Split(j));
    } else if q < p {
      Gap(p, q, Split(j));
    }
  }

  lemma DiffersFromEarlier(j: Job, s: State, d: nat, a: nat)
    requires ValidJob(j) && Ordered(j, s) && RunsOn(s, d) && a < s.lanes[d].popped
    ensures s.lanes[d].log[a] != Current(s, d)
  {
    assert InOrder(j, s.lanes[d].log[a], s.lanes[d].log[s.lanes[d].popped]);
  }

  /** The task being run has not been run before. */
  lemma FrontIsNew(j: Job, s: State, d: nat)
    requires ValidJob(j) && Placed(j, s) && Ordered(j, s) && RunsOn(s, d)
    ensures !WasExecuted(s, Current(s, d))
  {
    forall e, a | 0 <= e < |s.lanes| && 0 <= a < |s.lanes[e].log| && a < Executed(s.lanes[e])
      ensures s.lanes[e].log[a] != Current(s, d)
    {
      if e == d {
        DiffersFromEarlier(j, s, d, a);
      } else {
        assert LaneOf(j, s.lanes[e].log[a]) == e && LaneOf(j, Current(s, d)) == d;
      }
    }
  }

  lemma ReduceIsNew(j: Job, s: State, d: nat)
    requires ValidJob(j) && Placed(j, s) && Ordered(j, s) && Grounded(s)
    requires RunsOn(s, d) && Current(s, d).Reduce?
    ensures Current(s, d).x !in s.reduced
  {
    var t := Current(s, d);
    FrontIsNew(j, s, d);
    if t.x in s.reduced {
      var p :| WasExecuted(s, Reduce(p, t.x));
      assert Issued(j, s, t) && Issued(j, s, Reduce(p, t.x));
      SplitsDisjoint(j, p, t.p, t.x);
    }
  }

  lemma EffectiveStep(j: Job, s: State, a: Action)
    requires ValidJob(j) && Placed(j, s) && Effective(j, s) && Enabled(j, s, a)
    ensures Effective(j, Apply(j, s, a))
  {
    var v := Apply(j, s, a);
    forall d, i | 0 <= d < |v.lanes| && 0 <= i < |v.lanes[d].log| && i < Executed(v.lanes[d])
      ensures HasEffect(j, v, v.lanes[d].log[i])
    {
      EffectiveAt(j, s, a, d, i);
    }
  }

  lemma EffectiveBefore(j: Job, s: State, a: Action, d: nat, i: nat)
    requires ValidJob(j) && Shape(j, s) && Enabled(j, s, a)
    requires d < |s.lanes| && i < |s.lanes[d].log| && i < Executed(s.lanes[d]) && HasEffect(j, s, s.lanes[d].log[i])
    ensures var v := Apply(j, s, a); i < |v.lanes[d].log| && HasEffect(j, v, v.lanes[d].log[i])
  {
    LogGrows(j, s, a, d);
  }

  lemma LogGrows(j: Job, s: State, a: Action, d: nat)
    requires ValidJob(j) && Shape(j, s) && Enabled(j, s, a) && d < |s.lanes|
    ensures var v := Apply(j, s, a); d < |v.lanes| && s.lanes[d].log <= v.lanes[d].log
  {
  }

  /** The task that this step has executed. */
  lemma EffectiveNow(j: Job, s: State, a: Action, d: nat, i: nat)
    requires ValidJob(j) && Shape(j, s) && Enabled(j, s, a)
    requires var v := Apply(j, s, a); d < |v.lanes| && i < |v.lanes[d].log| && i < Executed(v.lanes[d])
    requires i >= Executed(s.lanes[d])
    ensures var v := Apply(j, s, a); HasEffect(j, v, v.lanes[d].log[i])
  {
    assert (a.MapEnd? || a.Write? || a.Up?) && a.d == d;
    assert Apply(j, s, a).lanes[d].log[i] == Current(s, d);
  }

  lemma EffectiveAt(j: Job, s: State, a: Action, d: nat, i: nat)
    requires ValidJob(j) && Placed(j, s) && Effective(j, s) && Enabled(j, s, a)
    requires var v := Apply(j, s, a); d < |v.lanes| && i < |v.lanes[d].log| && i < Executed(v.lanes[d])
    ensures var v := Apply(j, s, a); HasEffect(j, v, v.lanes[d].log[i])
  {
    if i < Executed(s.lanes[d]) {
      EffectiveBefore(j, s, a, d, i);
    } else {
      EffectiveNow(j, s, a, d, i);
    }
  }

  lemma ExecutedStays(j: Job, s: State, a: Action, t: Task)
    requires ValidJob(j) && Shape(j, s) && Enabled(j, s, a) && WasExecuted(s, t)
    ensures WasExecuted(Apply(j, s, a), t)
  {
    var v := Apply(j, s, a);
    var d, i :| 0 <= d < |s.lanes| && 0 <= i < |s.lanes[d].log| && i < Executed(s.lanes[d]) && s.lanes[d].log[i] == t;
    assert i < |v.lanes[d].log| && i < Executed(v.lanes[d]) && v.lanes[d].log[i] == t;
  }

  lemma GroundedStep(j: Job, s: State, a: Action)
    requires ValidJob(j) && Shape(j, s) && Grounded(s) && Enabled(j, s, a)
    ensures Grounded(Apply(j, s, a))
  {
    var v := Apply(j, s, a);
    if a.Write? || a.Up? {
      var l := v.lanes[a.d];
      assert l.log[l.popped] == Current(s, a.d) && l.popped < Executed(l);
      assert WasExecuted(v, Current(s, a.d));
    }
    forall x | x in v.reduced
      ensures exists p :: WasExecuted(v, Reduce(p, x))
    {
      if x in s.reduced {
        var p :| WasExecuted(s, Reduce(p, x));
        ExecutedStays(j, s, a, Reduce(p, x));
      } else {
        assert WasExecuted(v, Reduce(Current(s, a.d).p, x));
      }
    }
    forall c | c in v.checked
      ensures WasExecuted(v, Check(c.0, c.1))
    {
      if c in s.checked {
        ExecutedStays(j, s, a, Check(c.0, c.1));
      }
    }
  }

  lemma HitsAdd(j: Job, xs: set<nat>, x: nat, c: Cell)
    requires ValidJob(j) && x !in xs && x < |j.words|
    ensures |Hits(j, xs + {x}, c)| == |Hits(j, xs, c)| + if CellOf(j, j.words[x]) == c then 1 else 0
  {
    if CellOf(j, j.words[x]) == c {
      assert Hits(j, xs + {x}, c) == Hits(j, xs, c) + {x};
    } else {
      assert Hits(j, xs + {x}, c) == Hits(j, xs, c);
    }
  }

  lemma AddModulo(a: nat)
    ensures (a % UINT32 + 1) % UINT32 == (a + 1) % UINT32
  {
  }

  lemma WriteCounts(j: Job, s: State, d: nat, c: Cell)
    requires ValidJob(j) && Undisturbed(j, s) && Enabled(j, s, Write(d))
    ensures Get(Apply(j, s, Write(d)), c)
         == if CellOf(j, j.words[Current(s, d).x]) == c then (Get(s, c) + 1) % UINT32 else Get(s, c)
  {
  }

  lemma WriteTallied(j: Job, s: State, d: nat, c: Cell)
    requires ValidJob(j) && Undisturbed(j, s) && Enabled(j, s, Write(d)) && Current(s, d).x !in s.reduced
    requires Get(s, c) == |Hits(j, s.reduced, c)| % UINT32
    ensures var v := Apply(j, s, Write(d)); Get(v, c) == |Hits(j, v.reduced, c)| % UINT32
  {
    WriteCounts(j, s, d, c);
    HitsAdd(j, s.reduced, Current(s, d).x, c);
    AddModulo(|Hits(j, s.reduced, c)|);
    assert Apply(j, s, Write(d)).reduced == s.reduced + {Current(s, d).x};
  }

  lemma TalliedStep(j: Job, s: State, a: Action)
    requires ValidJob(j) && Placed(j, s) && Ordered(j, s) && Grounded(s)
    requires Tallied(j, s) && Undisturbed(j, s) && Enabled(j, s, a)
    ensures Tallied(j, Apply(j, s, a))
  {
    match a
    case Write(d) =>
      ReduceIsNew(j, s, d);
      forall c {
        WriteTallied(j, s, d, c);
      }
    case Up(d) =>
      FrontIsNew(j, s, d);
      assert (Current(s, d).p, Current(s, d).x) !in s.checked;
    case _ =>
  }

  /** Only one lane touches the cells of a group, so no increment is lost. */
  lemma UndisturbedStep(j: Job, s: State, a: Action)
    requires ValidJob(j) && Placed(j, s) && Undisturbed(j, s) && Enabled(j, s, a)
    ensures Undisturbed(j, Apply(j, s, a))
  {
    var v := Apply(j, s, a);
    forall e | 0 <= e < |v.reg| && v.reg[e].Some?
      ensures RunsOn(v, e) && Current(v, e).Reduce? && Current(v, e).x < |j.words|
      ensures v.reg[e].value == Get(v, CellOf(j, j.words[Current(v, e).x]))
    {
      if !(a.Read? && a.d == e) {
        assert s.reg[e].Some?;
        assert Current(v, e) == Current(s, e);
        if a.Write? {
          assert LaneOf(j, Current(s, e)) == e && LaneOf(j, Current(s, a.d)) == a.d;
        }
      }
    }
  }

  lemma InvariantStep(j: Job, s: State, a: Action)
    requires ValidJob(j) && Invariant(j, s) && Enabled(j, s, a)
    ensures Invariant(j, Apply(j, s, a))
  {
    PlacedStep(j, s, a);
    EffectiveStep(j, s, a);
    GroundedStep(j, s, a);
    TalliedStep(j, s, a);
    UndisturbedStep(j, s, a);
  }

  function Run(j: Job, s: State, schedule: seq<Action>): Option<State>
    requires ValidJob(j)
  {
    if schedule == [] then Some(s) else
      var last := |schedule| - 1;
      var before := Run(j, s, schedule[..last]);
      if before.Some? && Enabled(j, before.value, schedule[last])
      then Some(Apply(j, before.value, schedule[last])) else None
  }

  lemma {:induction false} RunInvariant(j: Job, schedule: seq<Action>)
    requires ValidJob(j) && Run(j, Initial(j), schedule).Some?
    ensures Invariant(j, Run(j, Initial(j), schedule).value)
  {
    if schedule == [] {
      InitialInvariant(j);
    } else {
      var last := |schedule| - 1;
      RunInvariant(j, schedule[..last]);
      InvariantStep(j, Run(j, Initial(j), schedule[..last]).value, schedule[last]);
    }
  }

  // ---- the barrier ----

  ghost function Row(p: nat, m: nat): set<(nat, nat)> {
    if m == 0 then {} else Row(p, m - 1) + {(p, m - 1)}
  }

  ghost function Pairs(n: nat, m: nat): set<(nat, nat)> {
    if n == 0 then {} else Pairs(n - 1, m) + Row(n - 1, m)
  }

  lemma {:induction false} RowMembers(p: nat, m: nat)
    ensures forall c :: c in Row(p, m) <==> c.0 == p && c.1 < m
    ensures |Row(p, m)| == m
  {
    if m > 0 {
      RowMembers(p, m - 1);
    }
  }

  lemma {:induction false} PairsMembers(n: nat, m: nat)
    ensures forall c :: c in Pairs(n, m) <==> c.0 < n && c.1 < m
  {
    if n > 0 {
      PairsMembers(n - 1, m);
      RowMembers(n - 1, m);
    }
  }

  lemma DisjointCount<T>(a: set<T>, b: set<T>)
    requires forall x :: x in a ==> x !in b
    ensures |a + b| == |a| + |b|
  {
    assert a * b == {};
  }

  lemma RowApart(n: nat, m: nat)
    ensures forall c :: c in Pairs(n, m) ==> c !in Row(n, m)
  {
    PairsMembers(n, m);
    RowMembers(n, m);
  }

  lemma PairsStep(n: nat, m: nat)
    requires n > 0
    ensures |Pairs(n, m)| == |Pairs(n - 1, m)| + m
  {
    RowApart(n - 1, m);
    DisjointCount(Pairs(n - 1, m), Row(n - 1, m));
    RowMembers(n - 1, m);
  }

  lemma {:induction false} PairsCount(n: nat, m: nat)
    ensures |Pairs(n, m)| == n * m
  {
    if n > 0 {
      PairsCount(n - 1, m);
      PairsStep(n, m);
      assert n * m == (n - 1) * m + m;
    }
  }

  lemma SubsetCount<T>(a: set<T>, b: set<T>)
    requires a <= b
    ensures |a| <= |b|
    ensures |a| == |b| ==> a == b
  {
    assert b == a + (b - a);
    assert |b| == |a| + |b - a|;
  }

  lemma CheckedIsPair(j: Job, s: State, c: (nat, nat))
    requires ValidJob(j) && Placed(j, s) && Grounded(s) && c in s.checked
    ensures c.0 < j.S && c.1 < j.S
  {
    assert WasExecuted(s, Check(c.0, c.1));
    assert Issued(j, s, Check(c.0, c.1));
  }

  lemma WithinPairs(checked: set<(nat, nat)>, n: nat)
    requires forall c :: c in checked ==> c.0 < n && c.1 < n
    ensures |checked| <= n * n
    ensures |checked| == n * n ==> forall p: nat, x: nat :: p < n && x < n ==> (p, x) in checked
  {
    PairsMembers(n, n);
    PairsCount(n, n);
    SubsetCount(checked, Pairs(n, n));
    if |checked| == n * n {
      forall p: nat, x: nat | p < n && x < n
        ensures (p, x) in checked
      {
        assert (p, x) in Pairs(n, n);
      }
    }
  }

  lemma CheckedWithinPairs(j: Job, s: State)
    requires ValidJob(j) && Invariant(j, s)
    ensures |s.checked| <= j.S * j.S
    ensures |s.checked| == j.S * j.S ==> forall p: nat, x: nat :: p < j.S && x < j.S ==> (p, x) in s.checked
  {
    forall c | c in s.checked
      ensures c.0 < j.S && c.1 < j.S
    {
      CheckedIsPair(j, s, c);
    }
    WithinPairs(s.checked, j.S);
  }

  lemma ReduceComesFirst(j: Job, s: State, d: nat, a: nat, b: nat, p: nat, x: nat)
    requires ValidJob(j) && Placed(j, s) && Ordered(j, s) && x < |j.words|
    requires d < |s.lanes| && a < |s.lanes[d].log| && b < |s.lanes[d].log|
    requires s.lanes[d].log[a] == Reduce(p, x) && s.lanes[d].log[b] == Check(p, CellOf(j, j.words[x]).0)
    ensures a <= b
  {
  }

  lemma TaskOnLane(j: Job, s: State, t: Task) returns (d: nat, a: nat)
    requires ValidJob(j) && Placed(j, s) && Issued(j, s, t)
    ensures d == LaneOf(j, t) && d < |s.lanes| && a < |s.lanes[d].log| && s.lanes[d].log[a] == t
  {
    d := LaneOf(j, t);
    a :| 0 <= a < |s.lanes[d].log| && s.lanes[d].log[a] == t;
  }

  lemma ExecutedIssued(j: Job, s: State, t: Task) returns (d: nat, b: nat)
    requires ValidJob(j) && Placed(j, s) && WasExecuted(s, t)
    ensures d == LaneOf(j, t) && d < |s.lanes| && b < |s.lanes[d].log| && b < Executed(s.lanes[d])
    ensures s.lanes[d].log[b] == t && Issued(j, s, t)
  {
    d, b :| 0 <= d < |s.lanes| && 0 <= b < |s.lanes[d].log| && b < Executed(s.lanes[d]) && s.lanes[d].log[b] == t;
  }

  /** A checkpoint runs after every reduce its map has sent to that group. */
  lemma CheckAfterReduces(j: Job, s: State, p: nat, x: nat)
    requires ValidJob(j) && Invariant(j, s)
    requires First(j, p) <= x < First(j, p) + Split(j) && x < |j.words|
    requires (p, CellOf(j, j.words[x]).0) in s.checked
    ensures x in s.reduced
  {
    var check := Check(p, CellOf(j, j.words[x]).0);
    assert WasExecuted(s, check);
    var d, b := ExecutedIssued(j, s, check);
    var e, a := TaskOnLane(j, s, Reduce(p, x));
    ReduceComesFirst(j, s, d, a, b, p, x);
    assert HasEffect(j, s, s.lanes[d].log[a]);
  }

  /** How many words the maps get between them. */
  function Counted(j: Job): nat
    requires ValidJob(j)
  {
    j.S * Split(j)
  }

  lemma WholeSplits(j: Job)
    requires ValidJob(j)
    ensures Counted(j) + |j.words| % j.S == |j.words|
  {
    assert |j.words| == Split(j) * j.S + |j.words| % j.S;
  }

  lemma InSomeSplit(j: Job, x: nat) returns (p: nat)
    requires ValidJob(j) && x < Counted(j)
    ensures p < j.S && First(j, p) <= x < First(j, p) + Split(j) && x < |j.words|
  {
    p := x / Split(j);
    assert x == p * Split(j) + x % Split(j);
    if p >= j.S {
      MulMonotone(j.S, p, Split(j));
    }
    WholeSplits(j);
  }

  lemma MulMonotone(a: nat, b: nat, n: nat)
    requires a <= b
    ensures a * n <= b * n
  {
    assert b * n == a * n + (b - a) * n;
  }

  lemma ReducedWithin(j: Job, s: State, x: nat)
    requires ValidJob(j) && Invariant(j, s) && x in s.reduced
    ensures x < Counted(j)
  {
    var p :| WasExecuted(s, Reduce(p, x));
    assert Issued(j, s, Reduce(p, x));
    Gap(j.S, p, Split(j));
  }

  /** Once all S*S checkpoints have been executed, so has every reduce. */
  lemma AllReduced(j: Job, s: State)
    requires ValidJob(j) && Invariant(j, s) && |s.checked| >= j.S * j.S
    ensures forall x: nat :: x in s.reduced <==> x < Counted(j)
  {
    CheckedWithinPairs(j, s);
    forall x | 0 <= x < Counted(j)
      ensures x in s.reduced
    {
      var p := InSomeSplit(j, x);
      assert (p, CellOf(j, j.words[x]).0) in s.checked;
      CheckAfterReduces(j, s, p, x);
    }
    forall x | x in s.reduced
      ensures x < Counted(j)
    {
      ReducedWithin(j, s, x);
    }
  }

  /** down() has returned only with all checkpoints executed. */
  ghost predicate Barred(j: Job, s: State) {
    s.returned ==> |s.checked| >= j.S * j.S
  }

  lemma BarredStep(j: Job, s: State, a: Action)
    requires ValidJob(j) && Invariant(j, s) && Barred(j, s) && Enabled(j, s, a)
    ensures Barred(j, Apply(j, s, a))
  {
    if a.Up? {
      SubsetCount(s.checked, Apply(j, s, a).checked);
    }
  }

  lemma {:induction false} RunBarred(j: Job, schedule: seq<Action>)
    requires ValidJob(j) && Run(j, Initial(j), schedule).Some?
    ensures Barred(j, Run(j, Initial(j), schedule).value)
  {
    if schedule != [] {
      var last := |schedule| - 1;
      RunBarred(j, schedule[..last]);
      RunInvariant(j, schedule[..last]);
      BarredStep(j, Run(j, Initial(j), schedule[..last]).value, schedule[last]);
    }
  }

  // ---- the sequential reference ----

  /** How many of the first m words belong to cell c. */
  function CountCell(j: Job, m: nat, c: Cell): nat
    requires ValidJob(j) && m <= |j.words|
  {
    if m == 0 then 0 else CountCell(j, m - 1, c) + if CellOf(j, j.words[m - 1]) == c then 1 else 0
  }

  lemma {:induction false} HitsOfPrefix(j: Job, xs: set<nat>, m: nat, c: Cell)
    requires ValidJob(j) && m <= |j.words|
    requires forall x: nat :: x in xs <==> x < m
    ensures |Hits(j, xs, c)| == CountCell(j, m, c)
  {
    if m == 0 {
      assert Hits(j, xs, c) == {};
    } else {
      var init := xs - {m - 1};
      HitsOfPrefix(j, init, m - 1, c);
      HitsAdd(j, init, m - 1, c);
      assert xs == init + {m - 1};
    }
  }

  /** In every interleaving: when down() returns, and ever after, each cell holds what counting the first
      S * (generateCount / S) words one after the other would have put there. */
  lemma ParallelIsSequential(j: Job, schedule: seq<Action>, c: Cell)
    requires ValidJob(j) && Run(j, Initial(j), schedule).Some?
    requires var s := Run(j, Initial(j), schedule).value; s.returned || Enabled(j, s, Down)
    ensures Counted(j) <= |j.words|
    ensures Get(Run(j, Initial(j), schedule).value, c) == CountCell(j, Counted(j), c) % UINT32
  {
    RunInvariant(j, schedule);
    RunBarred(j, schedule);
    var s := Run(j, Initial(j), schedule).value;
    if !s.returned {
      assert |s.checked| >= j.S * j.S;
    }
    AllReduced(j, s);
    WholeSplits(j);
    HitsOfPrefix(j, s.reduced, Counted(j), c);
  }

  // ---- word by word ----

  /** The count of word w among the first m words is in block w / splitSize, at offset w % splitSize. */
  predicate WordCounted(j: Job, cells: map<Cell, nat>, m: nat, w: nat)
    requires j.size > 0 && m <= |j.words|
  {
    At(cells, (w / j.size, w % j.size)) == multiset(j.words[..m])[w] % 0x1_0000_0000
  }

  /** Each word's count is in its place, and there is nothing outside the blocks. */
  ghost predicate CountsWords(j: Job, cells: map<Cell, nat>, m: nat)
    requires j.size > 0 && m <= |j.words|
  {
    && (forall w: nat :: WordCounted(j, cells, m, w))
    && (forall c: Cell :: c.0 >= j.S || c.1 >= j.size ==> At(cells, c) == 0)
  }

  /** There are m words, and the first m are counted. */
  ghost predicate CountsFirst(j: Job, cells: map<Cell, nat>, m: nat) {
    j.size > 0 && m <= |j.words| && CountsWords(j, cells, m)
  }

  lemma WordsOfCell(j: Job, u: nat, w: nat)
    requires ValidJob(j)
    ensures CellOf(j, u) == (w / j.size, w % j.size) <==> u == w
  {
    assert u == u / j.size * j.size + u % j.size;
    assert w == w / j.size * j.size + w % j.size;
  }

  lemma {:induction false} CellCountsWord(j: Job, m: nat, w: nat)
    requires ValidJob(j) && m <= |j.words|
    ensures CountCell(j, m, (w / j.size, w % j.size)) == multiset(j.words[..m])[w]
  {
    if m > 0 {
      CellCountsWord(j, m - 1, w);
      WordsOfCell(j, j.words[m - 1], w);
      assert j.words[..m] == j.words[..m - 1] + [j.words[m - 1]];
    }
  }

  lemma {:induction false} NothingOutside(j: Job, m: nat, c: Cell)
    requires ValidJob(j) && m <= |j.words| && (c.0 >= j.S || c.1 >= j.size)
    ensures CountCell(j, m, c) == 0
  {
    if m > 0 {
      NothingOutside(j, m - 1, c);
    }
  }

  lemma WordInCells(j: Job, cells: map<Cell, nat>, m: nat, w: nat)
    requires ValidJob(j) && m <= |j.words| && forall c :: At(cells, c) == CountCell(j, m, c) % UINT32
    ensures WordCounted(j, cells, m, w)
  {
    var c := (w / j.size, w % j.size);
    assert At(cells, c) == CountCell(j, m, c) % UINT32;
    CellCountsWord(j, m, w);
  }

  lemma CellsCountWords(j: Job, cells: map<Cell, nat>, m: nat)
    requires ValidJob(j) && m <= |j.words| && forall c :: At(cells, c) == CountCell(j, m, c) % UINT32
    ensures CountsWords(j, cells, m)
  {
    forall w: nat {
      WordInCells(j, cells, m, w);
    }
    forall c: Cell | c.0 >= j.S || c.1 >= j.size
      ensures At(cells, c) == 0
    {
      NothingOutside(j, m, c);
    }
  }

  /** In every interleaving, when down() returns and ever after: the cell of each word holds how often it is
      among the first S * (generateCount / S) words, modulo 2^32. */
  lemma ParallelCountsWords(j: Job, schedule: seq<Action>, m: nat)
    requires ValidJob(j) && m == j.S * (|j.words| / j.S) && Run(j, Initial(j), schedule).Some?
    requires var s := Run(j, Initial(j), schedule).value; s.returned || Enabled(j, s, Down)
    ensures CountsFirst(j, Run(j, Initial(j), schedule).value.cells, m)
  {
    var v := Run(j, Initial(j), schedule).value;
    WholeSplits(j);
    forall c
      ensures At(v.cells, c) == CountCell(j, Counted(j), c) % UINT32
    {
      ParallelIsSequential(j, schedule, c);
    }
    CellsCountWords(j, v.cells, Counted(j));
  }

  /** ... and no task that would still touch a cell is left, so the blocks can be deleted. */
  lemma NoReduceAfterReturn(j: Job, schedule: seq<Action>, d: nat)
    requires ValidJob(j) && Run(j, Initial(j), schedule).Some?
    requires Run(j, Initial(j), schedule).value.returned
    ensures var s := Run(j, Initial(j), schedule).value;
      !Enabled(j, s, Read(d)) && !Enabled(j, s, Write(d))
  {
    RunInvariant(j, schedule);
    RunBarred(j, schedule);
    var s := Run(j, Initial(j), schedule).value;
    AllReduced(j, s);
    if RunsOn(s, d) && Current(s, d).Reduce? {
      ReduceIsNew(j, s, d);
      assert Issued(j, s, Current(s, d));
      Gap(j.S, Current(s, d).p, Split(j));
    }
  }

  /** doTest's reference loop. */
  method CountSequentially(j: Job) returns (cells: map<Cell, nat>)
    requires ValidJob(j)
    ensures forall c :: At(cells, c) == CountCell(j, |j.words|, c) % UINT32
    ensures CountsWords(j, cells, |j.words|)
  {
    cells := map[];
    var x := 0;
    while x < |j.words|
      invariant 0 <= x <= |j.words|
      invariant forall c :: At(cells, c) == CountCell(j, x, c) % UINT32
    {
      var current := j.words[x];
      var destination := current / j.size;
      var offset := current % j.size;
      AddModulo(CountCell(j, x, (destination, offset)));
      cells := cells[(destination, offset) := (At(cells, (destination, offset)) + 1) % UINT32];
      x := x + 1;
    }
    CellsCountWords(j, cells, |j.words|);
  }

  /** checkEqual. */
  method CheckEqual(j: Job, count1: map<Cell, nat>, count2: map<Cell, nat>) returns (ret: bool)
    requires ValidJob(j)
    ensures ret <==> forall p, x :: 0 <= p < j.S && 0 <= x < j.size ==> At(count1, (p, x)) == At(count2, (p, x))
  {
    ret := true;
    var partition := 0;
    while partition < j.S
      invariant 0 <= partition <= j.S
      invariant ret <==> forall p, x :: 0 <= p < partition && 0 <= x < j.size ==>
                            At(count1, (p, x)) == At(count2, (p, x))
    {
      var x := 0;
      while x < j.size
        invariant 0 <= x <= j.size
        invariant ret <==>
          && (forall p, y :: 0 <= p < partition && 0 <= y < j.size ==> At(count1, (p, y)) == At(count2, (p, y)))
          && (forall y :: 0 <= y < x ==> At(count1, (partition, y)) == At(count2, (partition, y)))
      {
        if At(count1, (partition, x)) != At(count2, (partition, x)) {
          ret := false;
        }
        x := x + 1;
      }
      partition := partition + 1;
    }
  }

  lemma {:induction false} CountCellGrows(j: Job, m: nat, n: nat, c: Cell)
    requires ValidJob(j) && m <= n <= |j.words|
    ensures CountCell(j, m, c) <= CountCell(j, n, c) <= CountCell(j, m, c) + (n - m)
    ensures m < n && CellOf(j, j.words[m]) == c ==> CountCell(j, n, c) > CountCell(j, m, c)
    decreases n
  {
    if m < n {
      CountCellGrows(j, m, n - 1, c);
    }
  }

  lemma ModuloDiffers(a: nat, b: nat)
    requires a < b < a + UINT32
    ensures a % UINT32 != b % UINT32
  {
  }

  /** The reference counts all words, the map tasks only whole splits: the test's comparison succeeds
      exactly when splitCount divides the number of words. */
  lemma TestPassesIff(j: Job)
    requires ValidJob(j)
    ensures Counted(j) <= |j.words|
    ensures (forall c :: CountCell(j, Counted(j), c) % UINT32 == CountCell(j, |j.words|, c) % UINT32)
       <==> |j.words| % j.S == 0
  {
    var m := Counted(j);
    WholeSplits(j);
    if |j.words| % j.S != 0 {
      var c := CellOf(j, j.words[m]);
      CountCellGrows(j, m, |j.words|, c);
      ModuloDiffers(CountCell(j, m, c), CountCell(j, |j.words|, c));
    }
  }

  // ---- the barrier opens ----

  /** A lane with nothing left to do has executed all that was pushed on it. */
  predicate Exhausted(s: State) {
    forall d :: 0 <= d < |s.lanes| ==> s.lanes[d].front == Idle && s.lanes[d].popped == |s.lanes[d].log|
  }

  lemma ExhaustedChecked(j: Job, s: State, p: nat, x: nat)
    requires ValidJob(j) && Invariant(j, s) && s.launched == j.S && Exhausted(s) && p < j.S && x < j.S
    ensures (p, x) in s.checked
  {
    IssuedHasEffect(j, s, Map(p));
    IssuedHasEffect(j, s, Check(p, x));
  }

  lemma IssuedHasEffect(j: Job, s: State, t: Task)
    requires ValidJob(j) && Invariant(j, s) && Exhausted(s) && Issued(j, s, t)
    ensures HasEffect(j, s, t)
  {
    var d := LaneOf(j, t);
    var a :| 0 <= a < |s.lanes[d].log| && s.lanes[d].log[a] == t;
    assert HasEffect(j, s, s.lanes[d].log[a]);
  }

  lemma ExhaustedOpens(j: Job, s: State)
    requires ValidJob(j) && Invariant(j, s) && s.launched == j.S && Exhausted(s)
    ensures |s.checked| == j.S * j.S
  {
    CheckedWithinPairs(j, s);
    PairsMembers(j.S, j.S);
    PairsCount(j.S, j.S);
    forall c | c in Pairs(j.S, j.S)
      ensures c in s.checked
    {
      ExhaustedChecked(j, s, c.0, c.1);
    }
    SubsetCount(Pairs(j.S, j.S), s.checked);
  }

  lemma BusyLaneMoves(j: Job, s: State, d: nat)
    requires ValidJob(j) && Invariant(j, s) && d < |s.lanes|
    requires s.lanes[d].front != Idle || s.lanes[d].popped < |s.lanes[d].log|
    ensures exists a :: Enabled(j, s, a)
  {
    if s.lanes[d].front == Idle {
      assert Enabled(j, s, Begin(d));
    } else if s.lanes[d].front == Done {
      assert Enabled(j, s, Remove(d));
    } else {
      var t := Current(s, d);
      assert Issued(j, s, t);
      match t
      case Map(p) =>
        if s.emitted[p] < Items(j) {
          EmitLands(j, s, p, s.emitted[p]);
          assert Enabled(j, s, Emit(d));
        } else {
          assert Enabled(j, s, MapEnd(d));
        }
      case Reduce(p, x) =>
        WordExists(j, p, x);
        assert if s.reg[d].None? then Enabled(j, s, Read(d)) else Enabled(j, s, Write(d));
      case Check(_, _) =>
        assert Enabled(j, s, Up(d));
    }
  }

  lemma WordExists(j: Job, p: nat, x: nat)
    requires ValidJob(j) && p < j.S && First(j, p) <= x < First(j, p) + Split(j)
    ensures x < |j.words|
  {
    Gap(j.S, p, Split(j));
    WholeSplits(j);
  }

  lemma EmitLands(j: Job, s: State, p: nat, i: nat)
    requires ValidJob(j) && p < j.S && i < Items(j)
    ensures LaneOf(j, Item(j, p, i)) < j.n
  {
    if i < Split(j) {
      WordExists(j, p, First(j, p) + i);
    }
  }

  /** Until down() has returned, some thread can always take a step. */
  lemma NeverStuck(j: Job, s: State)
    requires ValidJob(j) && Invariant(j, s) && !s.returned
    ensures exists a :: Enabled(j, s, a)
  {
    if s.launched < j.S {
      assert Enabled(j, s, Launch);
    } else if Exhausted(s) {
      ExhaustedOpens(j, s);
      assert Enabled(j, s, Down);
    } else {
      var d :| 0 <= d < |s.lanes| && !(s.lanes[d].front == Idle && s.lanes[d].popped == |s.lanes[d].log|);
      BusyLaneMoves(j, s, d);
    }
  }

  /** What a lane still has to do with the tasks on it. */
  function LaneWork(l: Lane<Task>, reg: Option<nat>): nat
    requires Sound(l)
  {
    5 * (|l.log| - l.popped) - match l.front
      case Idle => 0
      case Running => if reg.Some? then 2 else 1
      case Done => 3
  }

  function LaneWorks(j: Job, s: State): (works: seq<nat>)
    requires ValidJob(j) && Shape(j, s)
    ensures |works| == j.n
    ensures forall d :: 0 <= d < j.n ==> works[d] == LaneWork(s.lanes[d], s.reg[d])
  {
    seq(j.n, d requires 0 <= d < j.n => LaneWork(s.lanes[d], s.reg[d]))
  }

  /** Tasks still to be enqueued. */
  function Unissued(j: Job, s: State): int
    requires ValidJob(j)
  {
    j.S - s.launched + (j.S * Items(j) - Sum(s.emitted))
  }

  /** Steps still to come, at most. */
  function Work(j: Job, s: State): int
    requires ValidJob(j) && Shape(j, s)
  {
    Sum(LaneWorks(j, s)) + 6 * Unissued(j, s) + if s.returned then 0 else 1
  }

  /** A step touches the work of one lane. */
  lemma OneLane(j: Job, s: State, v: State, d: nat)
    requires ValidJob(j) && Shape(j, s) && Shape(j, v) && d < j.n
    requires forall e :: 0 <= e < j.n && e != d ==> v.lanes[e] == s.lanes[e] && v.reg[e] == s.reg[e]
    ensures Sum(LaneWorks(j, v))
         == Sum(LaneWorks(j, s)) - LaneWork(s.lanes[d], s.reg[d]) + LaneWork(v.lanes[d], v.reg[d])
  {
    SumWrite(LaneWorks(j, s), d, LaneWorks(j, v)[d]);
    assert LaneWorks(j, v) == LaneWorks(j, s)[d := LaneWorks(j, v)[d]];
  }

  lemma UnissuedStep(j: Job, s: State, a: Action)
    requires ValidJob(j) && Enabled(j, s, a)
    ensures Unissued(j, Apply(j, s, a)) == Unissued(j, s) - if a.Launch? || a.Emit? then 1 else 0
  {
    if a.Emit? {
      var p := Current(s, a.d).p;
      SumWrite(s.emitted, p, s.emitted[p] + 1);
    }
  }

  lemma RunningWorkStep(j: Job, s: State, a: Action)
    requires ValidJob(j) && Shape(j, s) && Undisturbed(j, s) && Enabled(j, s, a) && a != Down && !a.Launch? && !a.Emit?
    requires Shape(j, Apply(j, s, a))
    ensures Sum(LaneWorks(j, Apply(j, s, a))) < Sum(LaneWorks(j, s))
  {
    assert a.Begin? ==> s.reg[a.d].None?;
    OneLane(j, s, Apply(j, s, a), a.d);
  }

  lemma LaneWorkStep(j: Job, s: State, a: Action)
    requires ValidJob(j) && Placed(j, s) && Undisturbed(j, s) && Enabled(j, s, a) && a != Down
    requires Shape(j, Apply(j, s, a))
    ensures Sum(LaneWorks(j, Apply(j, s, a))) < Sum(LaneWorks(j, s)) + if a.Launch? || a.Emit? then 6 else 0
  {
    var v := Apply(j, s, a);
    if a.Launch? {
      OneLane(j, s, v, j.lane(s.launched));
    } else if a.Emit? {
      OneLane(j, s, v, LaneOf(j, Item(j, Current(s, a.d).p, s.emitted[Current(s, a.d).p])));
    } else {
      RunningWorkStep(j, s, a);
    }
  }

  lemma WorkShrinks(j: Job, s: State, a: Action)
    requires ValidJob(j) && Invariant(j, s) && Enabled(j, s, a)
    ensures Shape(j, Apply(j, s, a)) && Work(j, Apply(j, s, a)) < Work(j, s)
  {
    ShapeStep(j, s, a);
    UnissuedStep(j, s, a);
    if a == Down {
      assert LaneWorks(j, Apply(j, s, a)) == LaneWorks(j, s);
    } else {
      LaneWorkStep(j, s, a);
    }
  }

  lemma WorkIsNat(j: Job, s: State)
    requires ValidJob(j) && Shape(j, s)
    ensures Work(j, s) >= 0
  {
    SumBounded(s.emitted, Items(j));
  }

  /** No schedule goes on for ever; with NeverStuck, the main thread's down() returns in every one that
      is carried on until nobody can move. */
  lemma {:induction false} SchedulesEnd(j: Job, schedule: seq<Action>)
    requires ValidJob(j) && Run(j, Initial(j), schedule).Some?
    ensures Shape(j, Initial(j)) && |schedule| <= Work(j, Initial(j))
    ensures var s := Run(j, Initial(j), schedule).value;
      (forall a :: !Enabled(j, s, a)) ==> s.returned
  {
    WorkLeft(j, schedule);
    var s := Run(j, Initial(j), schedule).value;
    WorkIsNat(j, s);
    RunInvariant(j, schedule);
    if !s.returned {
      NeverStuck(j, s);
    }
  }

  lemma {:induction false} WorkLeft(j: Job, schedule: seq<Action>)
    requires ValidJob(j) && Run(j, Initial(j), schedule).Some?
    ensures Shape(j, Initial(j)) && Shape(j, Run(j, Initial(j), schedule).value)
    ensures Work(j, Run(j, Initial(j), schedule).value) + |schedule| <= Work(j, Initial(j))
  {
    InitialInvariant(j);
    if schedule != [] {
      var last := |schedule| - 1;
      WorkLeft(j, schedule[..last]);
      RunInvariant(j, schedule[..last]);
      WorkShrinks(j, Run(j, Initial(j), schedule[..last]).value, schedule[last]);
    }
  }
}
