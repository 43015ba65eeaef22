/** The semaphore of lib/inc/lock.h, which may start below zero.  Every step between taking and leaving the
    mutex is one action; a waiting thread gives the mutex up inside cond_.wait. */
module Semaphores {
  import opened Wrappers

  /** `asleep` threads wait on the condition; `woken` ones have been woken and have yet to test again. */
  datatype State = State(val: int, asleep: nat, woken: nat, ups: nat, downs: nat)

  function Initial(val: int): State {
    State(val, 0, 0, 0, 0)
  }

  /** Up; a thread's first test in down(); the test of a woken thread; a wake-up nobody asked for. */
  datatype Action = Up | Enter | Resume | Spurious

  predicate Enabled(s: State, a: Action) {
    match a
    case Resume => s.woken > 0
    case Spurious => s.asleep > 0
    case _ => true
  }

  /** The loop test of down() and what follows it. */
  function Test(s: State): State {
    if s.val <= 0 then s.(asleep := s.asleep + 1) else s.(val := s.val - 1, downs := s.downs + 1)
  }

  function Wake(s: State): State {
    if s.asleep > 0 then s.(asleep := s.asleep - 1, woken := s.woken + 1) else s
  }

  function Apply(s: State, a: Action): State
    requires Enabled(s, a)
  {
    match a
    case Up =>
      var t := s.(val := s.val + 1, ups := s.ups + 1);
      if t.val > 0 then Wake(t) else t
    case Enter => Test(s)
    case Resume => Test(s.(woken := s.woken - 1))
    case Spurious => Wake(s)
  }

  function Run(s: State, schedule: seq<Action>): Option<State> {
    if schedule == [] then Some(s) else
      var last := |schedule| - 1;
      var before := Run(s, schedule[..last]);
      if before.Some? && Enabled(before.value, schedule[last]) then Some(Apply(before.value, schedule[last])) else None
  }

  /** The mutex-protected parts of up and down on the object itself; the condition variable is its count of
      sleepers and of those it has woken. */
  class Semaphore {
    var val: int
    var asleep: nat
    var woken: nat
    ghost var ups: nat
    ghost var downs: nat

    ghost function Value(): State
      reads this
    {
      State(val, asleep, woken, ups, downs)
    }

    constructor (initVal: int)
      ensures Value() == Initial(initVal)
    {
      val, asleep, woken, ups, downs := initVal, 0, 0, 0, 0;
    }

    method Signal()
      modifies this
      ensures Value() == Wake(old(Value()))
    {
      if asleep > 0 {
        asleep, woken := asleep - 1, woken + 1;
      }
    }

    method Up()
      modifies this
      ensures Value() == Apply(old(Value()), Action.Up)
    {
      val := val + 1;
      ups := ups + 1;
      if val > 0 {
        Signal();
      }
    }

    /** One pass through the head of down's loop: false if the thread goes to sleep. */
    method Pass(resumed: bool) returns (done: bool)
      requires resumed ==> Enabled(Value(), Resume)
      modifies this
      ensures Value() == Apply(old(Value()), if resumed then Resume else Enter)
      ensures done <==> downs == old(downs) + 1
    {
      if resumed {
        woken := woken - 1;
      }
      done := val > 0;
      if done {
        val := val - 1;
        downs := downs + 1;
      } else {
        asleep := asleep + 1;
      }
    }
  }

  /** No wake-up is lost: while somebody sleeps, as many threads as the value could serve are on their way. */
  predicate NoneLost(s: State) {
    s.asleep > 0 ==> s.val <= s.woken
  }

  /** In every schedule the value is what ups and returned downs make it, no down returns before the ups have
      made up for a negative start, and no thread sleeps while the value is positive and nobody is about to
      take it. */
  lemma {:induction false} RunCounts(val: int, schedule: seq<Action>)
    requires Run(Initial(val), schedule).Some?
    ensures var s := Run(Initial(val), schedule).value;
      && s.val == val + s.ups - s.downs
      && (s.downs > 0 ==> s.downs <= val + s.ups)
      && NoneLost(s)
  {
    if schedule != [] {
      RunCounts(val, schedule[..|schedule| - 1]);
    }
  }

  /** Started at 1 - n, and with as many ups as there are: down returns only after the n-th, and if the one
      thread that calls down sleeps for good, fewer than n have happened. */
  lemma Barrier(n: nat, schedule: seq<Action>)
    requires Run(Initial(1 - n), schedule).Some?
    ensures var s := Run(Initial(1 - n), schedule).value;
      && (s.downs > 0 ==> s.ups >= n)
      && (s.asleep > 0 && s.woken == 0 && s.downs == 0 ==> s.ups < n)
  {
    RunCounts(1 - n, schedule);
  }

  /** Threads that call down are asleep, woken or gone; a settled schedule has let through exactly as many as the
      value allowed. */
  lemma SettledServesAll(val: int, schedule: seq<Action>)
    requires Run(Initial(val), schedule).Some? && Run(Initial(val), schedule).value.woken == 0
    ensures var s, calls := Run(Initial(val), schedule).value, Calls(schedule);
      s.downs == if val + s.ups <= 0 then 0 else if calls < val + s.ups then calls else val + s.ups
  {
    RunCounts(val, schedule);
    CallsCounted(val, schedule);
    ValueStays(val, schedule);
  }

  function Calls(schedule: seq<Action>): nat {
    if schedule == [] then 0 else Calls(schedule[..|schedule| - 1]) + if schedule[|schedule| - 1] == Enter then 1 else 0
  }

  lemma {:induction false} CallsCounted(val: int, schedule: seq<Action>)
    requires Run(Initial(val), schedule).Some?
    ensures var s := Run(Initial(val), schedule).value; Calls(schedule) == s.downs + s.asleep + s.woken
  {
    if schedule != [] {
      CallsCounted(val, schedule[..|schedule| - 1]);
    }
  }

  /** The value falls below zero only by starting there. */
  lemma {:induction false} ValueStays(val: int, schedule: seq<Action>)
    requires Run(Initial(val), schedule).Some?
    ensures var s := Run(Initial(val), schedule).value; s.downs > 0 ==> s.val >= 0
  {
    if schedule != [] {
      ValueStays(val, schedule[..|schedule| - 1]);
    }
  }
}
