/** Whole lives of a cache: what holds after any sequence of operations by clients that keep to the
    rules of webserver/cache.h.  The rules are `Allowed`; `World` adds to the cache's value what the
    clients hold and everything that has happened so far. */
module CacheRuns {
  import opened Wrappers
  import opened Sequences
  import opened CacheModel

  datatype Op =
    | PutOp(key: Key, buf: Ptr, size: size_t)
    | GetOp(key: Key, cb: Option<Callback>)
    | ReserveOp(key: Key)
    | CancelOp(key: Key)
    | DoneOp(key: Key, hold: Ptr) // by a client that was handed `hold` (Null: the reserver itself)

  datatype World = World(
    store: Store,
    held: map<Key, multiset<Ptr>>, // what was handed out for a key and not given back
    taken: set<nat>,               // buffers whose ownership the cache accepted
    offered: set<Callback>,        // callbacks given to get
    log: seq<Effect>,              // all that the cache did to callbacks and buffers
    drift: int)                    // new size minus old size, added up over the filled reservations

  function Empty(quota: size_t): World {
    World(Store(map[], [], 0, quota), map[], {}, {}, [], 0)
  }

  /** How often a callback was deleted, and how often a buffer was freed. */
  function Disposals(log: seq<Effect>, cb: Callback): nat {
    if log == [] then 0 else
      Disposals(log[..|log| - 1], cb) + match log[|log| - 1] {
        case Called(c, _, _, _) => if c == cb then 1 else 0
        case Discarded(c) => if c == cb then 1 else 0
        case Freed(_) => 0
      }
  }

  function FreeCount(log: seq<Effect>, b: nat): nat {
    if log == [] then 0 else
      FreeCount(log[..|log| - 1], b) + if log[|log| - 1] == Freed(Buf(b)) then 1 else 0
  }

  // ---- the steps of a world ----

  function Copies(p: Ptr, n: nat): (s: seq<Ptr>)
    ensures |s| == n
    ensures forall i :: 0 <= i < n ==> s[i] == p
  {
    seq(n, i => p)
  }

  function PutStep(w: World, key: Key, buf: Ptr, size: size_t): World {
    var out := Put(w.store, key, buf, size);
    if !out.ok then
      w
    else
      var taken := if buf.Buf? then w.taken + {buf.id} else w.taken;
      if key !in w.store.slots then
        w.(store := out.store, held := w.held[key := multiset{buf}], taken := taken)
      else
        var slot := w.store.slots[key];
        var had := if key in w.held then w.held[key] else multiset{};
        w.(store := out.store, held := w.held[key := had + multiset(Copies(buf, |slot.waiters|))], taken := taken,
           log := w.log + out.effects, drift := w.drift + size - slot.size)
  }

  function GetStep(w: World, key: Key, cb: Option<Callback>): World
    requires key in w.store.slots ==> cb.Some?
  {
    var out := Get(w.store, key, cb);
    var v := w.(store := out.store, log := w.log + out.effects,
                offered := if cb.Some? then w.offered + {cb.value} else w.offered);
    if key in w.store.slots && !w.store.slots[key].reserved && key in w.held then
      v.(held := w.held[key := w.held[key] + multiset{w.store.slots[key].data}])
    else
      v
  }

  function ReserveStep(w: World, key: Key): World {
    var v := w.(store := Reserve(w.store, key).store);
    if key in w.store.slots then v else v.(held := w.held[key := multiset{Null}])
  }

  function CancelStep(w: World, key: Key): World {
    var out := CancelReservation(w.store, key);
    w.(store := out.store, log := w.log + out.effects)
  }

  /** doneWith up to its quota test. */
  function UnreferenceStep(w: World, key: Key, hold: Ptr): World
    requires key in w.store.slots && w.store.slots[key].refs > 0 && key in w.held
  {
    w.(store := Unreference(w.store, key), held := w.held[key := w.held[key] - multiset{hold}])
  }

  /** n turns of cleanup's loop. */
  function EvictStep(w: World, n: nat): World
    requires IdleListed(w.store) && n <= |w.store.idle|
  {
    w.(store := Evict(w.store, n), held := w.held - (set k | k in w.store.idle[..n]),
       log := w.log + Frees(w.store, n))
  }

  /** n turns of cleanup's loop, and what it then takes off currentSize_. */
  function Cleaned(w: World, n: nat): World
    requires IdleListed(w.store) && n <= |w.store.idle|
  {
    var v := EvictStep(w, n);
    v.(store := v.store.(used := Sub(w.store.used, FreedBy(w.store, n))))
  }

  /** doneWith; what was handed out for entries that are gone is gone with them. */
  function DoneStep(w: World, key: Key, hold: Ptr): World
    requires key in w.store.slots && w.store.slots[key].refs > 0 && key in w.held
    requires IdleListed(Unreference(w.store, key))
  {
    var out := DoneWith(w.store, key);
    var held := w.held[key := w.held[key] - multiset{hold}];
    w.(store := out.store, held := held - (held.Keys - out.store.slots.Keys), log := w.log + out.effects)
  }

  lemma DoneWithin(w: World, key: Key, hold: Ptr)
    requires w.held.Keys == w.store.slots.Keys && key in w.store.slots && w.store.slots[key].refs > 0
    requires IdleListed(Unreference(w.store, key)) && w.store.used <= w.store.quota
    ensures DoneStep(w, key, hold) == UnreferenceStep(w, key, hold)
  {
    assert w.log + [] == w.log;
    assert DoneStep(w, key, hold).held == UnreferenceStep(w, key, hold).held;
  }

  lemma DoneBeyond(w: World, key: Key, hold: Ptr)
    requires w.held.Keys == w.store.slots.Keys && key in w.store.slots && w.store.slots[key].refs > 0
    requires IdleListed(Unreference(w.store, key)) && w.store.used > w.store.quota
    ensures var u := UnreferenceStep(w, key, hold);
      DoneStep(w, key, hold) == Cleaned(u, Victims(u.store, Sub(u.store.used, u.store.quota), 0))
  {
    var u := UnreferenceStep(w, key, hold);
    var n := Victims(u.store, Sub(u.store.used, u.store.quota), 0);
    assert u.store.slots.Keys == u.held.Keys;
    assert DoneStep(w, key, hold).held == u.held - (set k | k in u.store.idle[..n]);
  }

  /** doneWith drops the reference and then, beyond the quota only, cleans up. */
  lemma DoneStepIs(w: World, key: Key, hold: Ptr)
    requires w.held.Keys == w.store.slots.Keys && key in w.store.slots && w.store.slots[key].refs > 0
    requires IdleListed(Unreference(w.store, key))
    ensures var u := UnreferenceStep(w, key, hold);
      DoneStep(w, key, hold) == if u.store.used > u.store.quota
                                then Cleaned(u, Victims(u.store, Sub(u.store.used, u.store.quota), 0)) else u
  {
    if w.store.used > w.store.quota {
      DoneBeyond(w, key, hold);
    } else {
      DoneWithin(w, key, hold);
    }
  }

  /** The client discipline.  A buffer is offered once unless it is refused, a callback once; nobody
      reserves an occupied slot; doneWith is called by a holder, and not for a reservation. */
  ghost predicate Allowed(w: World, op: Op) {
    match op
    case PutOp(_, buf, _) => buf.Buf? && buf.id !in w.taken
    case GetOp(key, cb) => if cb.Some? then cb.value !in w.offered else key !in w.store.slots
    case ReserveOp(key) => key in w.store.slots ==> w.store.slots[key].reserved
    case CancelOp(_) => true
    case DoneOp(key, hold) =>
      key in w.store.slots && !w.store.slots[key].reserved && key in w.held && hold in w.held[key]
  }

  // ---- references and holders ----

  ghost predicate Counted(w: World) {
    && w.held.Keys == w.store.slots.Keys
    && (forall k :: k in w.held ==> |w.held[k]| == w.store.slots[k].refs)
    && (forall k, b :: k in w.held && Buf(b) in w.held[k] ==> w.store.slots[k].data == Buf(b))
  }

  /** A reservation holds no buffer yet. */
  ghost predicate Vacant(w: World) {
    forall k :: k in w.store.slots && w.store.slots[k].reserved ==> w.store.slots[k].data == Null
  }

  lemma PutVacant(w: World, key: Key, buf: Ptr, size: size_t)
    requires Vacant(w)
    ensures Vacant(PutStep(w, key, buf, size))
  {
  }

  lemma PutCounted(w: World, key: Key, buf: Ptr, size: size_t)
    requires Counted(w) && Vacant(w) && buf.Buf?
    ensures Counted(PutStep(w, key, buf, size))
  {
    var v := PutStep(w, key, buf, size);
    forall k | k in v.held
      ensures k in v.store.slots && |v.held[k]| == v.store.slots[k].refs
      ensures forall b :: Buf(b) in v.held[k] ==> v.store.slots[k].data == Buf(b)
    {
      assert k != key ==> k in w.held && v.held[k] == w.held[k] && v.store.slots[k] == w.store.slots[k];
    }
  }

  lemma GetCounted(w: World, key: Key, cb: Option<Callback>)
    requires Counted(w)
    requires key in w.store.slots ==> cb.Some?
    ensures Counted(GetStep(w, key, cb))
  {
    var v := GetStep(w, key, cb);
    if key in w.store.slots {
      var slot := w.store.slots[key];
      assert v.store.slots == w.store.slots[key := v.store.slots[key]];
      if slot.reserved {
        assert v.held == w.held && v.store.slots[key].refs == slot.refs;
      } else {
        assert v.held == w.held[key := w.held[key] + multiset{slot.data}] && v.store.slots[key].refs == slot.refs + 1;
      }
    }
  }

  lemma GetVacant(w: World, key: Key, cb: Option<Callback>)
    requires Vacant(w)
    requires key in w.store.slots ==> cb.Some?
    ensures Vacant(GetStep(w, key, cb))
  {
  }

  lemma ReserveCounted(w: World, key: Key)
    requires Counted(w) && Vacant(w) && Allowed(w, ReserveOp(key))
    ensures Counted(ReserveStep(w, key)) && Vacant(ReserveStep(w, key))
  {
  }

  lemma CancelCounted(w: World, key: Key)
    requires Counted(w) && Vacant(w)
    ensures Counted(CancelStep(w, key)) && Vacant(CancelStep(w, key))
  {
  }

  lemma UnreferenceCounted(w: World, key: Key, hold: Ptr)
    requires Counted(w) && Vacant(w) && Allowed(w, DoneOp(key, hold))
    ensures w.store.slots[key].refs > 0
    ensures Counted(UnreferenceStep(w, key, hold)) && Vacant(UnreferenceStep(w, key, hold))
  {
    assert |w.held[key]| == |w.held[key] - multiset{hold}| + 1;
  }

  lemma EvictCounted(w: World, n: nat)
    requires Counted(w) && Vacant(w) && IdleListed(w.store) && n <= |w.store.idle|
    ensures Counted(EvictStep(w, n)) && Vacant(EvictStep(w, n))
  {
  }

  // ---- buffers ----

  lemma {:induction false} FreeCountAppend(log: seq<Effect>, more: seq<Effect>, b: nat)
    ensures FreeCount(log + more, b) == FreeCount(log, b) + FreeCount(more, b)
  {
    if more == [] {
      assert log + more == log;
    } else {
      var init := more[..|more| - 1];
      assert (log + more)[..|log + more| - 1] == log + init;
      FreeCountAppend(log, init, b);
    }
  }

  lemma {:induction false} CallsFreeNothing(cbs: seq<Callback>, data: Ptr, size: size_t, isCached: bool, b: nat)
    ensures FreeCount(CallAll(cbs, data, size, isCached), b) == 0
  {
    if cbs != [] {
      var init := cbs[..|cbs| - 1];
      assert CallAll(cbs, data, size, isCached)[..|cbs| - 1] == CallAll(init, data, size, isCached);
      CallsFreeNothing(init, data, size, isCached, b);
    }
  }

  /** Every accepted buffer sits in exactly one entry until it is freed, once; no other buffer is freed. */
  ghost predicate Owned(w: World) {
    && (forall k, b :: k in w.store.slots && w.store.slots[k].data == Buf(b) ==>
          b in w.taken && FreeCount(w.log, b) == 0)
    && (forall k, l :: k in w.store.slots && l in w.store.slots && k != l && w.store.slots[k].data.Buf? ==>
          w.store.slots[k].data != w.store.slots[l].data)
    && (forall b :: b in w.taken ==> FreeCount(w.log, b) == 1 || Stored(w.store, b))
    && (forall b :: FreeCount(w.log, b) > 0 ==> b in w.taken && FreeCount(w.log, b) == 1)
  }

  ghost predicate Stored(s: Store, b: nat) {
    exists k :: k in s.slots && s.slots[k].data == Buf(b)
  }

  /** A step that frees nothing and changes no entry's buffer keeps Owned. */
  lemma SameBuffersOwned(w: World, v: World)
    requires Owned(w) && v.taken == w.taken
    requires forall b :: FreeCount(v.log, b) == FreeCount(w.log, b)
    requires w.store.slots.Keys <= v.store.slots.Keys
    requires forall k :: k in v.store.slots ==>
      v.store.slots[k].data == if k in w.store.slots then w.store.slots[k].data else Null
    ensures Owned(v)
  {
    forall b | Stored(w.store, b)
      ensures Stored(v.store, b)
    {
      var k :| k in w.store.slots && w.store.slots[k].data == Buf(b);
      assert v.store.slots[k].data == Buf(b);
    }
  }

  lemma PutOwned(w: World, key: Key, buf: Ptr, size: size_t)
    requires Owned(w) && Vacant(w) && Allowed(w, PutOp(key, buf, size))
    ensures Owned(PutStep(w, key, buf, size))
  {
    var v := PutStep(w, key, buf, size);
    forall b
      ensures FreeCount(v.log, b) == FreeCount(w.log, b)
    {
      var out := Put(w.store, key, buf, size);
      FreeCountAppend(w.log, out.effects, b);
      if key in w.store.slots {
        CallsFreeNothing(w.store.slots[key].waiters, buf, size, true, b);
      }
    }
    if v.store != w.store {
      assert v.store.slots == w.store.slots[key := v.store.slots[key]];
      assert forall k :: k in v.store.slots && k != key ==> k in w.store.slots && v.store.slots[k] == w.store.slots[k];
      assert v.store.slots[key].data == buf;
      forall b | b in v.taken
        ensures FreeCount(v.log, b) == 1 || Stored(v.store, b)
      {
        if b != buf.id && FreeCount(w.log, b) != 1 {
          var k :| k in w.store.slots && w.store.slots[k].data == Buf(b);
          assert v.store.slots[k].data == Buf(b);
        }
      }
    }
  }

  lemma GetFreesNothing(w: World, key: Key, cb: Option<Callback>, b: nat)
    requires key in w.store.slots ==> cb.Some?
    ensures FreeCount(GetStep(w, key, cb).log, b) == FreeCount(w.log, b)
  {
    FreeCountAppend(w.log, Get(w.store, key, cb).effects, b);
  }

  lemma GetOwned(w: World, key: Key, cb: Option<Callback>)
    requires Owned(w)
    requires key in w.store.slots ==> cb.Some?
    ensures Owned(GetStep(w, key, cb))
  {
    forall b {
      GetFreesNothing(w, key, cb, b);
    }
    SameBuffersOwned(w, GetStep(w, key, cb));
  }

  lemma ReserveOwned(w: World, key: Key)
    requires Owned(w)
    ensures Owned(ReserveStep(w, key))
  {
    SameBuffersOwned(w, ReserveStep(w, key));
  }

  lemma CancelOwned(w: World, key: Key)
    requires Owned(w)
    ensures Owned(CancelStep(w, key))
  {
    var v := CancelStep(w, key);
    forall b
      ensures FreeCount(v.log, b) == FreeCount(w.log, b)
    {
      FreeCountAppend(w.log, CancelReservation(w.store, key).effects, b);
      if key in w.store.slots {
        CallsFreeNothing(w.store.slots[key].waiters, Null, 0, false, b);
      }
    }
    SameBuffersOwned(w, v);
  }

  lemma UnreferenceOwned(w: World, key: Key, hold: Ptr)
    requires Owned(w)
    requires key in w.store.slots && w.store.slots[key].refs > 0 && key in w.held
    ensures Owned(UnreferenceStep(w, key, hold))
  {
    SameBuffersOwned(w, UnreferenceStep(w, key, hold));
  }

  lemma EvictOneOwned(w: World)
    requires Owned(w) && IdleListed(w.store) && w.store.idle != []
    ensures Owned(EvictStep(w, 1))
  {
    var v := EvictStep(w, 1);
    var key := w.store.idle[0];
    assert key in w.store.idle;
    assert w.store.idle[..1] == [key];
    var data := w.store.slots[key].data;
    forall b
      ensures FreeCount(v.log, b) == FreeCount(w.log, b) + if data == Buf(b) then 1 else 0
    {
      FreeCountAppend(w.log, Frees(w.store, 1), b);
      assert Frees(w.store, 1) == [Freed(data)];
    }
    assert forall k :: k in v.store.slots <==> k in w.store.slots && k != key;
    forall b | b in v.taken
      ensures FreeCount(v.log, b) == 1 || Stored(v.store, b)
    {
      if FreeCount(w.log, b) != 1 && data != Buf(b) {
        var k :| k in w.store.slots && w.store.slots[k].data == Buf(b);
        assert v.store.slots[k].data == Buf(b);
      }
    }
  }

  lemma EvictNothing(w: World)
    requires IdleListed(w.store)
    ensures EvictStep(w, 0) == w
  {
    assert EvictStep(w, 0).store.slots == w.store.slots;
    assert EvictStep(w, 0).held == w.held;
    assert w.log + [] == w.log;
  }

  lemma EvictOneMoreStep(w: World, n: nat)
    requires IdleListed(w.store) && n < |w.store.idle|
    requires IdleListed(EvictStep(w, n).store)
    ensures EvictStep(w, n + 1) == EvictStep(EvictStep(w, n), 1)
  {
    var u := EvictStep(w, n);
    var k := w.store.idle[n];
    EvictOneMore(w.store, n);
    assert u.store.idle[..1] == [k];
    assert w.store.idle[..n + 1] == w.store.idle[..n] + [k];
    assert EvictStep(u, 1).held == EvictStep(w, n + 1).held;
    Associative(w.log, Frees(w.store, n), [Freed(w.store.slots[k].data)]);
    assert Frees(u.store, 1) == [Freed(w.store.slots[k].data)];
  }

  lemma {:induction false} EvictOwned(w: World, n: nat)
    requires Owned(w) && WellFormed(w.store) && n <= |w.store.idle|
    ensures Owned(EvictStep(w, n))
  {
    if n == 0 {
      EvictNothing(w);
    } else {
      EvictOwned(w, n - 1);
      EvictWellFormed(w.store, n - 1);
      EvictOneMoreStep(w, n - 1);
      EvictOneOwned(EvictStep(w, n - 1));
    }
  }

  // ---- callbacks ----

  lemma {:induction false} DisposalsAppend(log: seq<Effect>, more: seq<Effect>, cb: Callback)
    ensures Disposals(log + more, cb) == Disposals(log, cb) + Disposals(more, cb)
  {
    if more == [] {
      assert log + more == log;
    } else {
      var init := more[..|more| - 1];
      assert (log + more)[..|log + more| - 1] == log + init;
      DisposalsAppend(log, init, cb);
    }
  }

  /** CallAll deletes each of the callbacks once. */
  lemma {:induction false} CallsDispose(cbs: seq<Callback>, data: Ptr, size: size_t, isCached: bool, cb: Callback)
    requires Distinct(cbs)
    ensures Disposals(CallAll(cbs, data, size, isCached), cb) == if cb in cbs then 1 else 0
    decreases |cbs|
  {
    if cbs != [] {
      var last := |cbs| - 1;
      var init := RemoveAt(cbs, last);
      RemoveDistinct(cbs, last);
      assert init == cbs[..last] && cbs == init + [cbs[last]];
      assert CallAll(cbs, data, size, isCached)[..last] == CallAll(init, data, size, isCached);
      CallsDispose(init, data, size, isCached, cb);
    }
  }

  lemma {:induction false} FreesDisposeNothing(s: Store, n: nat, cb: Callback)
    requires IdleListed(s) && n <= |s.idle|
    ensures Disposals(Frees(s, n), cb) == 0
  {
    if n > 0 {
      FreesDisposeNothing(s, n - 1, cb);
      assert Frees(s, n)[..n - 1] == Frees(s, n - 1);
    }
  }

  ghost predicate Waits(s: Store, key: Key, cb: Callback) {
    key in s.slots && s.slots[key].reserved && cb in s.slots[key].waiters
  }

  ghost predicate Waiting(s: Store, cb: Callback) {
    exists k :: Waits(s, k, cb)
  }

  /** Each callback given to get is deleted exactly once, or waits, once, for one live reservation. */
  ghost predicate Answered(w: World) {
    && (forall cb :: cb in w.offered ==> Disposals(w.log, cb) == if Waiting(w.store, cb) then 0 else 1)
    && (forall cb :: Disposals(w.log, cb) > 0 || Waiting(w.store, cb) ==> cb in w.offered)
    && (forall k, l, cb :: Waits(w.store, k, cb) && Waits(w.store, l, cb) ==> k == l)
    && (forall k :: k in w.store.slots && w.store.slots[k].reserved ==> Distinct(w.store.slots[k].waiters))
  }

  /** A step that deletes no callback and changes no live waiter queue keeps Answered. */
  lemma SameWaitersAnswered(w: World, v: World)
    requires Answered(w) && v.offered == w.offered
    requires forall cb :: Disposals(v.log, cb) == Disposals(w.log, cb)
    requires forall k, cb :: Waits(v.store, k, cb) <==> Waits(w.store, k, cb)
    requires forall k :: k in v.store.slots && v.store.slots[k].reserved ==> Distinct(v.store.slots[k].waiters)
    ensures Answered(v)
  {
    assert forall cb :: Waiting(v.store, cb) <==> Waiting(w.store, cb);
  }

  /** The reservation of `key` ends and its waiters are called. */
  lemma ReservationEndsAnswered(w: World, key: Key, v: World, data: Ptr, size: size_t, isCached: bool)
    requires Answered(w) && v.offered == w.offered
    requires key in w.store.slots && w.store.slots[key].reserved
    requires v.log == w.log + CallAll(w.store.slots[key].waiters, data, size, isCached)
    requires v.store.slots.Keys == w.store.slots.Keys && !v.store.slots[key].reserved
    requires forall k :: k in v.store.slots && k != key ==> v.store.slots[k] == w.store.slots[k]
    ensures Answered(v)
  {
    var cbs := w.store.slots[key].waiters;
    forall cb
      ensures Disposals(v.log, cb) == Disposals(w.log, cb) + if Waits(w.store, key, cb) then 1 else 0
      ensures Waiting(v.store, cb) <==> Waiting(w.store, cb) && !Waits(w.store, key, cb)
    {
      DisposalsAppend(w.log, CallAll(cbs, data, size, isCached), cb);
      CallsDispose(cbs, data, size, isCached, cb);
      if Waiting(w.store, cb) {
        var k :| Waits(w.store, k, cb);
        assert k != key ==> Waits(v.store, k, cb);
      }
      if Waiting(v.store, cb) {
        var k :| Waits(v.store, k, cb);
        assert Waits(w.store, k, cb);
      }
    }
    forall k, l, cb | Waits(v.store, k, cb) && Waits(v.store, l, cb)
      ensures k == l
    {
      assert Waits(w.store, k, cb) && Waits(w.store, l, cb);
    }
  }

  lemma PutAnswered(w: World, key: Key, buf: Ptr, size: size_t)
    requires Answered(w)
    ensures Answered(PutStep(w, key, buf, size))
  {
    var v := PutStep(w, key, buf, size);
    if key in w.store.slots && w.store.slots[key].reserved {
      ReservationEndsAnswered(w, key, v, buf, size, true);
    } else {
      SameWaitersAnswered(w, v);
    }
  }

  lemma CancelAnswered(w: World, key: Key)
    requires Answered(w)
    ensures Answered(CancelStep(w, key))
  {
    var v := CancelStep(w, key);
    if key in w.store.slots && w.store.slots[key].reserved {
      ReservationEndsAnswered(w, key, v, Null, 0, false);
    } else {
      assert w.log + [] == w.log;
    }
  }

  lemma ReserveAnswered(w: World, key: Key)
    requires Answered(w) && Allowed(w, ReserveOp(key))
    ensures Answered(ReserveStep(w, key))
  {
    SameWaitersAnswered(w, ReserveStep(w, key));
  }

  lemma UnreferenceAnswered(w: World, key: Key, hold: Ptr)
    requires Answered(w)
    requires key in w.store.slots && w.store.slots[key].refs > 0 && key in w.held
    ensures Answered(UnreferenceStep(w, key, hold))
  {
    var v := UnreferenceStep(w, key, hold);
    assert forall k, cb :: Waits(v.store, k, cb) <==> Waits(w.store, k, cb);
    SameWaitersAnswered(w, v);
  }

  /** Idle entries are not reserved, so eviction loses no waiter. */
  lemma EvictAnswered(w: World, n: nat)
    requires Answered(w) && WellFormed(w.store) && n <= |w.store.idle|
    ensures Answered(EvictStep(w, n))
  {
    var v := EvictStep(w, n);
    forall cb
      ensures Disposals(v.log, cb) == Disposals(w.log, cb)
    {
      DisposalsAppend(w.log, Frees(w.store, n), cb);
      FreesDisposeNothing(w.store, n, cb);
    }
    assert forall k :: k in w.store.idle[..n] ==> k in w.store.idle;
    SameWaitersAnswered(w, v);
  }

  lemma DisposalsOne(e: Effect, c: Callback)
    ensures Disposals([e], c) == match e
      case Called(d, _, _, _) => if c == d then 1 else 0
      case Discarded(d) => if c == d then 1 else 0
      case Freed(_) => 0
  {
    assert [e][..0] == [];
  }

  lemma GetDisposes(w: World, key: Key, cb: Option<Callback>, c: Callback)
    requires key in w.store.slots ==> cb.Some?
    requires !(key in w.store.slots && w.store.slots[key].reserved)
    ensures Disposals(GetStep(w, key, cb).log, c) == Disposals(w.log, c) + if cb == Some(c) then 1 else 0
  {
    var e := Get(w.store, key, cb).effects;
    DisposalsAppend(w.log, e, c);
    if e != [] {
      DisposalsOne(e[0], c);
    }
  }

  /** A fresh callback joins the queue of a live reservation, or is disposed of at once. */
  lemma GetAnswered(w: World, key: Key, cb: Option<Callback>)
    requires Answered(w) && Allowed(w, GetOp(key, cb))
    ensures Answered(GetStep(w, key, cb))
  {
    if key in w.store.slots && w.store.slots[key].reserved {
      QueuedAnswered(w, key, cb.value);
    } else {
      AnsweredAtOnce(w, key, cb);
    }
  }

  lemma AnsweredAtOnce(w: World, key: Key, cb: Option<Callback>)
    requires Answered(w) && Allowed(w, GetOp(key, cb))
    requires !(key in w.store.slots && w.store.slots[key].reserved)
    ensures Answered(GetStep(w, key, cb))
  {
    var v := GetStep(w, key, cb);
    forall c: Callback {
      GetDisposes(w, key, cb, c);
    }
    SameWaiters(w, key, cb);
  }

  lemma SameWaiters(w: World, key: Key, cb: Option<Callback>)
    requires key in w.store.slots ==> cb.Some?
    requires !(key in w.store.slots && w.store.slots[key].reserved)
    ensures var v := GetStep(w, key, cb);
      && (forall k, c :: Waits(v.store, k, c) <==> Waits(w.store, k, c))
      && (forall c :: Waiting(v.store, c) <==> Waiting(w.store, c))
  {
    var v := GetStep(w, key, cb);
    assert forall k, c :: Waits(v.store, k, c) <==> Waits(w.store, k, c);
  }

  lemma QueuedAnswered(w: World, key: Key, cb: Callback)
    requires Answered(w) && cb !in w.offered
    requires key in w.store.slots && w.store.slots[key].reserved
    ensures Answered(GetStep(w, key, Some(cb)))
  {
    var v := GetStep(w, key, Some(cb));
    assert w.log + [] == w.log;
    assert !Waiting(w.store, cb);
    assert !Waits(w.store, key, cb);
    AppendDistinct(w.store.slots[key].waiters, cb);
    forall k, c
      ensures Waits(v.store, k, c) <==> Waits(w.store, k, c) || (k == key && c == cb)
    {
    }
    forall c
      ensures Waiting(v.store, c) <==> Waiting(w.store, c) || c == cb
    {
      if c == cb {
        assert Waits(v.store, key, c);
      } else if Waiting(w.store, c) {
        var k :| Waits(w.store, k, c);
        assert Waits(v.store, k, c);
      }
    }
    forall k, l, c | Waits(v.store, k, c) && Waits(v.store, l, c)
      ensures k == l
    {
      if c != cb {
        assert Waits(w.store, k, c) && Waits(w.store, l, c);
      } else {
        assert !Waits(w.store, k, c) && !Waits(w.store, l, c);
      }
    }
  }

  // ---- sizes ----

  ghost function SizeSum(slots: map<Key, Slot>): nat {
    if slots == map[] then 0 else
      var k :| k in slots;
      slots[k].size + SizeSum(slots - {k})
  }

  lemma {:induction false} SizeSumRemove(slots: map<Key, Slot>, key: Key)
    requires key in slots
    ensures SizeSum(slots) == slots[key].size + SizeSum(slots - {key})
    decreases |slots|
  {
    var k :| k in slots && SizeSum(slots) == slots[k].size + SizeSum(slots - {k});
    if k != key {
      SizeSumRemove(slots - {k}, key);
      SizeSumRemove(slots - {key}, k);
      assert slots - {k} - {key} == slots - {key} - {k};
    }
  }

  lemma SizeSumWrite(slots: map<Key, Slot>, key: Key, slot: Slot)
    ensures SizeSum(slots[key := slot]) == SizeSum(slots) + slot.size - if key in slots then slots[key].size else 0
  {
    var written := slots[key := slot];
    SizeSumRemove(written, key);
    assert written - {key} == slots - {key};
    if key in slots {
      SizeSumRemove(slots, key);
    } else {
      assert slots - {key} == slots;
    }
  }

  /** a and b are the same size_t. */
  ghost predicate Congruent(a: int, b: int) {
    (a - b) % WORD == 0
  }

  /** currentSize_ is the sum of the entries' sizes, less what filling reservations added unnoticed. */
  ghost predicate Sized(w: World) {
    Congruent(w.store.used, SizeSum(w.store.slots) - w.drift)
  }

  lemma PutSized(w: World, key: Key, buf: Ptr, size: size_t)
    requires Sized(w)
    ensures Sized(PutStep(w, key, buf, size))
  {
    var out := Put(w.store, key, buf, size);
    if out.ok {
      SizeSumWrite(w.store.slots, key, out.store.slots[key]);
    }
  }

  lemma GetSized(w: World, key: Key, cb: Option<Callback>)
    requires Sized(w)
    requires key in w.store.slots ==> cb.Some?
    ensures Sized(GetStep(w, key, cb))
  {
    if key in w.store.slots {
      SizeSumWrite(w.store.slots, key, Get(w.store, key, cb).store.slots[key]);
    }
  }

  lemma ReserveSized(w: World, key: Key)
    requires Sized(w)
    ensures Sized(ReserveStep(w, key))
  {
    SizeSumWrite(w.store.slots, key, Reserve(w.store, key).store.slots[key]);
  }

  lemma CancelSized(w: World, key: Key)
    requires Sized(w)
    ensures Sized(CancelStep(w, key))
  {
    if key in w.store.slots {
      SizeSumWrite(w.store.slots, key, CancelReservation(w.store, key).store.slots[key]);
    }
  }

  lemma UnreferenceSized(w: World, key: Key, hold: Ptr)
    requires Sized(w)
    requires key in w.store.slots && w.store.slots[key].refs > 0 && key in w.held
    ensures Sized(UnreferenceStep(w, key, hold))
  {
    SizeSumWrite(w.store.slots, key, Unreference(w.store, key).slots[key]);
  }

  /** The sizes of the first n idle entries, added up without wrapping. */
  ghost function IdleSum(s: Store, n: nat): nat
    requires IdleListed(s) && n <= |s.idle|
  {
    if n == 0 then 0 else
      assert s.idle[n - 1] in s.idle;
      IdleSum(s, n - 1) + s.slots[s.idle[n - 1]].size
  }

  lemma {:induction false} FreedByIsIdleSum(s: Store, n: nat)
    requires IdleListed(s) && n <= |s.idle|
    ensures Congruent(FreedBy(s, n), IdleSum(s, n))
  {
    if n > 0 {
      FreedByIsIdleSum(s, n - 1);
    }
  }

  /** Eviction takes the sizes of the evicted entries out of the sum. */
  lemma {:induction false} EvictSum(s: Store, n: nat)
    requires IdleListed(s) && n <= |s.idle|
    ensures SizeSum(s.slots) == SizeSum(Evict(s, n).slots) + IdleSum(s, n)
  {
    if n == 0 {
      assert Evict(s, 0).slots == s.slots;
    } else {
      EvictSum(s, n - 1);
      EvictOneMore(s, n - 1);
      var t := Evict(s, n - 1);
      SizeSumRemove(t.slots, s.idle[n - 1]);
      assert t.idle[..1] == [s.idle[n - 1]];
      assert Evict(t, 1).slots == t.slots - {s.idle[n - 1]};
    }
  }

  lemma SubCongruent(used: size_t, freed: size_t, sum: int, drift: int, idle: int)
    requires Congruent(used, sum + idle - drift) && Congruent(freed, idle)
    ensures Congruent(Sub(used, freed), sum - drift)
  {
  }

  lemma CleanupSized(w: World, n: nat)
    requires Sized(w) && IdleListed(w.store) && n <= |w.store.idle|
    ensures Sized(Cleaned(w, n))
  {
    EvictSum(w.store, n);
    FreedByIsIdleSum(w.store, n);
    SubCongruent(w.store.used, FreedBy(w.store, n), SizeSum(Evict(w.store, n).slots), w.drift, IdleSum(w.store, n));
  }

  // ---- whole runs ----

  ghost predicate Invariant(w: World) {
    WellFormed(w.store) && Counted(w) && Vacant(w) && Owned(w) && Answered(w) && Sized(w)
  }

  lemma EmptyInvariant(quota: size_t)
    ensures Invariant(Empty(quota))
  {
  }

  ghost function Step(w: World, op: Op): World
    requires WellFormed(w.store) && Counted(w) && Allowed(w, op)
  {
    match op
    case PutOp(key, buf, size) => PutStep(w, key, buf, size)
    case GetOp(key, cb) => GetStep(w, key, cb)
    case ReserveOp(key) => ReserveStep(w, key)
    case CancelOp(key) => CancelStep(w, key)
    case DoneOp(key, hold) =>
      UnreferenceWellFormed(w.store, key);
      assert |w.held[key]| > 0;
      DoneStep(w, key, hold)
  }

  lemma UnreferenceInvariant(w: World, key: Key, hold: Ptr)
    requires Invariant(w) && Allowed(w, DoneOp(key, hold))
    ensures w.store.slots[key].refs > 0 && Invariant(UnreferenceStep(w, key, hold))
  {
    UnreferenceCounted(w, key, hold);
    UnreferenceWellFormed(w.store, key);
    UnreferenceOwned(w, key, hold);
    UnreferenceAnswered(w, key, hold);
    UnreferenceSized(w, key, hold);
  }

  lemma DoneInvariant(w: World, key: Key, hold: Ptr)
    requires Invariant(w) && Allowed(w, DoneOp(key, hold))
    ensures Invariant(Step(w, DoneOp(key, hold)))
  {
    UnreferenceInvariant(w, key, hold);
    UnreferenceWellFormed(w.store, key);
    DoneStepIs(w, key, hold);
    var u := UnreferenceStep(w, key, hold);
    if u.store.used > u.store.quota {
      CleanupInvariant(u, Victims(u.store, Sub(u.store.used, u.store.quota), 0));
    }
  }

  lemma CleanupInvariant(u: World, n: nat)
    requires Invariant(u) && n <= |u.store.idle|
    ensures Invariant(Cleaned(u, n))
  {
    EvictWellFormed(u.store, n);
    EvictCounted(u, n);
    EvictOwned(u, n);
    EvictAnswered(u, n);
    CleanupSized(u, n);
    var v, t := EvictStep(u, n), Cleaned(u, n);
    assert WellFormed(t.store);
    SameWaitersAnswered(v, t);
    SameBuffersOwned(v, t);
  }

  /** Every step of a disciplined client keeps all six parts of the invariant. */
  lemma StepInvariant(w: World, op: Op)
    requires Invariant(w) && Allowed(w, op)
    ensures Invariant(Step(w, op))
  {
    match op
    case PutOp(key, buf, size) =>
      PutWellFormed(w.store, key, buf, size);
      PutCounted(w, key, buf, size);
      PutVacant(w, key, buf, size);
      PutOwned(w, key, buf, size);
      PutAnswered(w, key, buf, size);
      PutSized(w, key, buf, size);
    case GetOp(key, cb) =>
      GetWellFormed(w.store, key, cb);
      GetCounted(w, key, cb);
      GetVacant(w, key, cb);
      GetOwned(w, key, cb);
      GetAnswered(w, key, cb);
      GetSized(w, key, cb);
    case ReserveOp(key) =>
      ReserveWellFormed(w.store, key);
      ReserveCounted(w, key);
      ReserveOwned(w, key);
      ReserveAnswered(w, key);
      ReserveSized(w, key);
    case CancelOp(key) =>
      CancelWellFormed(w.store, key);
      CancelCounted(w, key);
      CancelOwned(w, key);
      CancelAnswered(w, key);
      CancelSized(w, key);
    case DoneOp(key, hold) =>
      DoneInvariant(w, key, hold);
  }

  /** A run of disciplined operations; None when some operation breaks the discipline. */
  ghost function Run(w: World, ops: seq<Op>): Option<World> {
    if ops == [] then Some(w) else
      var last := |ops| - 1;
      var before := Run(w, ops[..last]);
      if before.Some? && WellFormed(before.value.store) && Counted(before.value) && Allowed(before.value, ops[last])
      then Some(Step(before.value, ops[last]))
      else None
  }

  /** Reference counts, buffer ownership, callbacks and sizes are right after every disciplined run. */
  lemma {:induction false} RunInvariant(w: World, ops: seq<Op>)
    requires Invariant(w) && Run(w, ops).Some?
    ensures Invariant(Run(w, ops).value)
  {
    if ops != [] {
      var last := |ops| - 1;
      RunInvariant(w, ops[..last]);
      StepInvariant(Run(w, ops[..last]).value, ops[last]);
    }
  }

  // ---- a holder's buffer ----

  function Releases(ops: seq<Op>, key: Key, p: Ptr): nat {
    if ops == [] then 0 else
      Releases(ops[..|ops| - 1], key, p) + if ops[|ops| - 1] == DoneOp(key, p) then 1 else 0
  }

  function Holds(w: World, key: Key, p: Ptr): nat {
    if key in w.held then w.held[key][p] else 0
  }

  lemma PutKeepsHolds(w: World, k: Key, buf: Ptr, size: size_t, key: Key, p: Ptr)
    requires Counted(w)
    ensures Holds(PutStep(w, k, buf, size), key, p) >= Holds(w, key, p)
  {
  }

  lemma GetKeepsHolds(w: World, k: Key, cb: Option<Callback>, key: Key, p: Ptr)
    requires Counted(w)
    requires k in w.store.slots ==> cb.Some?
    ensures Holds(GetStep(w, k, cb), key, p) >= Holds(w, key, p)
  {
  }

  lemma UnreferenceHolds(w: World, k: Key, hold: Ptr, key: Key, p: Ptr)
    requires Counted(w) && Allowed(w, DoneOp(k, hold)) && w.store.slots[k].refs > 0
    ensures Holds(UnreferenceStep(w, k, hold), key, p) == Holds(w, key, p) - (if k == key && hold == p then 1 else 0)
  {
  }

  lemma CleanedKeepsHolds(u: World, n: nat, key: Key, p: Ptr)
    requires Counted(u) && WellFormed(u.store) && n <= |u.store.idle|
    ensures Holds(Cleaned(u, n), key, p) == Holds(u, key, p)
  {
    EvictKeepsHolds(u, n, key, p);
  }

  /** doneWith takes one hold back, the caller's. */
  lemma DoneHolds(w: World, k: Key, hold: Ptr, key: Key, p: Ptr)
    requires WellFormed(w.store) && Counted(w) && Vacant(w) && Allowed(w, DoneOp(k, hold))
    ensures w.store.slots[k].refs > 0 && IdleListed(Unreference(w.store, k))
    ensures Holds(DoneStep(w, k, hold), key, p) == Holds(w, key, p) - (if k == key && hold == p then 1 else 0)
  {
    UnreferenceCounted(w, k, hold);
    UnreferenceWellFormed(w.store, k);
    UnreferenceHolds(w, k, hold, key, p);
    DoneStepIs(w, k, hold);
    var u := UnreferenceStep(w, k, hold);
    if u.store.used > u.store.quota {
      CleanedKeepsHolds(u, Victims(u.store, Sub(u.store.used, u.store.quota), 0), key, p);
    }
  }

  /** A hold is only ever lost to a doneWith for it: entries that are held are not evicted. */
  lemma StepKeepsHolds(w: World, op: Op, key: Key, p: Ptr)
    requires Invariant(w) && Allowed(w, op)
    ensures Holds(Step(w, op), key, p) >= Holds(w, key, p) - (if op == DoneOp(key, p) then 1 else 0)
  {
    match op
    case PutOp(k, buf, size) => PutKeepsHolds(w, k, buf, size, key, p);
    case GetOp(k, cb) => GetKeepsHolds(w, k, cb, key, p);
    case ReserveOp(_) =>
    case CancelOp(_) =>
    case DoneOp(k, hold) => DoneHolds(w, k, hold, key, p);
  }

  lemma EvictKeepsHolds(u: World, n: nat, key: Key, p: Ptr)
    requires Counted(u) && WellFormed(u.store) && n <= |u.store.idle|
    ensures Holds(EvictStep(u, n), key, p) == Holds(u, key, p)
  {
    if Holds(u, key, p) > 0 {
      assert p in u.held[key];
      assert u.store.slots[key].refs > 0;
      assert key !in u.store.idle;
      assert key !in u.store.idle[..n];
    }
  }

  /** While fewer doneWith calls than holds are made for a buffer, it stays in its entry, unfreed. */
  lemma {:induction false} HeldBufferStays(w: World, ops: seq<Op>, key: Key, b: nat)
    requires Invariant(w) && Run(w, ops).Some?
    requires Releases(ops, key, Buf(b)) < Holds(w, key, Buf(b))
    ensures var v := Run(w, ops).value;
      && Holds(v, key, Buf(b)) >= Holds(w, key, Buf(b)) - Releases(ops, key, Buf(b))
      && key in v.store.slots && v.store.slots[key].data == Buf(b)
      && FreeCount(v.log, b) == 0
  {
    RunInvariant(w, ops);
    if ops != [] {
      var last := |ops| - 1;
      HeldBufferStays(w, ops[..last], key, b);
      RunInvariant(w, ops[..last]);
      StepKeepsHolds(Run(w, ops[..last]).value, ops[last], key, Buf(b));
    }
    var v := Run(w, ops).value;
    assert key in v.held && Buf(b) in v.held[key];
  }

  // ---- first come, first called ----

  /** The callbacks given to get for `key` since its reservation was made, oldest first. */
  ghost function Queue(w: World, ops: seq<Op>, key: Key): seq<Callback> {
    if ops == [] then
      if key in w.store.slots then w.store.slots[key].waiters else []
    else
      var last := |ops| - 1;
      var before := Run(w, ops[..last]);
      match ops[last]
      case GetOp(k, Some(cb)) => if k == key then Queue(w, ops[..last], key) + [cb] else Queue(w, ops[..last], key)
      case ReserveOp(k) =>
        if k == key && before.Some? && key !in before.value.store.slots then [] else Queue(w, ops[..last], key)
      case _ => Queue(w, ops[..last], key)
  }

  /** put and cancelReservation go through the waiters of a reservation in the order of their gets. */
  lemma {:induction false} WaitersInOrder(w: World, ops: seq<Op>, key: Key)
    requires Invariant(w) && Run(w, ops).Some?
    requires key in Run(w, ops).value.store.slots && Run(w, ops).value.store.slots[key].reserved
    ensures Run(w, ops).value.store.slots[key].waiters == Queue(w, ops, key)
  {
    if ops != [] {
      var last := |ops| - 1;
      var u := Run(w, ops[..last]).value;
      RunInvariant(w, ops[..last]);
      StepWaiters(u, ops[last], key);
      if key in u.store.slots && u.store.slots[key].reserved {
        WaitersInOrder(w, ops[..last], key);
      }
    }
  }

  /** The log has grown by one call for each of the callbacks, in their order, each with these data. */
  ghost predicate CalledInTurn(before: seq<Effect>, after: seq<Effect>, cbs: seq<Callback>,
                               data: Ptr, size: size_t, isCached: bool) {
    && |after| == |before| + |cbs| && after[..|before|] == before
    && forall i :: 0 <= i < |cbs| ==> after[|before| + i] == Called(cbs[i], data, size, isCached)
  }

  /** put ends a reservation by calling exactly the callbacks that came since it was made, in their order, with
      its own buffer and isCached true; cancelReservation calls the same ones with NULL and false. */
  lemma ReservationEndsInOrder(w: World, ops: seq<Op>, key: Key, buf: Ptr, size: size_t)
    requires Invariant(w) && Run(w, ops).Some?
    requires key in Run(w, ops).value.store.slots && Run(w, ops).value.store.slots[key].reserved
    ensures var u := Run(w, ops).value;
      && CalledInTurn(u.log, PutStep(u, key, buf, size).log, Queue(w, ops, key), buf, size, true)
      && CalledInTurn(u.log, CancelStep(u, key).log, Queue(w, ops, key), Null, 0, false)
  {
    WaitersInOrder(w, ops, key);
  }

  /** get on a filled entry calls at once, once, with the entry's own data; on an absent key it deletes the callback
      uncalled; on a reserved one it does neither yet. */
  lemma GetAnswers(w: World, key: Key, cb: Callback)
    ensures var log := GetStep(w, key, Some(cb)).log;
      if key !in w.store.slots then log == w.log + [Discarded(cb)]
      else if w.store.slots[key].reserved then log == w.log
      else CalledInTurn(w.log, log, [cb], w.store.slots[key].data, w.store.slots[key].size, true)
  {
  }

  /** The results that cache.h documents: put fails if the key has an entry already (that is not reserved), get if
      it has none, cancelReservation if it is not reserved; a call that fails leaves the cache as it is. */
  lemma ResultsAsDocumented(s: Store, key: Key, buf: Ptr, size: size_t, cb: Callback)
    ensures Put(s, key, buf, size).ok <==> (key in s.slots ==> s.slots[key].reserved)
    ensures Get(s, key, Some(cb)).ok <==> key in s.slots
    ensures CancelReservation(s, key).ok <==> key in s.slots && s.slots[key].reserved
    ensures !Put(s, key, buf, size).ok ==> Put(s, key, buf, size) == Outcome(s, false, [])
    ensures !Get(s, key, Some(cb)).ok ==> Get(s, key, Some(cb)).store == s
    ensures !CancelReservation(s, key).ok ==> CancelReservation(s, key) == Outcome(s, false, [])
    ensures !Reserve(s, key).ok ==> Reserve(s, key) == Outcome(s, false, [])
  {
  }

  /** An accepted put is what the key holds from then on. */
  lemma PutStores(s: Store, key: Key, buf: Ptr, size: size_t)
    requires Put(s, key, buf, size).ok
    ensures var t := Put(s, key, buf, size).store;
      && key in t.slots && t.slots[key].data == buf && t.slots[key].size == size && !t.slots[key].reserved
      && (forall k :: k in s.slots && k != key ==> k in t.slots && t.slots[k] == s.slots[k])
  {
  }

  /** doneWith takes entries away and changes no more than one reference count. */
  lemma DoneKeepsEntries(u: World, key: Key, hold: Ptr, k: Key)
    requires WellFormed(u.store) && Counted(u) && Allowed(u, DoneOp(key, hold))
    requires k in Step(u, DoneOp(key, hold)).store.slots
    ensures k in u.store.slots
    ensures Step(u, DoneOp(key, hold)).store.slots[k].(refs := 0) == u.store.slots[k].(refs := 0)
  {
    UnreferenceWellFormed(u.store, key);
    assert |u.held[key]| > 0;
    DoneStepIs(u, key, hold);
  }

  lemma StepWaiters(u: World, op: Op, key: Key)
    requires WellFormed(u.store) && Counted(u) && Allowed(u, op)
    requires key in Step(u, op).store.slots && Step(u, op).store.slots[key].reserved
    ensures key in u.store.slots ==> u.store.slots[key].reserved
    ensures key !in u.store.slots ==> op == ReserveOp(key)
    ensures Step(u, op).store.slots[key].waiters ==
      (if key !in u.store.slots then []
       else if op.GetOp? && op.key == key && op.cb.Some? then u.store.slots[key].waiters + [op.cb.value]
       else u.store.slots[key].waiters)
  {
    if op.DoneOp? {
      DoneKeepsEntries(u, op.key, op.hold, key);
    }
  }

  // ---- quota ----

  /** The bytes that the run's puts stored by filling reservations. */
  ghost function FilledBytes(w: World, ops: seq<Op>): nat {
    if ops == [] then 0 else
      var last := |ops| - 1;
      var before := Run(w, ops[..last]);
      FilledBytes(w, ops[..last]) + if before.Some? && Fills(before.value, ops[last]) then ops[last].size else 0
  }

  ghost predicate Fills(w: World, op: Op) {
    op.PutOp? && op.key in w.store.slots && w.store.slots[op.key].reserved
  }

  /** No put of the run fills a reservation. */
  ghost predicate NoFills(w: World, ops: seq<Op>) {
    forall i :: 0 <= i < |ops| ==> Run(w, ops[..i]).Some? ==> !Fills(Run(w, ops[..i]).value, ops[i])
  }

  lemma {:induction false} NoFillsNoBytes(w: World, ops: seq<Op>)
    requires NoFills(w, ops)
    ensures FilledBytes(w, ops) == 0
  {
    if ops != [] {
      var last := |ops| - 1;
      forall i | 0 <= i < last
        ensures Run(w, ops[..last][..i]).Some? ==> !Fills(Run(w, ops[..last][..i]).value, ops[..last][i])
      {
        assert ops[..last][..i] == ops[..i];
      }
      NoFillsNoBytes(w, ops[..last]);
    }
  }

  /** A reservation counts for nothing. */
  ghost predicate Unsized(w: World) {
    forall k :: k in w.store.slots && w.store.slots[k].reserved ==> w.store.slots[k].size == 0
  }

  lemma DriftStep(u: World, op: Op)
    requires WellFormed(u.store) && Counted(u) && Allowed(u, op) && Unsized(u)
    ensures Unsized(Step(u, op))
    ensures Step(u, op).drift == u.drift + if Fills(u, op) then op.size else 0
  {
    if op.DoneOp? {
      UnreferenceWellFormed(u.store, op.key);
      assert |u.held[op.key]| > 0;
      DoneStepIs(u, op.key, op.hold);
    }
  }

  lemma {:induction false} DriftIsFilledBytes(quota: size_t, ops: seq<Op>)
    requires Run(Empty(quota), ops).Some?
    ensures var w := Run(Empty(quota), ops).value; Unsized(w) && w.drift == FilledBytes(Empty(quota), ops)
  {
    if ops != [] {
      var last := |ops| - 1;
      DriftIsFilledBytes(quota, ops[..last]);
      DriftStep(Run(Empty(quota), ops[..last]).value, ops[last]);
    }
  }

  lemma CongruentWithin(a: nat, b: nat, drift: int)
    requires Congruent(a, b - drift) && a < WORD && b < WORD
    ensures a == b <==> drift % WORD == 0
  {
  }

  lemma SizedWithin(w: World, bytes: nat)
    requires Sized(w) && w.drift == bytes && SizeSum(w.store.slots) < WORD
    ensures w.store.used == SizeSum(w.store.slots) <==> bytes % WORD == 0
  {
    CongruentWithin(w.store.used, SizeSum(w.store.slots), w.drift);
  }

  lemma RunSized(quota: size_t, ops: seq<Op>)
    requires Run(Empty(quota), ops).Some?
    ensures Sized(Run(Empty(quota), ops).value)
  {
    EmptyInvariant(quota);
    RunInvariant(Empty(quota), ops);
  }

  /** After a disciplined run, while the sizes fit a size_t, currentSize_ is their sum exactly if the bytes
      stored by filling reservations are a multiple of the word size. */
  lemma ExactSizeIff(quota: size_t, ops: seq<Op>)
    requires Run(Empty(quota), ops).Some?
    requires SizeSum(Run(Empty(quota), ops).value.store.slots) < WORD
    ensures var s := Run(Empty(quota), ops).value.store;
      s.used == SizeSum(s.slots) <==> FilledBytes(Empty(quota), ops) % WORD == 0
  {
    RunSized(quota, ops);
    DriftIsFilledBytes(quota, ops);
    SizedWithin(Run(Empty(quota), ops).value, FilledBytes(Empty(quota), ops));
  }

  /** So without fills it is the sum. */
  lemma ExactSize(quota: size_t, ops: seq<Op>)
    requires Run(Empty(quota), ops).Some? && NoFills(Empty(quota), ops)
    requires SizeSum(Run(Empty(quota), ops).value.store.slots) < WORD
    ensures var s := Run(Empty(quota), ops).value.store; s.used == SizeSum(s.slots)
  {
    NoFillsNoBytes(Empty(quota), ops);
    ExactSizeIff(quota, ops);
  }

  /** cleanup takes the fewest idle entries, in the order they became idle, that free enough. */
  lemma {:induction false} VictimsLeast(s: Store, space: size_t, n: nat, m: nat)
    requires IdleListed(s) && n <= m <= |s.idle|
    ensures m < Victims(s, space, n) ==> FreedBy(s, m) < space
    ensures m == Victims(s, space, n) ==> FreedBy(s, m) >= space || m == |s.idle|
    decreases |s.idle| - n
  {
    if FreedBy(s, n) < space && n < |s.idle| && n < m {
      VictimsLeast(s, space, n + 1, m);
    }
  }

  /** The idle list once the reference is dropped. */
  function IdleAfter(s: Store, key: Key): seq<Key>
    requires key in s.slots
  {
    if s.slots[key].refs == 1 then s.idle + [key] else s.idle
  }

  /** The first n of the idle list are gone, freed in their order, and all else is as it was. */
  ghost predicate GoneExactly(s: Store, idle: seq<Key>, n: nat, out: Outcome) {
    && n <= |idle| && out.store.idle == idle[n..]
    && (forall k :: k in out.store.slots <==> k in s.slots && k !in idle[..n])
    && |out.effects| == n
    && (forall i :: 0 <= i < n ==> idle[i] in s.slots && out.effects[i] == Freed(s.slots[idle[i]].data))
    && out.store.quota == s.quota
  }

  lemma {:induction false} FreesAt(s: Store, n: nat, i: nat)
    requires IdleListed(s) && i < n <= |s.idle|
    ensures s.idle[i] in s.slots && Frees(s, n)[i] == Freed(s.slots[s.idle[i]].data)
  {
    assert s.idle[n - 1] in s.idle;
    if i < n - 1 {
      FreesAt(s, n - 1, i);
    }
  }

  /** The sizes of the first m entries of an idle list, added up. */
  ghost function Sizes(s: Store, idle: seq<Key>, m: nat): nat
    requires m <= |idle|
  {
    if m == 0 then 0 else Sizes(s, idle, m - 1) + if idle[m - 1] in s.slots then s.slots[idle[m - 1]].size else 0
  }

  lemma AddWraps(a: nat, b: nat, c: size_t)
    requires b == a % WORD
    ensures Add(b, c) == (a + c) % WORD
  {
  }

  lemma {:induction false} FreedByIsSizes(s: Store, t: Store, m: nat)
    requires IdleListed(t) && m <= |t.idle| && t.slots.Keys == s.slots.Keys
    requires forall k :: k in t.slots ==> t.slots[k].size == s.slots[k].size
    ensures FreedBy(t, m) == Sizes(s, t.idle, m) % WORD
  {
    if m > 0 {
      assert t.idle[m - 1] in t.idle;
      FreedByIsSizes(s, t, m - 1);
      AddWraps(Sizes(s, t.idle, m - 1), FreedBy(t, m - 1), t.slots[t.idle[m - 1]].size);
    }
  }

  lemma {:induction false} GoneCount(s: Store, n: nat)
    requires IdleListed(s) && n <= |s.idle|
    ensures |Evict(s, n).slots| == |s.slots| - n
  {
    if n == 0 {
      assert Evict(s, 0).slots == s.slots;
    } else {
      GoneCount(s, n - 1);
      EvictOneMore(s, n - 1);
      var t := Evict(s, n - 1);
      assert t.idle[..1] == [s.idle[n - 1]];
      assert Evict(s, n).slots == t.slots - {s.idle[n - 1]};
      assert (t.slots - {s.idle[n - 1]}).Keys == t.slots.Keys - {s.idle[n - 1]};
    }
  }

  /** n is the least number of idle entries whose sizes, as size_t adds them, reach the excess; or all of them. */
  ghost predicate LeastReaching(s: Store, idle: seq<Key>, excess: nat, n: nat) {
    && n <= |idle|
    && (forall m: nat :: m < n ==> Sizes(s, idle, m) % WORD < excess)
    && (n < |idle| ==> Sizes(s, idle, n) % WORD >= excess)
  }

  /** t holds the same entries as s, with the same data and sizes. */
  ghost predicate SameContents(s: Store, t: Store) {
    && t.slots.Keys == s.slots.Keys && t.quota == s.quota
    && forall k :: k in t.slots ==> t.slots[k].size == s.slots[k].size && t.slots[k].data == s.slots[k].data
  }

  lemma VictimsReach(s: Store, t: Store, space: size_t)
    requires IdleListed(t) && SameContents(s, t)
    ensures LeastReaching(s, t.idle, space, Victims(t, space, 0))
  {
    forall m: nat | m <= |t.idle|
      ensures Sizes(s, t.idle, m) % WORD == FreedBy(t, m)
      ensures m < Victims(t, space, 0) ==> FreedBy(t, m) < space
      ensures m == Victims(t, space, 0) ==> FreedBy(t, m) >= space || m == |t.idle|
    {
      FreedByIsSizes(s, t, m);
      VictimsLeast(t, space, 0, m);
    }
  }

  lemma CleanupGone(s: Store, t: Store, space: size_t)
    requires IdleListed(t) && SameContents(s, t)
    ensures var n := Victims(t, space, 0);
      GoneExactly(s, t.idle, n, Cleanup(t, space)) && |Cleanup(t, space).store.slots| == |s.slots| - n
  {
    var n := Victims(t, space, 0);
    GoneCount(t, n);
    assert |t.slots.Keys| == |s.slots.Keys|;
    forall i | 0 <= i < n
      ensures t.idle[i] in s.slots && Frees(t, n)[i] == Freed(s.slots[t.idle[i]].data)
    {
      FreesAt(t, n, i);
    }
  }

  lemma NothingGone(s: Store, t: Store)
    requires SameContents(s, t)
    ensures GoneExactly(s, t.idle, 0, Outcome(t, true, [])) && |t.slots| == |s.slots|
  {
    assert |t.slots.Keys| == |s.slots.Keys|;
  }

  ghost predicate EvictsExactly(s: Store, idle: seq<Key>, out: Outcome) {
    var n := |s.slots| - |out.store.slots|;
    && n >= 0 && GoneExactly(s, idle, n, out)
    && if s.used <= s.quota then n == 0 else LeastReaching(s, idle, s.used - s.quota, n)
  }

  lemma CleanupEvicts(s: Store, t: Store)
    requires IdleListed(t) && SameContents(s, t) && t.used == s.used > s.quota
    ensures EvictsExactly(s, t.idle, Cleanup(t, Sub(t.used, t.quota)))
  {
    var space := Sub(t.used, t.quota);
    VictimsReach(s, t, space);
    CleanupGone(s, t, space);
    ReachingEvicts(s, t.idle, Cleanup(t, space), Victims(t, space, 0));
  }

  lemma ReachingEvicts(s: Store, idle: seq<Key>, out: Outcome, n: nat)
    requires |out.store.slots| == |s.slots| - n && GoneExactly(s, idle, n, out)
    requires s.used > s.quota && LeastReaching(s, idle, s.used - s.quota, n)
    ensures EvictsExactly(s, idle, out)
  {
  }

  lemma UnreferenceContents(s: Store, key: Key)
    requires key in s.slots && s.slots[key].refs > 0
    ensures var t := Unreference(s, key);
      SameContents(s, t) && t.idle == IdleAfter(s, key) && t.used == s.used
  {
    assert Unreference(s, key).slots.Keys == s.slots.Keys;
  }

  /** What a doneWith evicts: nothing within the quota; beyond it the shortest run of the idle list, from its
      front, whose sizes reach the excess, or all of it.  The caller's entry is the last of the list if it gave
      back the last reference. */
  lemma DoneWithEvicts(s: Store, key: Key)
    requires WellFormed(s) && key in s.slots && s.slots[key].refs > 0
    ensures IdleListed(Unreference(s, key))
    ensures EvictsExactly(s, IdleAfter(s, key), DoneWith(s, key))
  {
    UnreferenceWellFormed(s, key);
    UnreferenceContents(s, key);
    var t := Unreference(s, key);
    if t.used > t.quota {
      CleanupEvicts(s, t);
    } else {
      NothingGone(s, t);
    }
  }

  /** After a run without fills a doneWith ends within the quota or with nothing idle left. */
  lemma DoneWithMeetsQuota(quota: size_t, ops: seq<Op>, key: Key, hold: Ptr)
    requires Run(Empty(quota), ops).Some? && NoFills(Empty(quota), ops)
    requires var w := Run(Empty(quota), ops).value;
      Allowed(w, DoneOp(key, hold)) && SizeSum(w.store.slots) < WORD
    ensures var w := Run(Empty(quota), ops).value;
      && WellFormed(w.store) && Counted(w)
      && var v := Step(w, DoneOp(key, hold)).store;
        v.used <= v.quota || v.idle == []
  {
    EmptyInvariant(quota);
    RunInvariant(Empty(quota), ops);
    ExactSize(quota, ops);
    ExactDoneWithMeetsQuota(Run(Empty(quota), ops).value, key, hold);
  }

  lemma ExactDoneWithMeetsQuota(w: World, key: Key, hold: Ptr)
    requires Invariant(w) && Allowed(w, DoneOp(key, hold)) && w.store.used == SizeSum(w.store.slots)
    ensures var v := Step(w, DoneOp(key, hold)).store;
      v.used <= v.quota || v.idle == []
  {
    UnreferenceCounted(w, key, hold);
    UnreferenceWellFormed(w.store, key);
    DoneStepIs(w, key, hold);
    var u := UnreferenceStep(w, key, hold);
    SizeSumWrite(w.store.slots, key, u.store.slots[key]);
    if u.store.used > u.store.quota {
      CleanupMeetsQuota(u.store);
    }
  }

  lemma CleanupMeetsQuota(t: Store)
    requires IdleListed(t) && t.used == SizeSum(t.slots) && t.used > t.quota
    ensures var n := Victims(t, Sub(t.used, t.quota), 0);
      Sub(t.used, FreedBy(t, n)) <= t.quota || Evict(t, n).idle == []
  {
    var n := Victims(t, Sub(t.used, t.quota), 0);
    VictimsLeast(t, Sub(t.used, t.quota), 0, n);
    EvictSum(t, n);
    FreedByIsIdleSum(t, n);
    assert IdleSum(t, n) <= t.used < WORD;
  }

  /** Every put of the run meets an existing entry, as all of the server's do. */
  ghost predicate OnlyFills(w: World, ops: seq<Op>) {
    ops == [] ||
    (var last := |ops| - 1;
     && OnlyFills(w, ops[..last])
     && (ops[last].PutOp? && Run(w, ops[..last]).Some? ==> ops[last].key in Run(w, ops[..last]).value.store.slots))
  }

  /** A cache that is only ever filled through reservations never counts a byte and never evicts. */
  lemma {:induction false} OnlyFillsNeverEvicts(quota: size_t, ops: seq<Op>)
    requires Run(Empty(quota), ops).Some? && OnlyFills(Empty(quota), ops)
    ensures var w := Run(Empty(quota), ops).value;
      w.store.used == 0 && w.store.quota == quota && forall b :: FreeCount(w.log, b) == 0
  {
    if ops != [] {
      var last := |ops| - 1;
      OnlyFillsNeverEvicts(quota, ops[..last]);
      var u := Run(Empty(quota), ops[..last]).value;
      forall b
        ensures FreeCount(Step(u, ops[last]).log, b) == 0
      {
        FillFreesNothing(u, ops[last], b);
      }
    }
  }

  lemma FillFreesNothing(u: World, op: Op, b: nat)
    requires WellFormed(u.store) && Counted(u) && Allowed(u, op)
    requires u.store.used == 0
    requires op.PutOp? ==> op.key in u.store.slots
    ensures FreeCount(Step(u, op).log, b) == FreeCount(u.log, b)
    ensures Step(u, op).store.used == 0 && Step(u, op).store.quota == u.store.quota
  {
    match op
    case PutOp(key, buf, size) =>
      FreeCountAppend(u.log, Put(u.store, key, buf, size).effects, b);
      CallsFreeNothing(u.store.slots[key].waiters, buf, size, true, b);
    case GetOp(key, cb) =>
      FreeCountAppend(u.log, Get(u.store, key, cb).effects, b);
    case CancelOp(key) =>
      FreeCountAppend(u.log, CancelReservation(u.store, key).effects, b);
      if key in u.store.slots {
        CallsFreeNothing(u.store.slots[key].waiters, Null, 0, false, b);
      }
    case DoneOp(key, hold) =>
      UnreferenceWellFormed(u.store, key);
      assert |u.held[key]| > 0;
      DoneStepIs(u, key, hold);
    case _ =>
  }

  // ---- the end of a cache ----

  lemma {:induction false} DestroyCount(slots: map<Key, Slot>, order: seq<Key>, b: nat)
    requires Distinct(order) && forall k :: k in order ==> k in slots
    requires forall k, l :: k in slots && l in slots && k != l && slots[k].data.Buf? ==> slots[k].data != slots[l].data
    ensures FreeCount(DestroyFrees(slots, order), b)
         == if exists k :: k in order && slots[k].data == Buf(b) then 1 else 0
    decreases |order|
  {
    if order != [] {
      var last := |order| - 1;
      var init := RemoveAt(order, last);
      RemoveDistinct(order, last);
      assert init == order[..last] && order == init + [order[last]];
      assert DestroyFrees(slots, order)[..last] == DestroyFrees(slots, init);
      DestroyCount(slots, init, b);
      if slots[order[last]].data == Buf(b) {
        assert order[last] in order;
      } else if exists k :: k in order && slots[k].data == Buf(b) {
        var k :| k in order && slots[k].data == Buf(b);
        assert k in init;
      }
    }
  }

  /** Once the destructor has gone through the map, in whatever order, every accepted buffer has been
      freed exactly once and no other buffer at all. */
  lemma LifetimeFrees(quota: size_t, ops: seq<Op>, order: seq<Key>, b: nat)
    requires Run(Empty(quota), ops).Some?
    requires var s := Run(Empty(quota), ops).value.store;
      Distinct(order) && forall k :: k in order <==> k in s.slots
    ensures var w := Run(Empty(quota), ops).value;
      FreeCount(w.log + DestroyFrees(w.store.slots, order), b) == if b in w.taken then 1 else 0
  {
    EmptyInvariant(quota);
    RunInvariant(Empty(quota), ops);
    var w := Run(Empty(quota), ops).value;
    FreeCountAppend(w.log, DestroyFrees(w.store.slots, order), b);
    DestroyCount(w.store.slots, order, b);
    if b in w.taken && FreeCount(w.log, b) != 1 {
      assert Stored(w.store, b);
    }
  }

  // ---- where the code and its documentation part ----

  /** cache.h says reserve fails on an occupied slot; it does so exactly when the slot is not occupied
      by filled or cancelled data. */
  lemma ReserveFailsOnOccupied(s: Store, key: Key)
    ensures (Reserve(s, key).ok <==> key !in s.slots) <==> (key in s.slots ==> s.slots[key].reserved)
  {
  }

  /** ... and then put replaces a buffer that a client still holds. */
  lemma OccupiedReserveLosesBuffer(quota: size_t)
    ensures var w := Run(Empty(quota), [PutOp("a", Buf(1), 1)]);
      && w.Some? && Holds(w.value, "a", Buf(1)) == 1
      && var s := Put(Reserve(w.value.store, "a").store, "a", Buf(2), 1).store;
        s.slots["a"].data == Buf(2) && s.slots["a"].refs == 1
  {
    var ops := [PutOp("a", Buf(1), 1)];
    assert ops[..0] == [];
    assert Run(Empty(quota), ops[..0]) == Some(Empty(quota));
  }

  /** Whether the entry that `key` has now (if any) had its reservation cancelled. */
  ghost function Cancelled(w: World, ops: seq<Op>, key: Key): bool {
    if ops == [] then false else
      var last := |ops| - 1;
      var before := Run(w, ops[..last]);
      if before.None? then false else
        var slots := before.value.store.slots;
        match ops[last]
        case CancelOp(k) => Cancelled(w, ops[..last], key) || (k == key && key in slots && slots[key].reserved)
        case PutOp(k, _, _) => Cancelled(w, ops[..last], key) && !(k == key && key !in slots)
        case ReserveOp(k) => Cancelled(w, ops[..last], key) && !(k == key && key !in slots)
        case _ => Cancelled(w, ops[..last], key)
  }

  lemma CancelledStep(u: World, op: Op, key: Key)
    requires WellFormed(u.store) && Counted(u) && Vacant(u) && Allowed(u, op) && key in Step(u, op).store.slots
    ensures var v := Step(u, op).store.slots[key];
      (!v.reserved && v.data == Null) ==
      if key !in u.store.slots then false
      else (!u.store.slots[key].reserved && u.store.slots[key].data == Null)
           || (op == CancelOp(key) && u.store.slots[key].reserved)
  {
    if op.DoneOp? {
      DoneKeepsEntries(u, op.key, op.hold, key);
    }
  }

  lemma {:induction false} CancelledIsNull(quota: size_t, ops: seq<Op>, key: Key)
    requires Run(Empty(quota), ops).Some? && key in Run(Empty(quota), ops).value.store.slots
    ensures var slot := Run(Empty(quota), ops).value.store.slots[key];
      Cancelled(Empty(quota), ops, key) <==> !slot.reserved && slot.data == Null
  {
    if ops != [] {
      var last := |ops| - 1;
      var u := Run(Empty(quota), ops[..last]).value;
      EmptyInvariant(quota);
      RunInvariant(Empty(quota), ops[..last]);
      CancelledStep(u, ops[last], key);
      if key in u.store.slots {
        CancelledIsNull(quota, ops[..last], key);
      } else {
        OnlyMade(u, ops[last], key);
      }
    }
  }

  lemma OnlyMade(u: World, op: Op, key: Key)
    requires WellFormed(u.store) && Counted(u) && Allowed(u, op)
    requires key !in u.store.slots && key in Step(u, op).store.slots
    ensures op == ReserveOp(key) || (op.PutOp? && op.key == key)
  {
  }

  /** cache.h says isCached is true when data was really acquired.  In a disciplined run get answers an entry
      that is not reserved with isCached true and its data, which are NULL exactly when the entry's
      reservation was cancelled: such an entry stays behind, empty. */
  lemma CachedMeansData(quota: size_t, ops: seq<Op>, key: Key, cb: Callback)
    requires Run(Empty(quota), ops).Some? && Allowed(Run(Empty(quota), ops).value, GetOp(key, Some(cb)))
    requires key in Run(Empty(quota), ops).value.store.slots && !Run(Empty(quota), ops).value.store.slots[key].reserved
    ensures var s := Run(Empty(quota), ops).value.store;
      && Get(s, key, Some(cb)).effects == [Called(cb, s.slots[key].data, s.slots[key].size, true)]
      && (s.slots[key].data == Null <==> Cancelled(Empty(quota), ops, key))
  {
    CancelledIsNull(quota, ops, key);
  }

  lemma CancelledEntryAnswersNull(quota: size_t, key: Key)
    ensures var w := Run(Empty(quota), [ReserveOp(key), CancelOp(key)]);
      w.Some? && Get(w.value.store, key, Some(0)).effects == [Called(0, Null, 0, true)]
  {
    var ops := [ReserveOp(key), CancelOp(key)];
    assert ops[..1] == [ReserveOp(key)] && ops[..1][..0] == [];
    var w1 := ReserveStep(Empty(quota), key);
    assert Run(Empty(quota), ops[..1]) == Some(w1);
    ReserveCounted(Empty(quota), key);
    assert WellFormed(w1.store);
    assert Run(Empty(quota), ops) == Some(CancelStep(w1, key));
  }
}
