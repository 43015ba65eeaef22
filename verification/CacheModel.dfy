/** The value of a webserver/cache.cc `Cache` and what each of its operations does to it.  The class in
    Cache.dfy is proved to compute these functions; CacheRuns.dfy proves what follows from them. */
module CacheModel {
  import opened Wrappers
  import opened Sequences

  type Key = string
  type Callback = nat // a CacheCallback object, by identity

  const WORD: nat := 0x1_0000_0000_0000_0000
  type size_t = n: nat | n < WORD witness 0

  /** + and - of size_t wrap around. */
  function Add(a: size_t, b: size_t): (r: size_t)
  {
    if a + b < WORD then a + b else a + b - WORD
  }

  function Sub(a: size_t, b: size_t): (r: size_t)
  {
    if a >= b then a - b else a + WORD - b
  }

  /** A `const char *` handed to the cache. */
  datatype Ptr = Null | Buf(id: nat)

  /** A CacheEntry, without its name and its free-list link. */
  datatype Slot = Slot(data: Ptr, size: size_t, refs: nat, reserved: bool, waiters: seq<Callback>)

  /** `idle` is the free list, front first; `used` is currentSize_. */
  datatype Store = Store(slots: map<Key, Slot>, idle: seq<Key>, used: size_t, quota: size_t)

  datatype Effect =
    | Called(cb: Callback, data: Ptr, size: size_t, isCached: bool) // the callback runs and is then deleted
    | Discarded(cb: Callback)                                    // the callback is deleted without running
    | Freed(data: Ptr)                                           // free(data)

  datatype Outcome = Outcome(store: Store, ok: bool, effects: seq<Effect>)

  const EMPTY_SLOT := Slot(Null, 0, 1, true, []) // CacheEntry(name)

  function CallAll(cbs: seq<Callback>, data: Ptr, size: size_t, isCached: bool): (s: seq<Effect>)
    ensures |s| == |cbs|
  {
    seq(|cbs|, i requires 0 <= i < |cbs| => Called(cbs[i], data, size, isCached))
  }

  function Put(s: Store, key: Key, buf: Ptr, size: size_t): Outcome
  {
    if key !in s.slots then
      Outcome(s.(slots := s.slots[key := Slot(buf, size, 1, false, [])], used := Add(s.used, size)), true, [])
    else if s.slots[key].reserved then
      var slot := s.slots[key];
      // the waiters stay in the queue and currentSize_ is left alone
      var filled := slot.(data := buf, size := size, refs := slot.refs + |slot.waiters|, reserved := false);
      Outcome(s.(slots := s.slots[key := filled]),
              true, CallAll(slot.waiters, buf, size, true))
    else
      Outcome(s, false, [])
  }

  function Without(keys: seq<Key>, key: Key): (r: seq<Key>)
    ensures key !in keys ==> r == keys
  {
    if keys == [] then []
    else if keys[0] == key then keys[1..]
    else [keys[0]] + Without(keys[1..], key)
  }

  /** cb is None when the caller passes NULL, which the code survives only for an absent key. */
  function Get(s: Store, key: Key, cb: Option<Callback>): Outcome
    requires key in s.slots ==> cb.Some?
  {
    if key !in s.slots then
      Outcome(s, false, if cb.Some? then [Discarded(cb.value)] else [])
    else
      var slot := s.slots[key];
      if slot.reserved then
        Outcome(s.(slots := s.slots[key := slot.(waiters := slot.waiters + [cb.value])]), true, [])
      else
        Outcome(s.(slots := s.slots[key := slot.(refs := slot.refs + 1)], idle := Without(s.idle, key)),
                true, [Called(cb.value, slot.data, slot.size, true)])
  }

  function Reserve(s: Store, key: Key): Outcome
  {
    if key !in s.slots then
      Outcome(s.(slots := s.slots[key := EMPTY_SLOT]), true, [])
    else if !s.slots[key].reserved then
      Outcome(s.(slots := s.slots[key := s.slots[key].(reserved := true)]), true, [])
    else
      Outcome(s, false, [])
  }

  function CancelReservation(s: Store, key: Key): Outcome
  {
    if key in s.slots && s.slots[key].reserved then
      Outcome(s.(slots := s.slots[key := s.slots[key].(reserved := false)]),
              true, CallAll(s.slots[key].waiters, Null, 0, false))
    else
      Outcome(s, false, [])
  }

  /** Free-list keys name live entries, each once. */
  ghost predicate IdleListed(s: Store) {
    Distinct(s.idle) && forall k :: k in s.idle ==> k in s.slots
  }

  /** spaceFreed after n turns of cleanup's loop. */
  function FreedBy(s: Store, n: nat): size_t
    requires IdleListed(s) && n <= |s.idle|
  {
    if n == 0 then 0 else
      assert s.idle[n - 1] in s.idle;
      Add(FreedBy(s, n - 1), s.slots[s.idle[n - 1]].size)
  }

  /** What n turns free. */
  function Frees(s: Store, n: nat): (e: seq<Effect>)
    requires IdleListed(s) && n <= |s.idle|
    ensures |e| == n
  {
    if n == 0 then [] else
      assert s.idle[n - 1] in s.idle;
      Frees(s, n - 1) + [Freed(s.slots[s.idle[n - 1]].data)]
  }

  /** How many turns the loop takes in all, n of them being done. */
  function Victims(s: Store, space: size_t, n: nat): (v: nat)
    requires IdleListed(s) && n <= |s.idle|
    ensures n <= v <= |s.idle|
    decreases |s.idle| - n
  {
    if FreedBy(s, n) >= space || n == |s.idle| then n else Victims(s, space, n + 1)
  }

  /** The first n idle entries are erased. */
  function Evict(s: Store, n: nat): Store
    requires n <= |s.idle|
  {
    s.(slots := s.slots - (set k | k in s.idle[..n]), idle := s.idle[n..])
  }

  function Cleanup(s: Store, space: size_t): Outcome
    requires IdleListed(s)
  {
    var n := Victims(s, space, 0);
    Outcome(Evict(s, n).(used := Sub(s.used, FreedBy(s, n))), true, Frees(s, n))
  }

  /** doneWith up to the quota test.  The two requires are the function's own asserts. */
  function Unreference(s: Store, key: Key): Store
    requires key in s.slots && s.slots[key].refs > 0
  {
    var slot := s.slots[key].(refs := s.slots[key].refs - 1);
    s.(slots := s.slots[key := slot], idle := if slot.refs == 0 then s.idle + [key] else s.idle)
  }

  function DoneWith(s: Store, key: Key): Outcome
    requires key in s.slots && s.slots[key].refs > 0
    requires IdleListed(Unreference(s, key))
  {
    var t := Unreference(s, key);
    if t.used > t.quota then Cleanup(t, Sub(t.used, t.quota)) else Outcome(t, true, [])
  }

  /** What the destructor frees when its walk over the map meets the keys in this order. */
  function DestroyFrees(slots: map<Key, Slot>, order: seq<Key>): (e: seq<Effect>)
    requires forall k :: k in order ==> k in slots
    ensures |e| == |order|
  {
    if order == [] then [] else
      var last := |order| - 1;
      DestroyFrees(slots, order[..last]) + [Freed(slots[order[last]].data)]
  }

  /** What makes the code's own asserts hold and its free-list links meaningful: an entry is on the
      free list, once, exactly while nobody references it, and a reserved entry is referenced. */
  ghost predicate WellFormed(s: Store) {
    && IdleListed(s)
    && (forall k :: k in s.slots ==> (s.slots[k].refs == 0 <==> k in s.idle))
    && (forall k :: k in s.slots && s.slots[k].reserved ==> s.slots[k].refs > 0)
  }

  lemma IdleAt(s: Store, key: Key) returns (at: nat)
    requires WellFormed(s) && key in s.slots && s.slots[key].refs == 0
    ensures at < |s.idle| && s.idle[at] == key
  {
    at :| 0 <= at < |s.idle| && s.idle[at] == key;
  }

  lemma {:induction false} WithoutIsRemoval(keys: seq<Key>, at: nat)
    requires at < |keys| && Distinct(keys)
    ensures Without(keys, keys[at]) == RemoveAt(keys, at)
  {
    if at > 0 {
      assert keys[1..][at - 1] == keys[at];
      WithoutIsRemoval(keys[1..], at - 1);
      assert RemoveAt(keys, at) == [keys[0]] + RemoveAt(keys[1..], at - 1);
    }
  }

  lemma {:induction false} WithoutMembers(keys: seq<Key>, key: Key)
    requires Distinct(keys)
    ensures Distinct(Without(keys, key))
    ensures forall k :: k in Without(keys, key) <==> k in keys && k != key
  {
    if keys != [] && keys[0] != key {
      WithoutMembers(keys[1..], key);
      assert Without(keys, key)[1..] == Without(keys[1..], key);
    }
  }

  // WellFormed is kept by every operation of a client that respects the discipline.

  lemma PutWellFormed(s: Store, key: Key, buf: Ptr, size: size_t)
    requires WellFormed(s)
    ensures WellFormed(Put(s, key, buf, size).store)
  {
  }

  lemma GetWellFormed(s: Store, key: Key, cb: Option<Callback>)
    requires WellFormed(s)
    requires key in s.slots ==> cb.Some?
    ensures WellFormed(Get(s, key, cb).store)
  {
    WithoutMembers(s.idle, key);
  }

  /** reserve takes an occupied slot; that is harmless here unless the slot is idle. */
  lemma ReserveWellFormed(s: Store, key: Key)
    requires WellFormed(s)
    ensures WellFormed(Reserve(s, key).store) <==> (key in s.slots ==> s.slots[key].refs > 0)
  {
  }

  lemma CancelWellFormed(s: Store, key: Key)
    requires WellFormed(s)
    ensures WellFormed(CancelReservation(s, key).store)
  {
  }

  /** doneWith on a reserved key is harmless only while somebody else holds the entry. */
  lemma UnreferenceWellFormed(s: Store, key: Key)
    requires WellFormed(s)
    requires key in s.slots && s.slots[key].refs > 0
    ensures IdleListed(Unreference(s, key))
    ensures WellFormed(Unreference(s, key)) <==> !s.slots[key].reserved || s.slots[key].refs > 1
  {
    AppendDistinct(s.idle, key);
    var t := Unreference(s, key);
    assert key in t.slots && t.slots[key].reserved == s.slots[key].reserved;
    assert forall k :: k in t.idle <==> k in s.idle || (k == key && t.slots[key].refs == 0);
  }

  lemma EvictFrontWellFormed(s: Store)
    requires WellFormed(s) && s.idle != []
    ensures WellFormed(Evict(s, 1))
    ensures s.idle[0] in s.slots && s.slots[s.idle[0]].refs == 0
  {
    assert s.idle[0] in s.idle && s.idle[..1] == [s.idle[0]];
    assert forall k :: k in s.idle <==> k == s.idle[0] || k in s.idle[1..];
  }

  /** Evicting n entries and then the next one is evicting n + 1. */
  lemma EvictOneMore(s: Store, n: nat)
    requires IdleListed(s) && n < |s.idle|
    ensures Evict(s, n).idle[0] == s.idle[n]
    ensures s.idle[n] in s.slots && s.idle[n] in Evict(s, n).slots
    ensures Evict(s, n).slots[s.idle[n]] == s.slots[s.idle[n]]
    ensures Evict(Evict(s, n), 1) == Evict(s, n + 1)
  {
    var k := s.idle[n];
    assert k in s.idle;
    AllDistinctAt(s.idle, n);
    assert k !in s.idle[..n];
    assert s.idle[..n + 1] == s.idle[..n] + [k];
    assert Evict(s, n).idle[..1] == [k];
    assert Evict(Evict(s, n), 1).slots == Evict(s, n + 1).slots;
  }

  lemma {:induction false} EvictWellFormed(s: Store, n: nat)
    requires WellFormed(s) && n <= |s.idle|
    ensures WellFormed(Evict(s, n))
  {
    if n == 0 {
      assert Evict(s, 0) == s;
    } else {
      EvictWellFormed(s, n - 1);
      EvictOneMore(s, n - 1);
      EvictFrontWellFormed(Evict(s, n - 1));
    }
  }
}
