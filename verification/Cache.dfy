/** webserver/cache.cc with its real free-list nodes.  The C++ map stores CacheEntry records by value and
    the free list points at them; here the entry is a record in the map, a free-list node names its key,
    and the entry's freeListRef is the node.  `store` is the ghost value represented; each method is
    proved to move it as CacheModel says. */
module Cache {
  import opened Wrappers
  import opened FastFifo
  import opened Sequences
  import CM = CacheModel

  datatype CacheEntry = CacheEntry(slot: CM.Slot, freeListRef: Node?<CM.Key>)

  /** Free-list nodes and their entries point at each other. */
  ghost predicate Linked(m: map<CM.Key, CacheEntry>, nodes: seq<Node<CM.Key>>, idle: seq<CM.Key>) {
    && |nodes| == |idle|
    && (forall i {:trigger idle[i]} :: 0 <= i < |idle| ==>
          idle[i] in m && nodes[i].data == Some(idle[i]) && m[idle[i]].freeListRef == nodes[i])
  }

  /** The entries hold what `slots` says, and those with holders are not linked. */
  ghost predicate Entries(m: map<CM.Key, CacheEntry>, slots: map<CM.Key, CM.Slot>) {
    && m.Keys == slots.Keys
    && (forall k :: k in m ==> m[k].slot == slots[k])
    && (forall k :: k in slots && slots[k].refs > 0 ==> k in m && m[k].freeListRef == null)
  }

  /** Entries and free-list nodes hold what `s` says. */
  ghost predicate Mirrors(m: map<CM.Key, CacheEntry>, nodes: seq<Node<CM.Key>>, s: CM.Store) {
    CM.WellFormed(s) && Entries(m, s.slots) && Linked(m, nodes, s.idle)
  }

  /** An entry is written, new or old, and the free list is not touched. */
  lemma EntryWritten(m: map<CM.Key, CacheEntry>, nodes: seq<Node<CM.Key>>, s: CM.Store,
                     key: CM.Key, entry: CacheEntry, t: CM.Store)
    requires Mirrors(m, nodes, s) && CM.WellFormed(t)
    requires t.idle == s.idle && t.slots == s.slots[key := entry.slot]
    requires entry.freeListRef == if key in m then m[key].freeListRef else null
    requires entry.slot.refs > 0 ==> entry.freeListRef == null
    ensures Mirrors(m[key := entry], nodes, t)
  {
  }

  /** An entry nobody references any more goes to the back of the free list. */
  lemma EntryLinked(m: map<CM.Key, CacheEntry>, nodes: seq<Node<CM.Key>>, s: CM.Store,
                    key: CM.Key, entry: CacheEntry, node: Node<CM.Key>, t: CM.Store)
    requires Mirrors(m, nodes, s) && CM.WellFormed(t)
    requires key in m && key !in s.idle && node.data == Some(key)
    requires t.idle == s.idle + [key] && t.slots == s.slots[key := entry.slot]
    requires entry.slot.refs == 0 && entry.freeListRef == node
    ensures Mirrors(m[key := entry], nodes + [node], t)
  {
  }

  lemma NodeUnlinked(m: map<CM.Key, CacheEntry>, nodes: seq<Node<CM.Key>>, idle: seq<CM.Key>,
                     at: nat, entry: CacheEntry)
    requires Linked(m, nodes, idle) && Distinct(idle) && at < |idle|
    ensures Linked(m[idle[at] := entry], RemoveAt(nodes, at), RemoveAt(idle, at))
  {
    AllDistinctAt(idle, at);
    var left := RemoveAt(idle, at);
    forall i {:trigger left[i]} | 0 <= i < |left|
      ensures left[i] == idle[if i < at then i else i + 1]
    {
    }
  }

  lemma EntryKept(m: map<CM.Key, CacheEntry>, slots: map<CM.Key, CM.Slot>, key: CM.Key, entry: CacheEntry)
    requires Entries(m, slots) && (entry.slot.refs > 0 ==> entry.freeListRef == null)
    ensures Entries(m[key := entry], slots[key := entry.slot])
  {
  }

  /** An idle entry is referenced again and leaves the free list. */
  lemma EntryUnlinked(m: map<CM.Key, CacheEntry>, nodes: seq<Node<CM.Key>>, s: CM.Store,
                      at: nat, entry: CacheEntry, t: CM.Store)
    requires Mirrors(m, nodes, s) && CM.WellFormed(t)
    requires at < |nodes|
    requires t.idle == CM.Without(s.idle, s.idle[at]) && t.slots == s.slots[s.idle[at] := entry.slot]
    requires entry.freeListRef == null
    ensures Mirrors(m[s.idle[at] := entry], RemoveAt(nodes, at), t)
  {
    CM.WithoutIsRemoval(s.idle, at);
    NodeUnlinked(m, nodes, s.idle, at, entry);
    EntryKept(m, s.slots, s.idle[at], entry);
  }

  /** The free-list front is erased. */
  lemma FrontErased(m: map<CM.Key, CacheEntry>, nodes: seq<Node<CM.Key>>, s: CM.Store)
    requires Mirrors(m, nodes, s) && s.idle != []
    ensures m[s.idle[0]].slot.refs == 0
    ensures Mirrors(m - {s.idle[0]}, nodes[1..], CM.Evict(s, 1))
  {
    CM.EvictFrontWellFormed(s);
    var t := CM.Evict(s, 1);
    assert s.idle[..1] == [s.idle[0]];
    AllDistinctAt(s.idle, 0);
    forall i | 0 <= i < |t.idle|
      ensures t.idle[i] == s.idle[i + 1] && s.idle[i + 1] != s.idle[0]
    {
    }
  }

  /** One turn of cleanup's loop on the value. */
  lemma OneTurn(s: CM.Store, space: CM.size_t, n: nat, before: seq<CM.Effect>)
    requires CM.IdleListed(s) && n < |s.idle| && CM.FreedBy(s, n) < space
    ensures var t := CM.Evict(s, n);
      && t.idle != [] && t.idle[0] in t.slots && s.idle[n] in s.slots && t.slots[t.idle[0]] == s.slots[s.idle[n]]
      && CM.Evict(t, 1) == CM.Evict(s, n + 1)
    ensures before + CM.Frees(s, n) + [CM.Freed(s.slots[s.idle[n]].data)] == before + CM.Frees(s, n + 1)
    ensures CM.Victims(s, space, n) == CM.Victims(s, space, n + 1)
  {
    CM.EvictOneMore(s, n);
    Associative(before, CM.Frees(s, n), [CM.Freed(s.slots[s.idle[n]].data)]);
  }

  /** One turn of the destructor's walk on the value. */
  lemma OneFreed(slots: map<CM.Key, CM.Slot>, order: seq<CM.Key>, key: CM.Key, before: seq<CM.Effect>)
    requires Distinct(order) && key !in order && key in slots && forall k :: k in order ==> k in slots
    ensures Distinct(order + [key]) && forall k :: k in order + [key] ==> k in slots
    ensures before + CM.DestroyFrees(slots, order) + [CM.Freed(slots[key].data)]
         == before + CM.DestroyFrees(slots, order + [key])
  {
    Associative(before, CM.DestroyFrees(slots, order), [CM.Freed(slots[key].data)]);
    AppendDistinct(order, key);
    assert (order + [key])[..|order|] == order;
  }

  class Cache {
    const sizeQuota: CM.size_t
    var currentSize: CM.size_t
    var cacheMap: map<CM.Key, CacheEntry>
    const freeList: FastFifo<CM.Key>
    ghost var store: CM.Store       // the cache's value
    ghost var trace: seq<CM.Effect> // every callback run or deleted and every buffer freed, in order

    ghost predicate Valid()
      reads this, freeList, freeList.Repr
    {
      && this !in freeList.Repr
      && freeList.Valid()
      && Mirrors(cacheMap, freeList.nodes, store)
      && currentSize == store.used
      && sizeQuota == store.quota
    }

    constructor (sizeQuota: CM.size_t)
      ensures Valid()
      ensures fresh(this) && fresh(freeList.Repr)
      ensures store == CM.Store(map[], [], 0, sizeQuota) && trace == []
    {
      this.sizeQuota := sizeQuota;
      currentSize := 0;
      cacheMap := map[];
      freeList := new FastFifo<CM.Key>();
      store := CM.Store(map[], [], 0, sizeQuota);
      trace := [];
    }

    method SetSize(size: CM.size_t)
      requires Valid()
      modifies this`currentSize, this`store
      ensures Valid() && store == old(store).(used := size)
    {
      currentSize := size;
      store := store.(used := size);
    }

    /** put's fill of a reserved entry: every waiter gets the buffer and a reference. */
    method Fill(reservation: CM.Slot, buf: CM.Ptr, size: CM.size_t) returns (slot: CM.Slot)
      modifies this`trace
      ensures slot == reservation.(data := buf, size := size, reserved := false,
                                   refs := reservation.refs + |reservation.waiters|)
      ensures trace == old(trace) + CM.CallAll(reservation.waiters, buf, size, true)
    {
      slot := reservation.(data := buf, size := size);
      ghost var calls := CM.CallAll(slot.waiters, buf, size, true);
      var i := 0;
      while i < |slot.waiters|
        modifies this`trace
        invariant 0 <= i <= |slot.waiters|
        invariant slot == reservation.(data := buf, size := size, refs := reservation.refs + i)
        invariant trace == old(trace) + calls[..i]
      {
        slot := slot.(refs := slot.refs + 1);
        trace := trace + [CM.Called(slot.waiters[i], buf, size, true)];
        i := i + 1;
      }
      slot := slot.(reserved := false);
    }

    /** Writes one map entry and currentSize_; the free list stays as it is. */
    method Write(key: CM.Key, slot: CM.Slot, size: CM.size_t, ghost t: CM.Store)
      requires Valid() && CM.WellFormed(t)
      requires t == CM.Store(store.slots[key := slot], store.idle, size, store.quota)
      requires slot.refs > 0
      requires key in cacheMap ==> cacheMap[key].freeListRef == null
      modifies this`cacheMap, this`currentSize, this`store
      ensures Valid() && store == t
    {
      var entry := CacheEntry(slot, null);
      EntryWritten(cacheMap, freeList.nodes, store, key, entry, t);
      cacheMap := cacheMap[key := entry];
      currentSize := size;
      store := t;
    }

    method Put(key: CM.Key, buf: CM.Ptr, size: CM.size_t) returns (ret: bool)
      requires Valid()
      modifies this
      ensures Valid()
      ensures var out := CM.Put(old(store), key, buf, size);
        store == out.store && ret == out.ok && trace == old(trace) + out.effects
    {
      assert trace + [] == trace;
      CM.PutWellFormed(store, key, buf, size);
      ghost var out := CM.Put(store, key, buf, size);
      if key !in cacheMap {
        Write(key, CM.Slot(buf, size, 1, false, []), CM.Add(currentSize, size), out.store);
        ret := true;
      } else if cacheMap[key].slot.reserved {
        var slot := Fill(cacheMap[key].slot, buf, size);
        Write(key, slot, currentSize, out.store);
        ret := true;
      } else {
        ret := false;
      }
    }

    /** freeList_.removeNode(entry.freeListRef), with the entry written back unlinked. */
    method Unlink(key: CM.Key, slot: CM.Slot, ghost at: nat, ghost t: CM.Store)
      requires Valid() && CM.WellFormed(t)
      requires at < |store.idle| && store.idle[at] == key
      requires t == CM.Store(store.slots[key := slot], CM.Without(store.idle, key), store.used, store.quota)
      modifies this`cacheMap, this`store, freeList.Repr
      ensures Valid() && store == t
    {
      var entry := CacheEntry(slot, null);
      EntryUnlinked(cacheMap, freeList.nodes, store, at, entry, t);
      var node := cacheMap[key].freeListRef;
      cacheMap := cacheMap[key := entry];
      store := t;
      freeList.RemoveNode(node, at);
    }

    /** What an entry that is not reserved says about its place in the free list. */
    lemma EntryPlace(key: CM.Key)
      requires Valid() && key in cacheMap
      ensures key in store.slots && cacheMap[key].slot == store.slots[key]
      ensures cacheMap[key].freeListRef != null <==> key in store.idle
      ensures key !in store.idle ==> CM.Without(store.idle, key) == store.idle
      ensures cacheMap[key].slot.refs > 0 <==> key !in store.idle
    {
    }

    /** get's count of a new holder; an idle entry leaves the free list. */
    method Take(key: CM.Key, ghost t: CM.Store)
      requires Valid() && CM.WellFormed(t) && key in cacheMap
      requires var slot := cacheMap[key].slot;
        t == CM.Store(store.slots[key := slot.(refs := slot.refs + 1)], CM.Without(store.idle, key),
                      store.used, store.quota)
      modifies this`cacheMap, this`currentSize, this`store, freeList.Repr
      ensures Valid() && store == t
    {
      EntryPlace(key);
      var entry := cacheMap[key];
      var slot := entry.slot.(refs := entry.slot.refs + 1);
      if entry.freeListRef != null {
        ghost var at := CM.IdleAt(store, key);
        Unlink(key, slot, at, t);
      } else {
        Write(key, slot, currentSize, t);
      }
    }

    /** A NULL callback is only survived when the key is absent. */
    method Get(key: CM.Key, callback: Option<CM.Callback>) returns (ret: bool)
      requires Valid()
      requires key in cacheMap ==> callback.Some?
      modifies this, freeList.Repr
      ensures Valid()
      ensures var out := CM.Get(old(store), key, callback);
        store == out.store && ret == out.ok && trace == old(trace) + out.effects
    {
      CM.GetWellFormed(store, key, callback);
      ghost var out := CM.Get(store, key, callback);
      if key in cacheMap {
        var slot := cacheMap[key].slot;
        if slot.reserved {
          Write(key, slot.(waiters := slot.waiters + [callback.value]), currentSize, out.store);
        } else {
          trace := trace + [CM.Called(callback.value, slot.data, slot.size, true)];
          Take(key, out.store);
        }
        ret := true;
      } else {
        if callback.Some? {
          trace := trace + [CM.Discarded(callback.value)];
        }
        ret := false;
      }
    }

    /** Unlike its documentation, reserve takes an occupied slot too; an idle one it must not be given. */
    method Reserve(key: CM.Key) returns (ret: bool)
      requires Valid()
      requires key in cacheMap ==> cacheMap[key].slot.refs > 0
      modifies this
      ensures Valid()
      ensures var out := CM.Reserve(old(store), key);
        store == out.store && ret == out.ok && trace == old(trace) + out.effects
    {
      assert trace + [] == trace;
      CM.ReserveWellFormed(store, key);
      if key !in cacheMap {
        Write(key, CM.EMPTY_SLOT, currentSize, CM.Reserve(store, key).store);
        ret := true;
      } else if !cacheMap[key].slot.reserved {
        Write(key, cacheMap[key].slot.(reserved := true), currentSize, CM.Reserve(store, key).store);
        ret := true;
      } else {
        ret := false;
      }
    }

    /** cancelReservation's loop: every waiter is told that nothing came. */
    method Refuse(waiters: seq<CM.Callback>)
      modifies this`trace
      ensures trace == old(trace) + CM.CallAll(waiters, CM.Null, 0, false)
    {
      ghost var calls := CM.CallAll(waiters, CM.Null, 0, false);
      var i := 0;
      while i < |waiters|
        modifies this`trace
        invariant 0 <= i <= |waiters|
        invariant trace == old(trace) + calls[..i]
      {
        trace := trace + [CM.Called(waiters[i], CM.Null, 0, false)];
        i := i + 1;
      }
    }

    method CancelReservation(key: CM.Key) returns (ret: bool)
      requires Valid()
      modifies this
      ensures Valid()
      ensures var out := CM.CancelReservation(old(store), key);
        store == out.store && ret == out.ok && trace == old(trace) + out.effects
    {
      assert trace + [] == trace;
      if key in cacheMap && cacheMap[key].slot.reserved {
        CM.CancelWellFormed(store, key);
        var slot := cacheMap[key].slot;
        Write(key, slot.(reserved := false), currentSize, CM.CancelReservation(store, key).store);
        Refuse(slot.waiters);
        ret := true;
      } else {
        ret := false;
      }
    }

    /** entry->freeListRef = freeList_.push(entry), with the entry written back. */
    method Link(key: CM.Key, slot: CM.Slot, ghost t: CM.Store)
      requires Valid() && CM.WellFormed(t)
      requires key in cacheMap && key !in store.idle && slot.refs == 0
      requires t == CM.Store(store.slots[key := slot], store.idle + [key], store.used, store.quota)
      modifies this`cacheMap, this`store, freeList.Repr
      ensures Valid() && store == t && fresh(freeList.Repr - old(freeList.Repr))
    {
      ghost var nodes := freeList.nodes;
      var node := freeList.Push(key);
      EntryLinked(cacheMap, nodes, store, key, CacheEntry(slot, node), node, t);
      cacheMap := cacheMap[key := CacheEntry(slot, node)];
      store := t;
    }

    /** The first half of doneWith: drop one reference, and link the entry if it was the last. */
    method Release(key: CM.Key)
      requires Valid()
      requires key in cacheMap && cacheMap[key].slot.refs > 0
      requires !cacheMap[key].slot.reserved || cacheMap[key].slot.refs > 1
      modifies this`cacheMap, this`currentSize, this`store, freeList.Repr
      ensures Valid() && fresh(freeList.Repr - old(freeList.Repr))
      ensures store == CM.Unreference(old(store), key)
    {
      CM.UnreferenceWellFormed(store, key);
      var slot := cacheMap[key].slot;
      slot := slot.(refs := slot.refs - 1);
      if slot.refs == 0 {
        Link(key, slot, CM.Unreference(store, key));
      } else {
        Write(key, slot, currentSize, CM.Unreference(store, key));
      }
    }

    /** Requires the two asserts of the C++ method, and of a reserved key that somebody else keeps it. */
    method DoneWith(key: CM.Key)
      requires Valid()
      requires key in cacheMap && cacheMap[key].slot.refs > 0
      requires !cacheMap[key].slot.reserved || cacheMap[key].slot.refs > 1
      modifies this, freeList.Repr
      ensures CM.IdleListed(CM.Unreference(old(store), key))
      ensures Valid() && fresh(freeList.Repr - old(freeList.Repr))
      ensures var out := CM.DoneWith(old(store), key);
        store == out.store && trace == old(trace) + out.effects
    {
      CM.UnreferenceWellFormed(store, key);
      Release(key);
      if currentSize > sizeQuota {
        Cleanup(CM.Sub(currentSize, sizeQuota));
      } else {
        assert trace + [] == trace;
      }
    }

    /** What pop will give. */
    lemma FrontEntry()
      requires Valid() && store.idle != []
      ensures freeList.nodes != [] && freeList.nodes[0].data == Some(store.idle[0])
      ensures store.idle[0] in cacheMap && store.idle[0] in store.slots
      ensures cacheMap[store.idle[0]].slot == store.slots[store.idle[0]] && store.slots[store.idle[0]].refs == 0
    {
      assert store.idle[0] in store.idle;
    }

    method PopKey() returns (key: CM.Key)
      requires freeList.Valid() && this !in freeList.Repr
      requires freeList.nodes != [] && freeList.nodes[0].data.Some?
      modifies freeList.Repr
      ensures freeList.Valid() && freeList.Repr <= old(freeList.Repr)
      ensures freeList.nodes == old(freeList.nodes)[1..]
      ensures Some(key) == old(freeList.nodes)[0].data
    {
      var front := freeList.Pop();
      key := front.value;
    }

    /** cleanup's pop and erase; the entry is nobody's. */
    method PopEntry() returns (entry: CacheEntry)
      requires Valid() && store.idle != []
      modifies this`cacheMap, this`store, freeList.Repr
      ensures Valid() && freeList.Repr <= old(freeList.Repr)
      ensures store == CM.Evict(old(store), 1)
      ensures old(store).idle[0] in old(store).slots
      ensures entry.slot == old(store).slots[old(store).idle[0]] && entry.slot.refs == 0
    {
      FrontEntry();
      FrontErased(cacheMap, freeList.nodes, store);
      ghost var t := CM.Evict(store, 1);
      var key := PopKey();
      entry := cacheMap[key];
      cacheMap := cacheMap - {key};
      store := t;
    }

    /** One turn of cleanup's loop: pop, erase, deallocate. */
    method EvictFront() returns (size: CM.size_t)
      requires Valid() && store.idle != []
      modifies this`cacheMap, this`store, this`trace, freeList.Repr
      ensures Valid() && freeList.Repr <= old(freeList.Repr)
      ensures store == CM.Evict(old(store), 1)
      ensures var slot := old(store).slots[old(store).idle[0]];
        size == slot.size && trace == old(trace) + [CM.Freed(slot.data)]
    {
      FrontEntry();
      var entry := PopEntry();
      assert entry.slot.refs == 0; // the assert in cleanup
      trace := trace + [CM.Freed(entry.slot.data)];
      size := entry.slot.size;
    }

    /** n turns of a cleanup that began at the value s, for so much space, have been made. */
    ghost predicate Evicting(s: CM.Store, space: CM.size_t, n: nat, freed: CM.size_t, before: seq<CM.Effect>)
      reads this
    {
      && CM.IdleListed(s) && n <= |s.idle|
      && store == CM.Evict(s, n) && freed == CM.FreedBy(s, n) && trace == before + CM.Frees(s, n)
      && CM.Victims(s, space, 0) == CM.Victims(s, space, n)
    }

    method EvictNext(space: CM.size_t, spaceFreed: CM.size_t,
                     ghost s: CM.Store, ghost n: nat, ghost before: seq<CM.Effect>)
      returns (freed: CM.size_t)
      requires Valid() && Evicting(s, space, n, spaceFreed, before) && spaceFreed < space && store.idle != []
      modifies this`cacheMap, this`store, this`trace, freeList.Repr
      ensures Valid() && freeList.Repr <= old(freeList.Repr)
      ensures Evicting(s, space, n + 1, freed, before)
    {
      OneTurn(s, space, n, before);
      var size := EvictFront();
      freed := CM.Add(spaceFreed, size);
    }

    lemma ListEmpty()
      requires Valid()
      ensures freeList.head == freeList.tail <==> store.idle == []
    {
    }

    lemma NoTurnYet(space: CM.size_t)
      requires CM.IdleListed(store)
      ensures Evicting(store, space, 0, 0, trace)
    {
      assert CM.Evict(store, 0) == store;
    }

    /** cleanup's loop; n counts its turns. */
    method EvictLoop(space: CM.size_t) returns (spaceFreed: CM.size_t, ghost n: nat)
      requires Valid()
      modifies this`cacheMap, this`store, this`trace, freeList.Repr
      ensures Valid() && freeList.Repr <= old(freeList.Repr)
      ensures n == CM.Victims(old(store), space, 0)
      ensures Evicting(old(store), space, n, spaceFreed, old(trace))
    {
      ghost var s, before := store, trace;
      spaceFreed, n := 0, 0;
      NoTurnYet(space);
      while spaceFreed < space && freeList.head != freeList.tail
        invariant Valid() && freeList.Repr <= old(freeList.Repr)
        invariant Evicting(s, space, n, spaceFreed, before)
        decreases |s.idle| - n
      {
        ListEmpty();
        spaceFreed := EvictNext(space, spaceFreed, s, n, before);
        n := n + 1;
      }
      ListEmpty();
    }

    method Cleanup(space: CM.size_t)
      requires Valid()
      modifies this, freeList.Repr
      ensures Valid() && freeList.Repr <= old(freeList.Repr)
      ensures var out := CM.Cleanup(old(store), space);
        store == out.store && trace == old(trace) + out.effects
    {
      var spaceFreed, _ := EvictLoop(space);
      SetSize(CM.Sub(currentSize, spaceFreed));
    }

    /** What of the free list the destructor's walk has left: links among the keys still to come. */
    ghost predicate LinkedAmong(keys: set<CM.Key>)
      reads this, freeList
    {
      && keys <= cacheMap.Keys
      && (forall i {:trigger freeList.nodes[i]} :: 0 <= i < |freeList.nodes| ==>
            && freeList.nodes[i].data.Some? && freeList.nodes[i].data.value in keys
            && cacheMap[freeList.nodes[i].data.value].freeListRef == freeList.nodes[i])
      && (forall k :: k in keys && cacheMap[k].freeListRef != null ==>
            cacheMap[k].freeListRef in freeList.nodes && cacheMap[k].freeListRef.data == Some(k))
    }

    lemma AllLinked()
      requires Valid()
      ensures LinkedAmong(cacheMap.Keys)
    {
      forall k | k in cacheMap && cacheMap[k].freeListRef != null
        ensures cacheMap[k].freeListRef in freeList.nodes && cacheMap[k].freeListRef.data == Some(k)
      {
        var at := CM.IdleAt(store, k);
        assert freeList.nodes[at] == cacheMap[k].freeListRef;
      }
      forall i {:trigger freeList.nodes[i]} | 0 <= i < |freeList.nodes|
        ensures freeList.nodes[i].data == Some(store.idle[i])
      {
      }
    }

    lemma NothingLinked(keys: set<CM.Key>)
      requires LinkedAmong(keys)
      ensures keys == {} ==> freeList.nodes == []
    {
      if freeList.nodes != [] {
        assert freeList.nodes[0].data.Some?;
        assert freeList.nodes[0].data.value in keys;
      }
    }

    /** One entry of the destructor's walk is taken off the free list. */
    method UnlinkOne(key: CM.Key, ghost keys: set<CM.Key>)
      requires freeList.Valid() && this !in freeList.Repr
      requires LinkedAmong(keys) && key in keys
      modifies freeList.Repr
      ensures freeList.Valid() && freeList.Repr <= old(freeList.Repr)
      ensures LinkedAmong(keys - {key})
    {
      var node := cacheMap[key].freeListRef;
      if node != null {
        ghost var at :| 0 <= at < |freeList.nodes| && freeList.nodes[at] == node;
        ghost var nodes := freeList.nodes;
        RemoveDistinct(nodes, at);
        RemoveMembers(nodes, at);
        freeList.RemoveNode(node, at);
        forall j {:trigger freeList.nodes[j]} | 0 <= j < |freeList.nodes|
          ensures freeList.nodes[j] in nodes && freeList.nodes[j] != node
        {
          assert freeList.nodes[j] in RemoveAt(nodes, at);
        }
      }
    }

    /** The destructor's walk has met the keys of `order` and has these left. */
    ghost predicate Walked(keys: set<CM.Key>, order: seq<CM.Key>, slots: map<CM.Key, CM.Slot>, before: seq<CM.Effect>)
      reads this, freeList
    {
      && LinkedAmong(keys) && Distinct(order)
      && (forall k :: k in order <==> k in cacheMap && k !in keys)
      && (forall k :: k in cacheMap ==> k in slots && cacheMap[k].slot == slots[k])
      && trace == before + CM.DestroyFrees(slots, order)
    }

    lemma NothingWalked()
      requires Valid()
      ensures Walked(cacheMap.Keys, [], store.slots, trace)
    {
      AllLinked();
    }

    /** One turn of the walk: deallocate, and unlink if linked. */
    method DestroyEntry(key: CM.Key, ghost keys: set<CM.Key>, ghost order: seq<CM.Key>,
                        ghost slots: map<CM.Key, CM.Slot>, ghost before: seq<CM.Effect>)
      requires freeList.Valid() && this !in freeList.Repr
      requires key in keys && Walked(keys, order, slots, before)
      modifies this`trace, freeList.Repr
      ensures freeList.Valid() && freeList.Repr <= old(freeList.Repr)
      ensures Walked(keys - {key}, order + [key], slots, before)
    {
      OneFreed(slots, order, key, before);
      trace := trace + [CM.Freed(cacheMap[key].slot.data)];
      UnlinkOne(key, keys);
    }

    /** The destructor.  `order` is the order in which its walk met the entries; the loop that then pops
        the free list finds nothing, so it frees no buffer a second time. */
    method Destroy() returns (ghost order: seq<CM.Key>)
      requires Valid()
      modifies this`trace, freeList.Repr
      ensures Distinct(order) && forall k :: k in order <==> k in old(store).slots
      ensures trace == old(trace) + CM.DestroyFrees(old(store).slots, order)
      ensures freeList.Valid() && freeList.nodes == []
    {
      NothingWalked();
      ghost var slots, before := store.slots, trace;
      order := [];
      var keys := cacheMap.Keys;
      assert keys == slots.Keys;
      while keys != {}
        invariant freeList.Valid() && freeList.Repr <= old(freeList.Repr)
        invariant Walked(keys, order, slots, before)
        decreases keys
      {
        var key :| key in keys;
        DestroyEntry(key, keys, order, slots, before);
        order := order + [key];
        keys := keys - {key};
      }
      NothingLinked(keys);
      var entry := freeList.Pop();
      assert entry.None?; // the loop that frees what is still popped here never turns
    }
  }
}
