/** The access handlers of nmoesi-protocol.c: load, store, non-coherent store and prefetch.
  * Each handler is a chain of steps (START, LOCK, ACTION, MISS, UNLOCK, FINISH); each step
  * here is one method over the access's stack, the module's cache and its in-flight index,
  * and names what is scheduled next. Retry latencies take the random draw as a parameter. */
module AccessHandlers {
  import opened Wrappers
  import opened States
  import opened Addressing
  import opened CacheStore
  import opened AccessIndex
  import opened Ports
  import opened ModStack
  import opened Transitions
  import opened FindAndLock

  /** The FindAndLock call a LOCK step makes, for an access of the module itself (not an
    * eviction and not a down-up request). */
  function LockCall(addr: nat, blocking: bool, read: bool, write: bool, ncWrite: bool,
                    prefetch: bool, retry: bool): (c: Child)
    ensures c.FindAndLockChild? && c.addr == addr && c.blocking == blocking && c.retry == retry
    ensures !c.evictTrans && !c.downupRead && !c.downupWb
  {
    FindAndLockChild(addr, blocking, read, write, ncWrite, prefetch, retry, false, false, false)
  }

  /** `x` is a store that precedes `s` in the access list. */
  ghost predicate StoreBefore(accesses: seq<StackRef>, meta: map<StackRef, Meta>, s: StackRef, x: StackRef)
    requires Known(accesses, meta) && s in accesses
  {
    x in accesses && x in Before(accesses, Some(s)) && meta[x].kind == Store
  }

  /** `x` is an access to the block of `addr` with an id smaller than that of `s`. */
  ghost predicate SameBlockOlder(accesses: seq<StackRef>, meta: map<StackRef, Meta>, log: nat, s: StackRef,
                                 addr: nat, x: StackRef)
    requires Known(accesses, meta) && s in accesses
  {
    x in accesses && OlderThan(meta[x], OlderId(meta, Some(s))) && SameBlock(log, meta[x].addr, addr)
  }

  /** A LOCK step must wait when an older store is in flight, or, when it also checks
    * addresses, when an older access to the same block is. */
  ghost predicate MustWait(accesses: seq<StackRef>, meta: map<StackRef, Meta>, log: nat, s: StackRef,
                           addr: nat, checkAddress: bool)
    requires Known(accesses, meta) && s in accesses
  {
    (exists x :: StoreBefore(accesses, meta, s, x))
    || (checkAddress && exists x :: SameBlockOlder(accesses, meta, log, s, addr, x))
  }

  /** The search of `mod_in_flight_write` finds a store before `s` exactly when there is one. */
  lemma LastStoreMeaning(accesses: seq<StackRef>, meta: map<StackRef, Meta>, log: nat, s: StackRef)
    requires Known(accesses, meta) && s in accesses
    ensures var p := Before(accesses, Some(s));
      Known(p, meta)
      && (LastWhere(p, meta, log, IsStore).None? <==> !exists x :: StoreBefore(accesses, meta, s, x))
      && (LastWhere(p, meta, log, IsStore).Some? ==> StoreBefore(accesses, meta, s, p[LastWhere(p, meta, log, IsStore).value]))
  {
    var p := Before(accesses, Some(s));
    assert Known(p, meta);
    var k := LastWhere(p, meta, log, IsStore);
    if k.Some? {
      assert p[k.value] == accesses[k.value] && p[k.value] in p;
      assert StoreBefore(accesses, meta, s, p[k.value]);
    } else {
      forall x | x in accesses && x in p
        ensures meta[x].kind != Store
      {
        var j :| 0 <= j < |p| && p[j] == x;
        assert !Meets(meta[p[j]], log, IsStore);
      }
    }
  }

  /** The older access a LOCK step waits for: `mod_in_flight_write`, then, when addresses
    * are checked, `mod_in_flight_address`. An older store always takes precedence. */
  method OlderBlocker(index: InFlightIndex, s: StackRef, addr: nat, checkAddress: bool) returns (older: Option<StackRef>)
    requires index.Valid() && s in index.accesses
    ensures Known(index.accesses, index.meta)
    ensures older.None? <==> !MustWait(index.accesses, index.meta, index.logBlockSize, s, addr, checkAddress)
    ensures older.Some? ==> (StoreBefore(index.accesses, index.meta, s, older.value)
      || (checkAddress && SameBlockOlder(index.accesses, index.meta, index.logBlockSize, s, addr, older.value)))
    ensures (exists x :: StoreBefore(index.accesses, index.meta, s, x)) ==>
      older.Some? && StoreBefore(index.accesses, index.meta, s, older.value)
  {
    LastStoreMeaning(index.accesses, index.meta, index.logBlockSize, s);
    older := index.InFlightWrite(Some(s));
    if older.None? && checkAddress {
      older := index.InFlightAddress(addr, Some(s));
      if older.Some? {
        assert SameBlockOlder(index.accesses, index.meta, index.logBlockSize, s, addr, older.value);
      } else {
        assert !exists x :: SameBlockOlder(index.accesses, index.meta, index.logBlockSize, s, addr, x);
      }
    }
  }

  /** `mod_access_start`, then `mod_can_coalesce` with the access itself as reference. */
  method RecordAccess(index: InFlightIndex, st: Stack, kind: AccessKind) returns (master: Option<StackRef>)
    requires index.Valid() && st.ref !in index.meta && st.ref !in index.flags && kind != NoAccess
    modifies index, index.buckets
    ensures index.Valid()
    ensures index.accesses == old(index.accesses) + [st.ref]
    ensures index.writes == old(index.writes) + (if kind == Store then [st.ref] else [])
    ensures index.meta == old(index.meta)[st.ref := Meta(st.id, kind, st.addr)]
    ensures index.buckets[..] == old(index.buckets[..])[BucketIndex(index.logBlockSize, st.addr) :=
      old(index.buckets[..])[BucketIndex(index.logBlockSize, st.addr)] + [st.ref]]
    ensures index.flags == old(index.flags)[st.ref := Flags(false, None, false)]
    ensures index.coalescedCount == old(index.coalescedCount)
    ensures forall t :: t in index.flags ==> index.flags[t].master != Some(st.ref)
    ensures master.Some? ==> master.value != st.ref
    ensures kind != Prefetch && master.Some? ==> master.value in index.flags && index.flags[master.value].master.None?
    ensures Known(index.buckets[BucketIndex(index.logBlockSize, st.addr)], index.meta)
    ensures master == CoalesceSpec(index.logBlockSize, index.accesses, index.buckets[BucketIndex(index.logBlockSize, st.addr)],
                                   index.meta, index.flags, kind, st.addr, Some(st.ref))
  {
    assert forall t :: t in index.flags ==> index.flags[t].master != Some(st.ref);
    index.Start(st.ref, st.id, kind, st.addr);
    master := index.CanCoalesce(kind, st.addr, Some(st.ref));
    CoalesceTargetNotSelf(index.logBlockSize, index.accesses, index.buckets[BucketIndex(index.logBlockSize, st.addr)],
                          index.meta, index.flags, kind, st.addr, st.ref);
  }

  /** The steps shared by every START: the access is recorded and looked up for coalescing;
    * a load, store or non-coherent store that finds a master is coalesced with it, a
    * prefetch is not. */
  method StartAccess(index: InFlightIndex, st: Stack, kind: AccessKind, coalesce: bool) returns (master: Option<StackRef>)
    requires index.Valid() && st.ref !in index.meta && st.ref !in index.flags && kind != NoAccess
    requires coalesce ==> kind != Prefetch
    modifies index, index.buckets
    ensures index.Valid()
    ensures index.accesses == old(index.accesses) + [st.ref]
    ensures index.writes == old(index.writes) + (if kind == Store then [st.ref] else [])
    ensures index.meta == old(index.meta)[st.ref := Meta(st.id, kind, st.addr)]
    ensures index.buckets[..] == old(index.buckets[..])[BucketIndex(index.logBlockSize, st.addr) :=
      old(index.buckets[..])[BucketIndex(index.logBlockSize, st.addr)] + [st.ref]]
    ensures master.Some? ==> master.value != st.ref
    ensures index.flags == old(index.flags)[st.ref :=
      if coalesce && master.Some? then Flags(true, master, false) else Flags(false, None, false)]
    ensures index.coalescedCount == old(index.coalescedCount) + (if coalesce && master.Some? then 1 else 0)
    ensures Known(index.buckets[BucketIndex(index.logBlockSize, st.addr)], index.meta)
    ensures master == CoalesceSpec(index.logBlockSize, index.accesses, index.buckets[BucketIndex(index.logBlockSize, st.addr)],
                                   index.meta, index.flags[st.ref := Flags(false, None, false)], kind, st.addr, Some(st.ref))
  {
    ghost var before := index.flags;
    master := RecordAccess(index, st, kind);
    if coalesce && master.Some? {
      index.Coalesce(master.value, st.ref);
      UpdateTwice(before, st.ref, Flags(false, None, false), Flags(true, master, false));
      UpdateTwice(before, st.ref, Flags(true, master, false), Flags(false, None, false));
    } else {
      UpdateTwice(before, st.ref, Flags(false, None, false), Flags(false, None, false));
    }
  }

  /** `mod_access_finish` and `mod_stack_return`: the FINISH step of every access handler. */
  method AccessFinish(st: Stack, index: InFlightIndex) returns (next: Next)
    requires index.Valid() && st.ref in index.accesses
    modifies index, index.buckets
    ensures index.Valid()
    ensures index.accesses == Without(old(index.accesses), st.ref) && st.ref !in index.accesses
    ensures index.writes == Without(old(index.writes), st.ref)
    ensures index.coalescedCount == old(index.coalescedCount) - (if old(index.flags)[st.ref].coalesced then 1 else 0)
    ensures next == Return
  {
    index.Finish(st.ref);
    WithoutMember(old(index.accesses), st.ref, st.ref);
    next := Return;
  }

  /** The retry of a step that failed: `retry` is set and LOCK runs again after
    * `mod_get_retry_latency`. */
  function Retry(lock: Event, random: nat, latency: nat): (n: Next)
    requires latency > 0
    ensures n.Resume? && n.event == lock && latency <= n.delay < 2 * latency
  {
    Resume(lock, RetryLatency(random, latency))
  }

  // ---------------------------------------------------------------------------------------
  // Load (nmoesi-protocol.c:139-414)

  /** LOAD: the access is recorded and marked a read; if an older load run to the same block
    * gives it a master, it is coalesced and waits for that master to finish. */
  method LoadStart(st: Stack, index: InFlightIndex) returns (next: Next)
    requires index.Valid() && st.ref !in index.meta && st.ref !in index.flags
    modifies index, index.buckets, st`read
    ensures index.Valid() && st.read
    ensures index.accesses == old(index.accesses) + [st.ref] && index.writes == old(index.writes)
    ensures index.meta == old(index.meta)[st.ref := Meta(st.id, Load, st.addr)]
    ensures Known(index.buckets[BucketIndex(index.logBlockSize, st.addr)], index.meta)
    ensures var m := CoalesceSpec(index.logBlockSize, index.accesses, index.buckets[BucketIndex(index.logBlockSize, st.addr)],
                                  index.meta, index.flags[st.ref := Flags(false, None, false)], Load, st.addr, Some(st.ref));
      (m.Some? ==> next == WaitFor(m.value, EvLoadFinish) && m.value != st.ref
                   && index.flags == old(index.flags)[st.ref := Flags(true, m, false)])
      && (m.None? ==> next == Resume(EvLoadLock, 0) && index.flags == old(index.flags)[st.ref := Flags(false, None, false)])
  {
    var master := StartAccess(index, st, Load, true);
    st.read := true;
    if master.Some? {
      next := WaitFor(master.value, EvLoadFinish);
    } else {
      next := Resume(EvLoadLock, 0);
    }
  }

  /** LOAD_LOCK: wait for an older store, then for an older access to the same block;
    * otherwise lock the line with a blocking read FindAndLock. */
  method LoadLock(st: Stack, index: InFlightIndex) returns (next: Next)
    requires index.Valid() && st.ref in index.accesses
    ensures next.WaitFor? <==> MustWait(index.accesses, index.meta, index.logBlockSize, st.ref, st.addr, true)
    ensures next.WaitFor? ==> (next.event == EvLoadLock
      && (StoreBefore(index.accesses, index.meta, st.ref, next.older) || SameBlockOlder(index.accesses, index.meta, index.logBlockSize, st.ref, st.addr, next.older)))
    ensures (exists x :: StoreBefore(index.accesses, index.meta, st.ref, x)) ==> next.WaitFor? && StoreBefore(index.accesses, index.meta, st.ref, next.older)
    ensures !next.WaitFor? ==> next == Spawn(LockCall(st.addr, true, true, false, false, false, st.retry), EvLoadAction)
  {
    var older := OlderBlocker(index, st.ref, st.addr, true);
    if older.Some? {
      next := WaitFor(older.value, EvLoadLock);
    } else {
      next := Spawn(LockCall(st.addr, true, true, false, false, false, st.retry), EvLoadAction);
    }
  }

  /** LOAD_ACTION: a failed lock retries; a line in any valid state is a hit; otherwise an
    * up-down read request goes to the module below. */
  method LoadAction(st: Stack, random: nat, latency: nat) returns (next: Next)
    requires latency > 0
    modifies st`retry
    ensures st.err ==> st.retry && next == Retry(EvLoadLock, random, latency)
    ensures !st.err ==> st.retry == old(st.retry)
    ensures !st.err && LoadHits(st.state) ==> next == Resume(EvLoadUnlock, 0)
    ensures !st.err && !LoadHits(st.state) ==> next == Spawn(ReadChild(st.tag, Below, false, false), EvLoadMiss)
  {
    if st.err {
      st.retry := true;
      next := Retry(EvLoadLock, random, latency);
    } else if st.state != Invalid {
      next := Resume(EvLoadUnlock, 0);
    } else {
      next := Spawn(ReadChild(st.tag, Below, false, false), EvLoadMiss);
    }
  }

  /** LOAD_MISS: a failed read request releases the entry and retries; otherwise the line is
    * filled in the state `cache_block_next_state` gives for the reply. */
  method LoadMiss(st: Stack, cache: Cache, random: nat, latency: nat) returns (next: Next, woken: Option<Waiter>)
    requires latency > 0 && cache.Valid() && st.si < cache.numSets && 0 <= st.way < cache.assoc
    modifies cache.blocks, cache.locks, st`retry
    ensures st.err ==> (st.retry && next == Retry(EvLoadLock, random, latency) && unchanged(cache.blocks)
      && (woken, cache.locks[st.si, st.way]) == ReleaseLock(old(cache.locks[st.si, st.way])))
    ensures !st.err ==> (st.retry == old(st.retry) && next == Resume(EvLoadUnlock, 0) && unchanged(cache.locks)
      && woken.None? && Filled(cache.blocks[st.si, st.way].state)
      && cache.blocks[st.si, st.way] == old(cache.blocks[st.si, st.way]).(tag := st.tag, state := NextState(st.shared, st.dirty)))
    ensures forall s, w :: 0 <= s < cache.numSets && 0 <= w < cache.assoc && (s != st.si || w != st.way) ==>
      cache.blocks[s, w] == old(cache.blocks[s, w]) && cache.locks[s, w] == old(cache.locks[s, w])
  {
    if st.err {
      woken := cache.EntryUnlock(st.si, st.way);
      st.retry := true;
      next := Retry(EvLoadLock, random, latency);
    } else {
      cache.SetBlock(st.si, st.way, st.tag, NextState(st.shared, st.dirty));
      woken := None;
      next := Resume(EvLoadUnlock, 0);
    }
  }

  /** LOAD_UNLOCK: release the entry and finish after the module's access latency. */
  method LoadUnlock(st: Stack, cache: Cache, latency: nat) returns (next: Next, woken: Option<Waiter>)
    requires cache.Valid() && st.si < cache.numSets && 0 <= st.way < cache.assoc
    modifies cache.locks
    ensures (woken, cache.locks[st.si, st.way]) == ReleaseLock(old(cache.locks[st.si, st.way]))
    ensures forall s, w :: 0 <= s < cache.numSets && 0 <= w < cache.assoc && (s != st.si || w != st.way) ==>
      cache.locks[s, w] == old(cache.locks[s, w])
    ensures next == Resume(EvLoadFinish, latency)
  {
    woken := cache.EntryUnlock(st.si, st.way);
    next := Resume(EvLoadFinish, latency);
  }

  // ---------------------------------------------------------------------------------------
  // Store (nmoesi-protocol.c:417-651)

  /** STORE: the access is recorded (also in the write list) and marked a write; a store
    * right behind an unlocked store to the same block is coalesced with its master. */
  method StoreStart(st: Stack, index: InFlightIndex) returns (next: Next)
    requires index.Valid() && st.ref !in index.meta && st.ref !in index.flags
    modifies index, index.buckets, st`write
    ensures index.Valid() && st.write
    ensures index.accesses == old(index.accesses) + [st.ref] && index.writes == old(index.writes) + [st.ref]
    ensures index.meta == old(index.meta)[st.ref := Meta(st.id, Store, st.addr)]
    ensures Known(index.buckets[BucketIndex(index.logBlockSize, st.addr)], index.meta)
    ensures var m := CoalesceSpec(index.logBlockSize, index.accesses, index.buckets[BucketIndex(index.logBlockSize, st.addr)],
                                  index.meta, index.flags[st.ref := Flags(false, None, false)], Store, st.addr, Some(st.ref));
      (m.Some? ==> next == WaitFor(m.value, EvStoreFinish) && m.value != st.ref
                   && index.flags == old(index.flags)[st.ref := Flags(true, m, false)])
      && (m.None? ==> next == Resume(EvStoreLock, 0) && index.flags == old(index.flags)[st.ref := Flags(false, None, false)])
  {
    var master := StartAccess(index, st, Store, true);
    st.write := true;
    if master.Some? {
      next := WaitFor(master.value, EvStoreFinish);
    } else {
      next := Resume(EvStoreLock, 0);
    }
  }

  /** STORE_LOCK: a store waits for the access right before it, so it locks the line only
    * as the oldest access in flight; it then uses a blocking write FindAndLock. */
  method StoreLock(st: Stack, index: InFlightIndex) returns (next: Next)
    requires index.Valid() && st.ref in index.accesses
    ensures next.WaitFor? <==> index.accesses[0] != st.ref
    ensures next.WaitFor? ==> (next.event == EvStoreLock
      && next.older == index.accesses[IndexOf(index.accesses, st.ref) - 1])
    ensures !next.WaitFor? ==> next == Spawn(LockCall(st.addr, true, false, true, false, false, st.retry), EvStoreAction)
  {
    var older := index.Previous(st.ref);
    if older.Some? {
      next := WaitFor(older.value, EvStoreLock);
    } else {
      next := Spawn(LockCall(st.addr, true, false, true, false, false, st.retry), EvStoreAction);
    }
  }

  /** STORE_ACTION: a failed lock retries; a line held Modified or Exclusive needs nothing
    * more; any other state sends an up-down write request below. */
  method StoreAction(st: Stack, random: nat, latency: nat) returns (next: Next)
    requires latency > 0
    modifies st`retry
    ensures st.err ==> st.retry && next == Retry(EvStoreLock, random, latency)
    ensures !st.err ==> st.retry == old(st.retry)
    ensures !st.err && StoreHits(st.state) ==> next == Resume(EvStoreUnlock, 0)
    ensures !st.err && !StoreHits(st.state) ==> next == Spawn(WriteChild(st.tag, Below), EvStoreUnlock)
  {
    if st.err {
      st.retry := true;
      next := Retry(EvStoreLock, random, latency);
    } else if st.state == Modified || st.state == Exclusive {
      next := Resume(EvStoreUnlock, 0);
    } else {
      next := Spawn(WriteChild(st.tag, Below), EvStoreUnlock);
    }
  }

  /** STORE_UNLOCK: a failed write request releases the entry and retries; otherwise the
    * line becomes Modified, the entry is released, and the store finishes after the
    * access latency. Either way the entry is left unlocked. */
  method StoreUnlock(st: Stack, cache: Cache, random: nat, latency: nat) returns (next: Next, woken: Option<Waiter>)
    requires latency > 0 && cache.Valid() && st.si < cache.numSets && 0 <= st.way < cache.assoc
    modifies cache.blocks, cache.locks, st`retry
    ensures (woken, cache.locks[st.si, st.way]) == ReleaseLock(old(cache.locks[st.si, st.way]))
    ensures st.err ==> st.retry && next == Retry(EvStoreLock, random, latency) && unchanged(cache.blocks)
    ensures !st.err ==> (st.retry == old(st.retry) && next == Resume(EvStoreFinish, latency)
      && cache.blocks[st.si, st.way] == old(cache.blocks[st.si, st.way]).(tag := st.tag, state := Modified))
    ensures forall s, w :: 0 <= s < cache.numSets && 0 <= w < cache.assoc && (s != st.si || w != st.way) ==>
      cache.blocks[s, w] == old(cache.blocks[s, w]) && cache.locks[s, w] == old(cache.locks[s, w])
  {
    if st.err {
      woken := cache.EntryUnlock(st.si, st.way);
      st.retry := true;
      next := Retry(EvStoreLock, random, latency);
    } else {
      cache.SetBlock(st.si, st.way, st.tag, Modified);
      woken := cache.EntryUnlock(st.si, st.way);
      next := Resume(EvStoreFinish, latency);
    }
  }

  // ---------------------------------------------------------------------------------------
  // Non-coherent store (nmoesi-protocol.c:653-913)

  /** NC_STORE: the access is recorded; one right behind an unlocked non-coherent store to
    * the same block is coalesced with its master. */
  method NCStoreStart(st: Stack, index: InFlightIndex) returns (next: Next)
    requires index.Valid() && st.ref !in index.meta && st.ref !in index.flags
    modifies index, index.buckets
    ensures index.Valid()
    ensures index.accesses == old(index.accesses) + [st.ref] && index.writes == old(index.writes)
    ensures index.meta == old(index.meta)[st.ref := Meta(st.id, NCStore, st.addr)]
    ensures Known(index.buckets[BucketIndex(index.logBlockSize, st.addr)], index.meta)
    ensures var m := CoalesceSpec(index.logBlockSize, index.accesses, index.buckets[BucketIndex(index.logBlockSize, st.addr)],
                                  index.meta, index.flags[st.ref := Flags(false, None, false)], NCStore, st.addr, Some(st.ref));
      (m.Some? ==> next == WaitFor(m.value, EvNCStoreFinish) && m.value != st.ref
                   && index.flags == old(index.flags)[st.ref := Flags(true, m, false)])
      && (m.None? ==> next == Resume(EvNCStoreLock, 0) && index.flags == old(index.flags)[st.ref := Flags(false, None, false)])
  {
    var master := StartAccess(index, st, NCStore, true);
    if master.Some? {
      next := WaitFor(master.value, EvNCStoreFinish);
    } else {
      next := Resume(EvNCStoreLock, 0);
    }
  }

  /** NC_STORE_LOCK: as LOAD_LOCK, with a blocking non-coherent-write FindAndLock. */
  method NCStoreLock(st: Stack, index: InFlightIndex) returns (next: Next)
    requires index.Valid() && st.ref in index.accesses
    ensures next.WaitFor? <==> MustWait(index.accesses, index.meta, index.logBlockSize, st.ref, st.addr, true)
    ensures next.WaitFor? ==> (next.event == EvNCStoreLock
      && (StoreBefore(index.accesses, index.meta, st.ref, next.older) || SameBlockOlder(index.accesses, index.meta, index.logBlockSize, st.ref, st.addr, next.older)))
    ensures (exists x :: StoreBefore(index.accesses, index.meta, st.ref, x)) ==> next.WaitFor? && StoreBefore(index.accesses, index.meta, st.ref, next.older)
    ensures !next.WaitFor? ==>
      next == Spawn(LockCall(st.addr, true, false, false, true, false, st.retry), EvNCStoreWriteback)
  {
    var older := OlderBlocker(index, st.ref, st.addr, true);
    if older.Some? {
      next := WaitFor(older.value, EvNCStoreLock);
    } else {
      next := Spawn(LockCall(st.addr, true, false, false, true, false, st.retry), EvNCStoreWriteback);
    }
  }

  /** NC_STORE_WRITEBACK: a failed lock retries; a dirty line (Modified or Owned) is first
    * evicted so that the level below holds the latest data. */
  method NCStoreWriteback(st: Stack, random: nat, latency: nat) returns (next: Next)
    requires latency > 0
    modifies st`retry, st`eviction
    ensures st.err ==> st.retry && st.eviction == old(st.eviction) && next == Retry(EvNCStoreLock, random, latency)
    ensures !st.err ==> st.retry == old(st.retry)
    ensures !st.err && NCStoreEvicts(st.state) ==> st.eviction && next == Spawn(EvictChild(st.si, st.way), EvNCStoreAction)
    ensures !st.err && !NCStoreEvicts(st.state) ==> st.eviction == old(st.eviction) && next == Resume(EvNCStoreAction, 0)
  {
    if st.err {
      st.retry := true;
      next := Retry(EvNCStoreLock, random, latency);
    } else if st.state == Modified || st.state == Owned {
      st.eviction := true;
      next := Spawn(EvictChild(st.si, st.way), EvNCStoreAction);
    } else {
      next := Resume(EvNCStoreAction, 0);
    }
  }

  /** What NC_STORE_ACTION schedules once the line is locked, by `NCStoreDecision`. */
  function NCStoreNext(action: NCAction, tag: nat): (n: Next)
    ensures action == NCUnlock ==> n == Resume(EvNCStoreUnlock, 0)
    ensures action == NCClearOwner ==> n == Spawn(ClearOwnerChild(tag), EvNCStoreMiss)
    ensures action == NCReadRequest ==> n == Spawn(ReadChild(tag, Below, true, false), EvNCStoreMiss)
  {
    match action
    case NCUnlock => Resume(EvNCStoreUnlock, 0)
    case NCClearOwner => Spawn(ClearOwnerChild(tag), EvNCStoreMiss)
    case NCReadRequest => Spawn(ReadChild(tag, Below, true, false), EvNCStoreMiss)
  }

  /** NC_STORE_ACTION as written: its error path (a failed write-back eviction, the entry
    * still locked by this access since LOCK) retries without releasing the entry. */
  method NCStoreActionAsWritten(st: Stack, random: nat, latency: nat, mainMemory: bool) returns (next: Next)
    requires latency > 0
    modifies st`retry
    ensures st.err ==> st.retry && next == Retry(EvNCStoreLock, random, latency)
    ensures !st.err ==> st.retry == old(st.retry) && next == NCStoreNext(NCStoreDecision(st.state, mainMemory), st.tag)
  {
    if st.err {
      st.retry := true;
      next := Retry(EvNCStoreLock, random, latency);
    } else {
      next := NCStoreNext(NCStoreDecision(st.state, mainMemory), st.tag);
    }
  }

  /** The as-written chain of a non-coherent store whose victim write-back fails. LOCK's
    * find-and-lock child `first` takes the free entry; FIND_AND_LOCK_ACTION releases its port;
    * the eviction's steps write blocks but no entry lock; NC_STORE_ACTION as written retries;
    * the retried LOCK's child `second`, carrying the same id, takes the free port and asks for
    * the entry again. It is queued behind the entry its own access still holds, and only
    * that access's UNLOCK or MISS step, which the queued child would have to reach first,
    * releases it. */
  method NCStoreRetryQueuesOnItself(st: Stack, cache: Cache, ports: PortArbiter, first: StackRef, second: StackRef,
                                    random: nat, latency: nat, mainMemory: bool)
    returns (taken: EntryStep, retried: EntryStep)
    requires latency > 0 && cache.Valid() && st.si < cache.numSets && 0 <= st.way < cache.assoc
    requires !cache.locks[st.si, st.way].locked
    requires ports.Valid() && first in ports.portOf && ports.waiting == [] && second != first && second !in ports.portOf
    requires st.err
    modifies cache.locks, ports, ports.ports, st`retry
    ensures taken == Took && retried == Waits
    ensures cache.locks[st.si, st.way]
         == EntryLock(true, st.id, old(cache.locks[st.si, st.way]).queue + [Waiter(second, EvFindAndLock)])
  {
    var woken, next;
    taken, woken := LockEntry(cache, ports, st.si, st.way, first, st.id, true, ports.portOf[first]);
    woken := ports.Unlock(ports.portOf[first], first);
    next := NCStoreActionAsWritten(st, random, latency, mainMemory);
    var outcome := ports.Lock(second, false, EvFindAndLockPort);
    retried, woken := LockEntry(cache, ports, st.si, st.way, second, st.id, true, outcome.port);
  }

  /** NC_STORE_ACTION, with the entry released on the error path before the retry, as the
    * other retrying steps (LOAD_MISS, STORE_UNLOCK, NC_STORE_MISS) do. */
  method NCStoreAction(st: Stack, cache: Cache, random: nat, latency: nat, mainMemory: bool)
    returns (next: Next, woken: Option<Waiter>)
    requires latency > 0 && cache.Valid() && st.si < cache.numSets && 0 <= st.way < cache.assoc
    modifies cache.locks, st`retry
    ensures st.err ==> (st.retry && next == Retry(EvNCStoreLock, random, latency)
      && (woken, cache.locks[st.si, st.way]) == ReleaseLock(old(cache.locks[st.si, st.way]))
      && !cache.locks[st.si, st.way].locked)
    ensures !st.err ==> (st.retry == old(st.retry) && woken.None? && unchanged(cache.locks)
      && next == NCStoreNext(NCStoreDecision(st.state, mainMemory), st.tag))
    ensures forall s, w :: 0 <= s < cache.numSets && 0 <= w < cache.assoc && (s != st.si || w != st.way) ==>
      cache.locks[s, w] == old(cache.locks[s, w])
  {
    if st.err {
      woken := cache.EntryUnlock(st.si, st.way);
      st.retry := true;
      next := Retry(EvNCStoreLock, random, latency);
    } else {
      woken := None;
      next := NCStoreNext(NCStoreDecision(st.state, mainMemory), st.tag);
    }
  }

  /** The same chain with the corrected NC_STORE_ACTION: the entry is released before the
    * retry (its first waiter, if any, is handed back), so the retried LOCK's child takes it
    * for the access. */
  method NCStoreRetryCanLock(st: Stack, cache: Cache, ports: PortArbiter, first: StackRef, second: StackRef,
                             random: nat, latency: nat, mainMemory: bool)
    returns (taken: EntryStep, retried: EntryStep, woken: Option<Waiter>)
    requires latency > 0 && cache.Valid() && st.si < cache.numSets && 0 <= st.way < cache.assoc
    requires !cache.locks[st.si, st.way].locked
    requires ports.Valid() && first in ports.portOf && ports.waiting == [] && second != first && second !in ports.portOf
    requires st.err
    modifies cache.locks, ports, ports.ports, st`retry
    ensures taken == Took && retried == Took
    ensures woken == ReleaseLock(old(cache.locks[st.si, st.way])).0
    ensures cache.locks[st.si, st.way] == EntryLock(true, st.id, ReleaseLock(old(cache.locks[st.si, st.way])).1.queue)
  {
    var portWoken, next;
    taken, portWoken := LockEntry(cache, ports, st.si, st.way, first, st.id, true, ports.portOf[first]);
    portWoken := ports.Unlock(ports.portOf[first], first);
    next, woken := NCStoreAction(st, cache, random, latency, mainMemory);
    var outcome := ports.Lock(second, false, EvFindAndLockPort);
    retried, portWoken := LockEntry(cache, ports, st.si, st.way, second, st.id, true, outcome.port);
  }

  /** NC_STORE_MISS: a failed request below releases the entry and retries. */
  method NCStoreMiss(st: Stack, cache: Cache, random: nat, latency: nat) returns (next: Next, woken: Option<Waiter>)
    requires latency > 0 && cache.Valid() && st.si < cache.numSets && 0 <= st.way < cache.assoc
    modifies cache.locks, st`retry
    ensures st.err ==> (st.retry && next == Retry(EvNCStoreLock, random, latency)
      && (woken, cache.locks[st.si, st.way]) == ReleaseLock(old(cache.locks[st.si, st.way])))
    ensures !st.err ==> (st.retry == old(st.retry) && woken.None? && unchanged(cache.locks)
      && next == Resume(EvNCStoreUnlock, 0))
    ensures forall s, w :: 0 <= s < cache.numSets && 0 <= w < cache.assoc && (s != st.si || w != st.way) ==>
      cache.locks[s, w] == old(cache.locks[s, w])
  {
    if st.err {
      woken := cache.EntryUnlock(st.si, st.way);
      st.retry := true;
      next := Retry(EvNCStoreLock, random, latency);
    } else {
      woken := None;
      next := Resume(EvNCStoreUnlock, 0);
    }
  }

  /** NC_STORE_UNLOCK: the line becomes NonCoherent, the entry is released, and the store
    * finishes after the access latency. */
  method NCStoreUnlock(st: Stack, cache: Cache, latency: nat) returns (next: Next, woken: Option<Waiter>)
    requires cache.Valid() && st.si < cache.numSets && 0 <= st.way < cache.assoc
    modifies cache.blocks, cache.locks
    ensures cache.blocks[st.si, st.way] == old(cache.blocks[st.si, st.way]).(tag := st.tag, state := NonCoherent)
    ensures (woken, cache.locks[st.si, st.way]) == ReleaseLock(old(cache.locks[st.si, st.way]))
    ensures forall s, w :: 0 <= s < cache.numSets && 0 <= w < cache.assoc && (s != st.si || w != st.way) ==>
      cache.blocks[s, w] == old(cache.blocks[s, w]) && cache.locks[s, w] == old(cache.locks[s, w])
    ensures next == Resume(EvNCStoreFinish, latency)
  {
    cache.SetBlock(st.si, st.way, st.tag, NonCoherent);
    woken := cache.EntryUnlock(st.si, st.way);
    next := Resume(EvNCStoreFinish, latency);
  }

  // ---------------------------------------------------------------------------------------
  // Prefetch (nmoesi-protocol.c:915-1134)

  /** PREFETCH: the access is recorded; if any older access to the block is in flight the
    * prefetch is useless and finishes at once, without being coalesced. */
  method PrefetchStart(st: Stack, index: InFlightIndex) returns (next: Next)
    requires index.Valid() && st.ref !in index.meta && st.ref !in index.flags
    modifies index, index.buckets
    ensures index.Valid()
    ensures index.accesses == old(index.accesses) + [st.ref] && index.writes == old(index.writes)
    ensures index.meta == old(index.meta)[st.ref := Meta(st.id, Prefetch, st.addr)]
    ensures index.flags == old(index.flags)[st.ref := Flags(false, None, false)]
    ensures index.coalescedCount == old(index.coalescedCount)
    ensures Known(index.buckets[BucketIndex(index.logBlockSize, st.addr)], index.meta)
    ensures var m := CoalesceSpec(index.logBlockSize, index.accesses, index.buckets[BucketIndex(index.logBlockSize, st.addr)],
                                  index.meta, index.flags, Prefetch, st.addr, Some(st.ref));
      (m.Some? ==> next == Resume(EvPrefetchFinish, 0)) && (m.None? ==> next == Resume(EvPrefetchLock, 0))
  {
    var master := StartAccess(index, st, Prefetch, false);
    if master.Some? {
      next := Resume(EvPrefetchFinish, 0);
    } else {
      next := Resume(EvPrefetchLock, 0);
    }
  }

  /** PREFETCH_LOCK: wait only for an older store, then lock with a non-blocking
    * FindAndLock that never counts as a retry. */
  method PrefetchLock(st: Stack, index: InFlightIndex) returns (next: Next)
    requires index.Valid() && st.ref in index.accesses
    ensures next.WaitFor? <==> exists x :: StoreBefore(index.accesses, index.meta, st.ref, x)
    ensures next.WaitFor? ==> next.event == EvPrefetchLock && StoreBefore(index.accesses, index.meta, st.ref, next.older)
    ensures !next.WaitFor? ==> next == Spawn(LockCall(st.addr, false, false, false, false, true, false), EvPrefetchAction)
  {
    var older := OlderBlocker(index, st.ref, st.addr, false);
    if older.Some? {
      next := WaitFor(older.value, EvPrefetchLock);
    } else {
      next := Spawn(LockCall(st.addr, false, false, false, false, true, false), EvPrefetchAction);
    }
  }

  /** PREFETCH_ACTION: a failed lock abandons the prefetch (no retry); a line already
    * present makes it useless; otherwise a prefetch read request goes below. */
  method PrefetchAction(st: Stack) returns (next: Next)
    ensures st.err ==> next == Resume(EvPrefetchFinish, 0)
    ensures !st.err && LoadHits(st.state) ==> next == Resume(EvPrefetchUnlock, 0)
    ensures !st.err && !LoadHits(st.state) ==> next == Spawn(ReadChild(st.tag, Below, false, true), EvPrefetchMiss)
  {
    if st.err {
      next := Resume(EvPrefetchFinish, 0);
    } else if st.state != Invalid {
      next := Resume(EvPrefetchUnlock, 0);
    } else {
      next := Spawn(ReadChild(st.tag, Below, false, true), EvPrefetchMiss);
    }
  }

  /** PREFETCH_MISS: a failed read request releases the entry and abandons the prefetch;
    * otherwise the line is filled as a load fill would be and, with a prefetcher attached,
    * marked prefetched. */
  method PrefetchMiss(st: Stack, cache: Cache, hasPrefetcher: bool) returns (next: Next, woken: Option<Waiter>)
    requires cache.Valid() && st.si < cache.numSets && 0 <= st.way < cache.assoc
    modifies cache.blocks, cache.locks
    ensures st.err ==> (next == Resume(EvPrefetchFinish, 0) && unchanged(cache.blocks)
      && (woken, cache.locks[st.si, st.way]) == ReleaseLock(old(cache.locks[st.si, st.way])))
    ensures !st.err ==> (next == Resume(EvPrefetchUnlock, 0) && unchanged(cache.locks) && woken.None?
      && cache.blocks[st.si, st.way] == old(cache.blocks[st.si, st.way]).(tag := st.tag, state := NextState(st.shared, st.dirty),
           prefetched := if hasPrefetcher then true else old(cache.blocks[st.si, st.way]).prefetched))
    ensures forall s, w :: 0 <= s < cache.numSets && 0 <= w < cache.assoc && (s != st.si || w != st.way) ==>
      cache.blocks[s, w] == old(cache.blocks[s, w]) && cache.locks[s, w] == old(cache.locks[s, w])
  {
    if st.err {
      woken := cache.EntryUnlock(st.si, st.way);
      next := Resume(EvPrefetchFinish, 0);
    } else {
      cache.SetBlock(st.si, st.way, st.tag, NextState(st.shared, st.dirty));
      if hasPrefetcher {
        cache.SetPrefetched(st.si, st.way, true);
      }
      woken := None;
      next := Resume(EvPrefetchUnlock, 0);
    }
  }

  /** PREFETCH_UNLOCK: release the entry and finish with no access latency. */
  method PrefetchUnlock(st: Stack, cache: Cache) returns (next: Next, woken: Option<Waiter>)
    requires cache.Valid() && st.si < cache.numSets && 0 <= st.way < cache.assoc
    modifies cache.locks
    ensures (woken, cache.locks[st.si, st.way]) == ReleaseLock(old(cache.locks[st.si, st.way]))
    ensures forall s, w :: 0 <= s < cache.numSets && 0 <= w < cache.assoc && (s != st.si || w != st.way) ==>
      cache.locks[s, w] == old(cache.locks[s, w])
    ensures next == Resume(EvPrefetchFinish, 0)
  {
    woken := cache.EntryUnlock(st.si, st.way);
    next := Resume(EvPrefetchFinish, 0);
  }
}
