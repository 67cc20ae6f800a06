/** The find-and-lock handler of nmoesi-protocol.c. A child stack of an access or a request
  * takes a port of its module, looks the block up, picks a victim on a miss and locks the
  * directory entry; it then releases the port, evicts the victim when it is valid, and
  * reports the set, way, state and tag to its parent (`ret`). */
module FindAndLock {
  import opened Wrappers
  import opened States
  import opened Addressing
  import opened CacheStore
  import opened Ports
  import opened ModStack

  /** A request that is neither a down-up read or write-back nor an eviction transfer: only
    * such a request picks a victim on a miss. */
  predicate Plain(downupRead: bool, downupWb: bool, evictTrans: bool)
  {
    !downupRead && !downupWb && !evictTrans
  }

  /** Whether the step locks the entry (and records the transient tag): on a hit, and for a
    * plain request also on a miss. */
  predicate TakesEntry(hit: bool, downupRead: bool, downupWb: bool, evictTrans: bool)
  {
    hit || Plain(downupRead, downupWb, evictTrans)
  }

  /** FIND_AND_LOCK (nmoesi-protocol.c:1145-1161): clear the parent's error, keep a way the
    * parent already chose, and ask for a port; a down-up request queues at the head. */
  method FindAndLockStart(st: Stack, ports: PortArbiter) returns (next: Next)
    requires st.ret != null && ports.Valid()
    requires st.ref !in ports.portOf
    requires forall i :: 0 <= i < |ports.waiting| ==> ports.waiting[i].stack != st.ref
    modifies st.ret`err, st`way, ports, ports.ports
    ensures !st.ret.err && st.way == old(st.ret.way)
    ensures ports.Valid()
    ensures next == Resume(EvFindAndLockPort, 0) <==> st.ref in ports.portOf
    ensures next != Resume(EvFindAndLockPort, 0) ==>
      next == Next.Queued(EvFindAndLockPort)
      && PortWaiter(st.ref, st.requestDir == DownUp, EvFindAndLockPort) in ports.waiting
  {
    st.ret.err := false;
    st.way := st.ret.way;
    var outcome := ports.Lock(st.ref, st.requestDir == DownUp, EvFindAndLockPort);
    if outcome.Locked? {
      next := Resume(EvFindAndLockPort, 0);
    } else {
      next := Next.Queued(EvFindAndLockPort);
    }
  }

  /** What the entry lock of FIND_AND_LOCK_PORT does (nmoesi-protocol.c:1393-1419): a
    * non-blocking request that meets a locked entry fails without touching the lock (`Busy`);
    * a blocking one queues on it (`Waits`); a free entry is taken (`Took`). */
  datatype EntryStep = Busy | Waits | Took

  function EntryDecision(l: EntryLock, blocking: bool): (r: EntryStep)
    ensures r == Busy <==> l.locked && !blocking
    ensures r == Waits <==> l.locked && blocking
    ensures r == Took <==> !l.locked
  {
    if !l.locked then Took else if blocking then Waits else Busy
  }

  /** The entry lock as the step leaves it: untouched when busy, otherwise as `cache_entry_lock`
    * leaves it. */
  function LockAfter(l: EntryLock, step: EntryStep, w: Waiter, id: int): EntryLock
  {
    if step == Busy then l else TryLock(l, w, id).1
  }

  /** A non-blocking request never waits on an entry: it either takes the free entry or leaves
    * the lock exactly as it found it. */
  lemma NonBlockingNeverQueues(l: EntryLock, w: Waiter, id: int)
    ensures LockAfter(l, EntryDecision(l, false), w, id).queue == l.queue
    ensures EntryDecision(l, false) == Busy ==> LockAfter(l, EntryDecision(l, false), w, id) == l
    ensures EntryDecision(l, false) == Took ==> LockAfter(l, EntryDecision(l, false), w, id) == EntryLock(true, id, l.queue)
  {
  }

  /** A blocking request leaves the entry locked, either by itself or with the request queued
    * last behind the holder. */
  lemma BlockingHoldsOrWaits(l: EntryLock, w: Waiter, id: int)
    ensures LockAfter(l, EntryDecision(l, true), w, id).locked
    ensures EntryDecision(l, true) == Took ==> LockAfter(l, EntryDecision(l, true), w, id).holderId == id
    ensures EntryDecision(l, true) == Waits ==>
      LockAfter(l, EntryDecision(l, true), w, id).queue == l.queue + [w]
      && LockAfter(l, EntryDecision(l, true), w, id).holderId == l.holderId
  {
  }

  /** The entry lock of FIND_AND_LOCK_PORT (nmoesi-protocol.c:1393-1419) for stack `stack` (id
    * `id`) holding port `port`: unless the entry is taken, the port is released, and `woken` is
    * the access it went to. */
  method LockEntry(cache: Cache, ports: PortArbiter, si: nat, way: nat, stack: StackRef, id: int,
                   blocking: bool, port: nat) returns (step: EntryStep, woken: Option<PortWaiter>)
    requires cache.Valid() && si < cache.numSets && way < cache.assoc
    requires ports.Valid() && stack in ports.portOf && ports.portOf[stack] == port
    modifies cache.locks, ports, ports.ports
    ensures step == EntryDecision(old(cache.locks[si, way]), blocking)
    ensures cache.locks[si, way] == LockAfter(old(cache.locks[si, way]), step, Waiter(stack, EvFindAndLock), id)
    ensures forall s, w :: 0 <= s < cache.numSets && 0 <= w < cache.assoc && (s != si || w != way) ==>
      cache.locks[s, w] == old(cache.locks[s, w])
    ensures ports.Valid()
    ensures step == Took <==> stack in ports.portOf
    ensures step == Took ==> unchanged(ports, ports.ports) && woken.None?
    ensures step != Took ==>
      (old(ports.waiting) == [] ==> woken.None? && ports.waiting == [])
      && (old(ports.waiting) != [] ==> woken == Some(old(ports.waiting)[0]) && ports.waiting == old(ports.waiting)[1..])
  {
    woken := None;
    var l := cache.locks[si, way];
    if l.locked && !blocking {
      woken := ports.Unlock(port, stack);
      return Busy, woken;
    }
    var acquired := cache.EntryLockTry(si, way, EvFindAndLock, stack, id);
    if !acquired {
      woken := ports.Unlock(port, stack);
      return Waits, woken;
    }
    step := Took;
  }

  /** FIND_AND_LOCK_PORT (nmoesi-protocol.c:1163-1466) with the port held: `PortStep` looks the
    * block up and updates the stack, its parent and the block; then the entry lock is taken
    * and, unless that succeeded, the port is released. `victim` is the replacement policy's
    * choice of way for a plain miss; `woken` is the access the released port went to. */
  method FindAndLockPort(st: Stack, cache: Cache, ports: PortArbiter, r: Range, victim: nat)
    returns (next: Next, woken: Option<PortWaiter>)
    requires st.ret != null && st.ret != st
    requires cache.Valid() && RangeOk(r) && victim < cache.assoc && st.way < cache.assoc
    requires ports.Valid() && st.ref in ports.portOf
    modifies st`hit, st`si, st`way, st`tag, st`state, st.ret`portLocked, st.ret`prevState, st.ret`err,
             st.ret`readInProgress, st.ret`writeInProgress, cache.blocks, cache.locks, ports, ports.ports
    ensures ports.Valid()
    ensures next.Stop? <==> r.NoRange?
    ensures next.Stop? ==> unchanged(cache.blocks)
    ensures next.Stop? || !TakesEntry(st.hit, st.downupRead, st.downupWb, st.evictTrans) ==>
      unchanged(cache.locks) && unchanged(ports, ports.ports) && woken.None?
    ensures !next.Stop? ==>
      st.si < cache.numSets && st.tag == BlockTag(cache.Shape(), st.addr) && st.way < cache.assoc
    ensures !next.Stop? && !st.hit ==>
      var si := st.si;
      st.way == (if Plain(st.downupRead, st.downupWb, st.evictTrans) && old(st.way) < 0 then victim else old(st.way))
      && forall w :: 0 <= w < cache.assoc ==> !TagHit(old(cache.blocks[si, w]), st.tag)
    ensures !next.Stop? && !TakesEntry(st.hit, st.downupRead, st.downupWb, st.evictTrans) ==>
      st.state == old(st.state) && st.ret.prevState == Invalid
      && unchanged(cache.blocks)
      && next == Resume(EvFindAndLockAction, 0) && st.ret.portLocked
    ensures !next.Stop? && TakesEntry(st.hit, st.downupRead, st.downupWb, st.evictTrans) ==>
      st.si < cache.numSets && 0 <= st.way < cache.assoc
      && var si, way := st.si, st.way;
         var l, b := old(cache.locks[si, way]), old(cache.blocks[si, way]);
         var step := EntryDecision(l, st.blocking);
         cache.locks[si, way] == LockAfter(l, step, Waiter(st.ref, EvFindAndLock), st.id)
         && (st.hit ==> TagHit(b, st.tag) && st.state == b.state && st.state != Invalid)
         && (step == Took <==> st.ref in ports.portOf)
         && (step == Took <==> st.ret.portLocked)
         && (step == Busy <==> next == Return)
         && (step == Busy ==> st.ret.err)
         && (step == Waits <==> next == Next.Queued(EvFindAndLock))
         && (step == Took <==> next == Resume(EvFindAndLockAction, 0))
         && (step != Took ==> cache.blocks[si, way] == b)
         && (step == Took ==>
               cache.blocks[si, way] == b.(transientTag := st.tag)
               && st.ret.prevState == (if st.hit then b.state else Invalid)
               && (!st.hit ==> st.state == b.state)
               && (st.requestDir != DownUp && st.read ==> st.ret.readInProgress)
               && (st.requestDir != DownUp && st.write ==> st.ret.writeInProgress)
               && unchanged(ports, ports.ports) && woken.None?)
         && (step != Took ==>
               (old(ports.waiting) == [] ==> woken.None? && ports.waiting == [])
               && (old(ports.waiting) != [] ==>
                     woken == Some(old(ports.waiting)[0]) && ports.waiting == old(ports.waiting)[1..]))
    ensures forall s, w :: 0 <= s < cache.numSets && 0 <= w < cache.assoc && (s != st.si || w != st.way) ==>
      cache.blocks[s, w] == old(cache.blocks[s, w]) && cache.locks[s, w] == old(cache.locks[s, w])
  {
    var takes;
    next, takes := PortStep(st, cache, r, victim);
    woken := None;
    if takes {
      var step;
      step, woken := LockEntry(cache, ports, st.si, st.way, st.ref, st.id, st.blocking, ports.portOf[st.ref]);
    }
  }

  /** FIND_AND_LOCK_PORT (nmoesi-protocol.c:1177-1465) apart from the port and the entry lock:
    * look the block up, then act on what locking the entry will do (`takes` says whether the
    * step locks it at all). A non-blocking request that meets a locked entry fails: the parent
    * gets the error and its port is no longer locked. A blocking one waits on the entry and
    * retries from FIND_AND_LOCK once it is unlocked. A free entry records the transient tag of
    * the block being brought. */
  method PortStep(st: Stack, cache: Cache, r: Range, victim: nat) returns (next: Next, takes: bool)
    requires st.ret != null && st.ret != st
    requires cache.Valid() && RangeOk(r) && victim < cache.assoc && st.way < cache.assoc
    modifies st`hit, st`si, st`way, st`tag, st`state, st.ret`portLocked, st.ret`prevState, st.ret`err,
             st.ret`readInProgress, st.ret`writeInProgress, cache.blocks
    ensures next.Stop? <==> r.NoRange?
    ensures takes <==> !next.Stop? && TakesEntry(st.hit, st.downupRead, st.downupWb, st.evictTrans)
    ensures next.Stop? ==> unchanged(cache.blocks)
    ensures !next.Stop? ==>
      st.si < cache.numSets && st.tag == BlockTag(cache.Shape(), st.addr) && st.way < cache.assoc
      && (takes ==> 0 <= st.way)
    ensures !next.Stop? && !st.hit ==>
      var si := st.si;
      st.way == (if Plain(st.downupRead, st.downupWb, st.evictTrans) && old(st.way) < 0 then victim else old(st.way))
      && forall w :: 0 <= w < cache.assoc ==> !TagHit(old(cache.blocks[si, w]), st.tag)
    ensures !next.Stop? && !takes ==>
      st.state == old(st.state) && st.ret.prevState == Invalid
      && unchanged(cache.blocks)
      && next == Resume(EvFindAndLockAction, 0) && st.ret.portLocked
    ensures takes ==>
      var si, way := st.si, st.way;
      var l, b := cache.locks[si, way], old(cache.blocks[si, way]);
      var step := EntryDecision(l, st.blocking);
      (st.hit ==> TagHit(b, st.tag) && st.state == b.state && st.state != Invalid)
      && (step == Busy <==> next == Return)
      && (step == Busy ==> st.ret.err)
      && (step == Waits <==> next == Next.Queued(EvFindAndLock))
      && (step == Took <==> next == Resume(EvFindAndLockAction, 0))
      && (step == Took <==> st.ret.portLocked)
      && (step != Took ==> cache.blocks[si, way] == b)
      && (step == Took ==>
            cache.blocks[si, way] == b.(transientTag := st.tag)
            && st.ret.prevState == (if st.hit then b.state else Invalid)
            && (!st.hit ==> st.state == b.state)
            && (st.requestDir != DownUp && st.read ==> st.ret.readInProgress)
            && (st.requestDir != DownUp && st.write ==> st.ret.writeInProgress))
    ensures forall s, w :: 0 <= s < cache.numSets && 0 <= w < cache.assoc && (s != st.si || w != st.way) ==>
      cache.blocks[s, w] == old(cache.blocks[s, w])
  {
    var reason := LookUp(st, cache, r, victim);
    if reason.Some? {
      return Stop(reason.value), false;
    }
    if !TakesEntry(st.hit, st.downupRead, st.downupWb, st.evictTrans) {
      return Resume(EvFindAndLockAction, 0), false;
    }
    takes := true;
    match EntryDecision(cache.locks[st.si, st.way], st.blocking) {
      case Busy =>
        st.ret.err := true;
        st.ret.portLocked := false;
        next := Return;
      case Waits =>
        st.ret.portLocked := false;
        next := Next.Queued(EvFindAndLock);
      case Took =>
        TakeEntry(st, cache);
        next := Resume(EvFindAndLockAction, 0);
    }
  }

  /** The rest of FIND_AND_LOCK_PORT once the entry is locked (nmoesi-protocol.c:1421-1458): an
    * up-down request marks the parent's read or write as in progress, a miss takes the victim's
    * state, and the transient tag records the block being brought. */
  method TakeEntry(st: Stack, cache: Cache)
    requires st.ret != null && st.ret != st
    requires cache.Valid() && st.si < cache.numSets && 0 <= st.way < cache.assoc
    modifies st`state, st.ret`readInProgress, st.ret`writeInProgress, cache.blocks
    ensures cache.blocks[st.si, st.way] == old(cache.blocks[st.si, st.way]).(transientTag := st.tag)
    ensures forall s, w :: 0 <= s < cache.numSets && 0 <= w < cache.assoc && (s != st.si || w != st.way) ==>
      cache.blocks[s, w] == old(cache.blocks[s, w])
    ensures st.state == (if st.hit then old(st.state) else old(cache.blocks[st.si, st.way]).state)
    ensures st.ret.readInProgress == (old(st.ret.readInProgress) || (st.requestDir != DownUp && st.read))
    ensures st.ret.writeInProgress == (old(st.ret.writeInProgress) || (st.requestDir != DownUp && st.write))
  {
    if st.requestDir != DownUp {
      if st.read {
        st.ret.readInProgress := true;
      }
      if st.write {
        st.ret.writeInProgress := true;
      }
    }
    if !st.hit {
      st.state := cache.blocks[st.si, st.way].state;
    }
    cache.SetTransientTag(st.si, st.way, st.tag);
  }

  /** The lookup of FIND_AND_LOCK_PORT (nmoesi-protocol.c:1177-1187, 1376-1387): mark the parent's
    * port as locked (too late to coalesce with), look the block up (a miss keeps the way and state
    * the stack had), record the state before the access, and give a plain miss without a way the
    * victim. `reason` is the fatal error of a module without an address range. */
  method LookUp(st: Stack, cache: Cache, r: Range, victim: nat) returns (reason: Option<string>)
    requires st.ret != null && st.ret != st
    requires cache.Valid() && RangeOk(r) && victim < cache.assoc && st.way < cache.assoc
    modifies st`hit, st`si, st`way, st`tag, st`state, st.ret`portLocked, st.ret`prevState
    ensures st.ret.portLocked
    ensures reason.Some? <==> r.NoRange?
    ensures reason.None? ==>
      st.si < cache.numSets && st.tag == BlockTag(cache.Shape(), st.addr) && st.way < cache.assoc
      && st.ret.prevState == (if st.hit then st.state else Invalid)
      && (TakesEntry(st.hit, st.downupRead, st.downupWb, st.evictTrans) ==> 0 <= st.way)
    ensures reason.None? && st.hit ==>
      0 <= st.way && TagHit(cache.blocks[st.si, st.way], st.tag) && st.state == cache.blocks[st.si, st.way].state
      && st.state != Invalid
    ensures reason.None? && !st.hit ==>
      (forall w :: 0 <= w < cache.assoc ==> !TagHit(cache.blocks[st.si, w], st.tag))
      && st.state == old(st.state)
      && st.way == (if Plain(st.downupRead, st.downupWb, st.evictTrans) && old(st.way) < 0 then victim else old(st.way))
  {
    st.ret.portLocked := true;
    var res := cache.FindBlock(r, st.addr);
    if res.Fatal? {
      return Some(res.reason);
    }
    var look := res.value;
    st.hit := look.Hit?;
    st.si := look.si;
    st.tag := look.tag;
    if look.Hit? {
      st.way := look.way;
      st.state := look.state;
    }
    st.ret.prevState := if st.hit then st.state else Invalid;
    if Plain(st.downupRead, st.downupWb, st.evictTrans) && !st.hit && st.way < 0 {
      st.way := victim;
    }
    reason := None;
  }

  /** FIND_AND_LOCK_ACTION (nmoesi-protocol.c:1468-1509): release the port; a plain miss whose
    * victim is valid evicts it first (an eviction child returning to FIND_AND_LOCK_FINISH). */
  method FindAndLockAction(st: Stack, ports: PortArbiter) returns (next: Next, woken: Option<PortWaiter>)
    requires st.ret != null && st.ret != st
    requires ports.Valid() && st.ref in ports.portOf
    modifies st`eviction, st.ret`portLocked, ports, ports.ports
    ensures ports.Valid() && st.ref !in ports.portOf && !st.ret.portLocked
    ensures Plain(st.downupRead, st.downupWb, st.evictTrans) && !st.hit && st.state != Invalid ==>
      st.eviction && next == Spawn(EvictChild(st.si, st.way), EvFindAndLockFinish)
    ensures !(Plain(st.downupRead, st.downupWb, st.evictTrans) && !st.hit && st.state != Invalid) ==>
      st.eviction == old(st.eviction) && next == Resume(EvFindAndLockFinish, 0)
  {
    woken := ports.Unlock(ports.portOf[st.ref], st.ref);
    st.ret.portLocked := false;
    if Plain(st.downupRead, st.downupWb, st.evictTrans) && !st.hit && st.state != Invalid {
      st.eviction := true;
      return Spawn(EvictChild(st.si, st.way), EvFindAndLockFinish), woken;
    }
    next := Resume(EvFindAndLockFinish, 0);
  }

  /** FIND_AND_LOCK_FINISH (nmoesi-protocol.c:1511-1560): an error of the eviction is passed to
    * the parent and the entry is unlocked; otherwise the state is re-read after an eviction, a
    * main memory makes a block it misses Exclusive, and the parent receives set, way, state
    * and tag. `woken` is the access the entry lock went to. */
  method FindAndLockFinish(st: Stack, cache: Cache, mainMemory: bool) returns (next: Next, woken: Option<Waiter>)
    requires st.ret != null && st.ret != st
    requires cache.Valid() && st.si < cache.numSets && st.way < cache.assoc
    requires st.err ==> st.eviction
    requires TakesEntry(st.hit, st.downupRead, st.downupWb, st.evictTrans) || st.eviction || mainMemory ==> 0 <= st.way
    modifies st`state, st.ret`err, st.ret`si, st.ret`way, st.ret`state, st.ret`tag, cache.blocks, cache.locks
    ensures next == Return
    ensures st.ret.err <==> st.err
    ensures st.err ==>
      unchanged(cache.blocks)
      && (TakesEntry(st.hit, st.downupRead, st.downupWb, st.evictTrans) ==>
            (woken, cache.locks[st.si, st.way]) == ReleaseLock(old(cache.locks[st.si, st.way])))
      && (!TakesEntry(st.hit, st.downupRead, st.downupWb, st.evictTrans) ==> unchanged(cache.locks) && woken.None?)
    ensures forall s, w :: 0 <= s < cache.numSets && 0 <= w < cache.assoc && (s != st.si || w != st.way) ==>
      cache.locks[s, w] == old(cache.locks[s, w])
    ensures !st.err ==>
      unchanged(cache.locks) && woken.None?
      && st.ret.si == st.si && st.ret.way == st.way && st.ret.state == st.state && st.ret.tag == st.tag
      && (st.eviction && !mainMemory ==> 0 <= st.way && st.state == old(cache.blocks[st.si, st.way]).state)
      && (mainMemory ==> st.state != Invalid)
    ensures !st.err ==>
      var seen := if st.eviction then old(cache.blocks[st.si, st.way]).state else old(st.state);
      (mainMemory && seen == Invalid ==>
         st.state == Exclusive
         && cache.blocks[st.si, st.way] == old(cache.blocks[st.si, st.way]).(tag := st.tag, state := Exclusive)
         && forall s, w :: 0 <= s < cache.numSets && 0 <= w < cache.assoc && (s != st.si || w != st.way) ==>
              cache.blocks[s, w] == old(cache.blocks[s, w]))
      && (!(mainMemory && seen == Invalid) ==> st.state == seen && unchanged(cache.blocks))
  {
    var ret := st.ret;
    woken := None;
    if st.err {
      st.state := cache.blocks[st.si, st.way].state;
      ret.err := true;
      if TakesEntry(st.hit, st.downupRead, st.downupWb, st.evictTrans) {
        woken := cache.EntryUnlock(st.si, st.way);
      }
      return Return, woken;
    }
    if st.eviction {
      st.state := cache.blocks[st.si, st.way].state;
    }
    if mainMemory && st.state == Invalid {
      st.state := Exclusive;
      cache.SetBlock(st.si, st.way, st.tag, st.state);
    }
    ret.err := false;
    ret.si := st.si;
    ret.way := st.way;
    ret.state := st.state;
    ret.tag := st.tag;
    next := Return;
  }
}
