/** The eviction handler of nmoesi-protocol.c. A valid victim is first invalidated in the caches
  * above; it then goes to the module below as an 8-byte ack (clean) or with its data (dirty or
  * non-coherent), the lower module absorbs it into its own copy of the block under the entry
  * lock, and on the way back the victim's line is made invalid. `cache` is the evicting module,
  * `target` the module below (`target_mod`), `evicts` that module's eviction list. */
module Evict {
  import opened Wrappers
  import opened States
  import opened CacheStore
  import opened AccessIndex
  import opened RequestLists
  import opened ModStack
  import opened Transitions

  /** EVICT (nmoesi-protocol.c:1578-1615): clear the parent's error, read the victim, save where
    * it is, and invalidate it in every cache above (no module excepted). */
  method EvictStart(st: Stack, cache: Cache) returns (next: Next)
    requires st.ret != null && st.ret != st
    requires cache.Valid() && st.si < cache.numSets && 0 <= st.way < cache.assoc
    modifies st`tag, st`state, st`srcSet, st`srcWay, st`srcTag, st.ret`err
    ensures !st.ret.err
    ensures st.tag == cache.blocks[st.si, st.way].tag && st.state == cache.blocks[st.si, st.way].state
    ensures st.srcSet == st.si && st.srcWay == st.way && st.srcTag == st.tag
    ensures next == Spawn(InvalidateChild(st.si, st.way, None), EvEvictInvalid)
  {
    st.ret.err := false;
    var b := cache.blocks[st.si, st.way];
    st.tag := b.tag;
    st.state := b.state;
    st.srcSet := st.si;
    st.srcWay := st.way;
    st.srcTag := st.tag;
    next := Spawn(InvalidateChild(st.si, st.way, None), EvEvictInvalid);
  }

  /** EVICT_INVALID (nmoesi-protocol.c:1617-1637): a main memory has nothing below it, so it
    * only makes its line invalid and finishes. */
  method EvictInvalid(st: Stack, cache: Cache, mainMemory: bool) returns (next: Next)
    requires cache.Valid() && st.srcSet < cache.numSets && 0 <= st.srcWay < cache.assoc
    modifies cache.blocks
    ensures mainMemory ==>
      cache.blocks[st.srcSet, st.srcWay] == old(cache.blocks[st.srcSet, st.srcWay]).(tag := 0, state := Invalid)
      && next == Resume(EvEvictFinish, 0)
    ensures !mainMemory ==> unchanged(cache.blocks) && next == Resume(EvEvictAction, 0)
    ensures forall s, w :: 0 <= s < cache.numSets && 0 <= w < cache.assoc && (s != st.srcSet || w != st.srcWay) ==>
        cache.blocks[s, w] == old(cache.blocks[s, w])
  {
    if mainMemory {
      cache.SetBlock(st.srcSet, st.srcWay, 0, Invalid);
      return Resume(EvEvictFinish, 0);
    }
    next := Resume(EvEvictAction, 0);
  }

  /** EVICT_ACTION (nmoesi-protocol.c:1639-1717): re-read the victim's state, which the caches
    * above may have changed; an invalid victim needs no message, any other is sent below as
    * `EvictMessage` says. The send resumes at EVICT_RECEIVE, or retries this step. */
  method EvictAction(st: Stack, cache: Cache, blockSize: nat) returns (next: Next)
    requires cache.Valid() && st.si < cache.numSets && 0 <= st.way < cache.assoc
    modifies st`state, st`prevState, st`reply
    ensures st.state == cache.blocks[st.si, st.way].state && st.prevState == st.state
    ensures st.state == Invalid ==> next == Resume(EvEvictFinish, 0) && st.reply == old(st.reply)
    ensures st.state != Invalid ==>
      var m := EvictMessage(st.state, blockSize).value;
      st.reply == m.reply && next == Send(m.size, EvEvictReceive, EvEvictAction)
  {
    st.state := cache.blocks[st.si, st.way].state;
    st.prevState := st.state;
    match EvictMessage(st.state, blockSize) {
      case None =>
        next := Resume(EvEvictFinish, 0);
      case Some(m) =>
        st.reply := m.reply;
        next := Send(m.size, EvEvictReceive, EvEvictAction);
    }
  }

  /** The find-and-lock child an eviction sends to the module below: for the victim's tag,
    * non-blocking, as a write, and marked as an eviction transfer. */
  function EvictLockCall(srcTag: nat): (c: Child)
    ensures c.FindAndLockChild? && c.addr == srcTag && !c.blocking && c.write && c.evictTrans
    ensures !c.read && !c.retry && !c.downupRead && !c.downupWb
  {
    FindAndLockChild(srcTag, false, false, true, false, false, false, true, false, false)
  }

  /** EVICT_RECEIVE (nmoesi-protocol.c:1719-1772): the module below registers the eviction on
    * its eviction list once (keyed by the victim's tag; skipped when the evicting module is a
    * main memory), then locks its copy of the block; a non-coherent victim is absorbed by
    * EVICT_PROCESS_NONCOHERENT, any other by EVICT_PROCESS. */
  method EvictReceive(st: Stack, evicts: RequestList, mainMemory: bool) returns (next: Next)
    requires evicts.Valid()
    requires !st.evictRegistered ==> st.ref !in evicts.entries
    modifies st`evictRegistered, evicts, evicts.buckets
    ensures evicts.Valid()
    ensures !old(st.evictRegistered) && !mainMemory ==>
      st.evictRegistered && evicts.entries == old(evicts.entries) + [st.ref]
      && evicts.meta == old(evicts.meta)[st.ref := Meta(st.id, NoAccess, st.srcTag)]
    ensures old(st.evictRegistered) || mainMemory ==>
      st.evictRegistered == old(st.evictRegistered) && unchanged(evicts, evicts.buckets)
    ensures next == Spawn(EvictLockCall(st.srcTag),
                          if st.state == NonCoherent then EvEvictProcessNonCoherent else EvEvictProcess)
  {
    if !st.evictRegistered && !mainMemory {
      evicts.Start(st.ref, st.id, NoAccess, st.srcTag);
      st.evictRegistered := true;
    }
    next := Spawn(EvictLockCall(st.srcTag),
                  if st.state == NonCoherent then EvEvictProcessNonCoherent else EvEvictProcess);
  }

  /** EVICT_PROCESS (nmoesi-protocol.c:1774-1839): the module below has locked its copy of the
    * block (`st.si`, `st.way`, `st.state` are now that copy's, as find-and-lock reported them).
    * A failed lock passes the error to the parent; otherwise the copy absorbs the victim as
    * `EvictAbsorb` says (fatal for a reply that fits no case), is unlocked, and after the lower
    * module's latency the reply goes back up. `woken` is the access the entry lock went to. */
  method EvictProcess(st: Stack, target: Cache, latency: nat) returns (next: Next, woken: Option<Waiter>)
    requires st.ret != null && st.ret != st
    requires !st.err ==> target.Valid() && st.si < target.numSets && 0 <= st.way < target.assoc
    modifies st.ret`err, target.blocks, target.locks
    ensures st.err ==> st.ret.err && next == Resume(EvEvictReply, 0) && unchanged(target.blocks, target.locks)
    ensures !st.err ==> Absorbed(st, target, EvictAbsorb(st.reply, st.state), latency, next, woken,
                                 old(target.blocks[st.si, st.way]), old(target.locks[st.si, st.way]))
    ensures !st.err && next.Stop? ==> unchanged(target.blocks, target.locks)
    ensures !st.err ==>
      forall s, w :: 0 <= s < target.numSets && 0 <= w < target.assoc && (s != st.si || w != st.way) ==>
        target.blocks[s, w] == old(target.blocks[s, w]) && target.locks[s, w] == old(target.locks[s, w])
  {
    if st.err {
      st.ret.err := true;
      return Resume(EvEvictReply, 0), None;
    }
    next, woken := Absorb(st, target, EvictAbsorb(st.reply, st.state), latency);
  }

  /** EVICT_PROCESS_NONCOHERENT (nmoesi-protocol.c:1841-1892): the same for a non-coherent
    * victim, which always carries data and is absorbed as `EvictAbsorbNonCoherent` says. */
  method EvictProcessNonCoherent(st: Stack, target: Cache, latency: nat) returns (next: Next, woken: Option<Waiter>)
    requires st.ret != null && st.ret != st
    requires !st.err ==> target.Valid() && st.si < target.numSets && 0 <= st.way < target.assoc
    modifies st.ret`err, target.blocks, target.locks
    ensures st.err ==> st.ret.err && next == Resume(EvEvictReply, 0) && unchanged(target.blocks, target.locks)
    ensures !st.err ==> Absorbed(st, target, EvictAbsorbNonCoherent(st.reply, st.state), latency, next, woken,
                                 old(target.blocks[st.si, st.way]), old(target.locks[st.si, st.way]))
    ensures !st.err && next.Stop? ==> unchanged(target.blocks, target.locks)
    ensures !st.err ==>
      forall s, w :: 0 <= s < target.numSets && 0 <= w < target.assoc && (s != st.si || w != st.way) ==>
        target.blocks[s, w] == old(target.blocks[s, w]) && target.locks[s, w] == old(target.locks[s, w])
  {
    if st.err {
      st.ret.err := true;
      return Resume(EvEvictReply, 0), None;
    }
    next, woken := Absorb(st, target, EvictAbsorbNonCoherent(st.reply, st.state), latency);
  }

  /** What absorbing the victim left, from the lower copy's block `b` and lock `l` before: a
    * fatal error stops the simulator; otherwise the copy takes the new state if there is one
    * (keeping the tag), the entry is unlocked, and the reply is scheduled after `latency`. */
  ghost predicate Absorbed(st: Stack, target: Cache, outcome: Result<Option<BlockState>>, latency: nat,
                           next: Next, woken: Option<Waiter>, b: Block, l: EntryLock)
    reads st, target, target.blocks, target.locks
    requires target.Valid() && st.si < target.numSets && 0 <= st.way < target.assoc
  {
    (outcome.Fatal? <==> next.Stop?)
    && (outcome.Ok? ==>
          next == Resume(EvEvictReply, latency)
          && target.blocks[st.si, st.way] == (if outcome.value.Some? then b.(tag := st.tag, state := outcome.value.value) else b)
          && (woken, target.locks[st.si, st.way]) == ReleaseLock(l))
  }

  /** The common tail of the two EVICT_PROCESS steps. */
  method Absorb(st: Stack, target: Cache, outcome: Result<Option<BlockState>>, latency: nat)
    returns (next: Next, woken: Option<Waiter>)
    requires target.Valid() && st.si < target.numSets && 0 <= st.way < target.assoc
    modifies target.blocks, target.locks
    ensures Absorbed(st, target, outcome, latency, next, woken,
                     old(target.blocks[st.si, st.way]), old(target.locks[st.si, st.way]))
    ensures next.Stop? ==> unchanged(target.blocks, target.locks)
    ensures forall s, w :: 0 <= s < target.numSets && 0 <= w < target.assoc && (s != st.si || w != st.way) ==>
        target.blocks[s, w] == old(target.blocks[s, w]) && target.locks[s, w] == old(target.locks[s, w])
  {
    if outcome.Fatal? {
      return Stop(outcome.reason), None;
    }
    if outcome.value.Some? {
      target.SetBlock(st.si, st.way, st.tag, outcome.value.value);
    }
    woken := target.EntryUnlock(st.si, st.way);
    next := Resume(EvEvictReply, latency);
  }

  /** EVICT_REPLY (nmoesi-protocol.c:1894-1924): an 8-byte reply goes back up; the send
    * resumes at EVICT_REPLY_RECEIVE or retries this step. */
  function EvictReply(): (n: Next)
    ensures n.Send? && n.size == 8 && n.arrive == EvEvictReplyReceive && n.busy == EvEvictReply
  {
    Send(8, EvEvictReplyReceive, EvEvictReply)
  }

  /** EVICT_REPLY_RECEIVE (nmoesi-protocol.c:1926-1953): unless the lower module failed to lock
    * the block, the victim's line becomes invalid. */
  method EvictReplyReceive(st: Stack, cache: Cache) returns (next: Next)
    requires !st.err ==> cache.Valid() && st.srcSet < cache.numSets && 0 <= st.srcWay < cache.assoc
    modifies cache.blocks
    ensures next == Resume(EvEvictFinish, 0)
    ensures st.err ==> unchanged(cache.blocks)
    ensures !st.err ==>
      cache.blocks[st.srcSet, st.srcWay] == old(cache.blocks[st.srcSet, st.srcWay]).(tag := 0, state := Invalid)
    ensures !st.err ==>
      forall s, w :: 0 <= s < cache.numSets && 0 <= w < cache.assoc && (s != st.srcSet || w != st.srcWay) ==>
        cache.blocks[s, w] == old(cache.blocks[s, w])
  {
    if !st.err {
      cache.SetBlock(st.srcSet, st.srcWay, 0, Invalid);
    }
    next := Resume(EvEvictFinish, 0);
  }

  /** EVICT_FINISH (nmoesi-protocol.c:1955-1980): the eviction leaves the lower module's
    * eviction list (not kept for a main memory) and returns to its parent. */
  method EvictFinish(st: Stack, evicts: RequestList, mainMemory: bool) returns (next: Next)
    requires evicts.Valid()
    requires !mainMemory ==> st.ref in evicts.entries
    modifies st`evictRegistered, evicts, evicts.buckets
    ensures evicts.Valid() && next == Return
    ensures !mainMemory ==>
      !st.evictRegistered && evicts.entries == Without(old(evicts.entries), st.ref) && st.ref !in evicts.entries
      && evicts.queueCount == old(evicts.queueCount) - 1
    ensures mainMemory ==> unchanged(evicts, evicts.buckets) && st.evictRegistered == old(st.evictRegistered)
  {
    if !mainMemory {
      evicts.Finish(st.ref);
      st.evictRegistered := false;
    }
    next := Return;
  }
}
