/** The write request handler of nmoesi-protocol.c. A write request asks `target_mod` for
  * exclusive ownership of a line: up-down, the module below first invalidates every other
  * copy above it and, unless it holds the line exclusively, asks its own module below; down-up,
  * a cache above gives its copy up, sending its data when the level below lacks it. `cache` is
  * the target module's cache, except at WRITE_REQUEST_FINISH, which runs at the requester. */
module WriteRequest {
  import opened Wrappers
  import opened States
  import opened CacheStore
  import opened AccessIndex
  import opened RequestLists
  import opened ModStack
  import opened Transitions
  import opened RequestGates

  /** WRITE_REQUEST (nmoesi-protocol.c:2844-2920): clear the parent's error, expect a reply
    * with data of the requester's block size `blockSize` (a down-up answer may lower it), and
    * send the 8-byte request; a refused send retries this step. */
  method WriteRequestSend(st: Stack, blockSize: nat) returns (next: Next)
    requires st.ret != null && st.ret != st
    modifies st.ret`err, st`replySize, st`reply
    ensures !st.ret.err && st.replySize == blockSize + 8 && st.reply == SetReply(old(st.reply), AckData)
    ensures next == Send(8, EvWriteRequestReceive, EvWriteRequest)
  {
    st.ret.err := false;
    st.replySize := blockSize + 8;
    st.reply := SetReply(st.reply, AckData);
    next := Send(8, EvWriteRequestReceive, EvWriteRequest);
  }

  /** The find-and-lock child of a write request: blocking exactly for a down-up request, as a
    * write, passing on whether it is a down-up write-back and an eviction transfer. */
  function WriteLockCall(addr: nat, downUp: bool, downupWb: bool, evictTrans: bool): (c: Child)
    ensures c.FindAndLockChild? && c.addr == addr && c.blocking == downUp && c.write && !c.read
    ensures c.downupWb == downupWb && c.evictTrans == evictTrans
    ensures !c.ncWrite && !c.prefetch && !c.retry && !c.downupRead
  {
    FindAndLockChild(addr, downUp, false, true, false, false, false, evictTrans, false, downupWb)
  }

  /** WRITE_REQUEST_RECEIVE for an up-down request (nmoesi-protocol.c:3090-3167): register on the
    * receiving module's read/write list once. An older read or write of another access to the
    * block queued there makes the request fail at once (the parent retries it); an eviction to
    * the block in flight makes it wait; otherwise the block is locked without blocking. A
    * down-up request takes `DownUpGate` instead. */
  method WriteReceiveUpDown(st: Stack, readWrites: RequestList, evicts: RequestList) returns (next: Next)
    requires st.ret != null && st.ret != st
    requires readWrites.Valid() && evicts.Valid()
    requires readWrites != evicts && readWrites.buckets != evicts.buckets
    requires st.updownRegistered <==> st.ref in readWrites.entries
    modifies st`updownRegistered, st`replySize, st.ret`err, readWrites, readWrites.buckets
    ensures readWrites.Valid() && st.updownRegistered && st.ref in readWrites.entries
    ensures !old(st.updownRegistered) ==>
      readWrites.entries == old(readWrites.entries) + [st.ref]
      && readWrites.meta == old(readWrites.meta)[st.ref := Meta(st.id, NoAccess, st.addr)]
    ensures old(st.updownRegistered) ==> unchanged(readWrites, readWrites.buckets)
    ensures readWrites.ReadWriteConflict(st.addr, st.id).Some? ==>
      st.ret.err && st.replySize == 8 && next == Resume(EvWriteRequestReply, 0)
    ensures readWrites.ReadWriteConflict(st.addr, st.id).None? ==>
      st.ret.err == old(st.ret.err) && st.replySize == old(st.replySize)
      && next == WaitFirst(evicts.EvictConflict(st.addr, st.id), EvWriteRequestReceive,
                           Spawn(WriteLockCall(st.addr, false, st.downupWb, st.evictTrans), EvWriteRequestAction))
  {
    RegisterUpDown(st, readWrites);
    var rw := ReadWriteCheck(readWrites, st.addr, st.id);
    if rw.Some? {
      st.ret.err := true;
      st.replySize := 8;
      return Resume(EvWriteRequestReply, 0);
    }
    var e := EvictCheck(evicts, st.addr, st.id);
    if e.Some? {
      return WaitFor(e.value, EvWriteRequestReceive);
    }
    next := Spawn(WriteLockCall(st.addr, false, st.downupWb, st.evictTrans), EvWriteRequestAction);
  }

  /** WRITE_REQUEST_ACTION (nmoesi-protocol.c:3170-3207): a failed lock is reported to the
    * parent with an 8-byte reply; otherwise every other copy above the target is invalidated,
    * sparing the requester (`requesterId`), before the request goes on. */
  method WriteRequestAction(st: Stack, requesterId: int) returns (next: Next)
    requires st.ret != null && st.ret != st
    modifies st.ret`err, st`replySize
    ensures st.err ==> st.ret.err && st.replySize == 8 && next == Resume(EvWriteRequestReply, 0)
    ensures !st.err ==>
      st.ret.err == old(st.ret.err) && st.replySize == old(st.replySize)
      && next == Spawn(InvalidateChild(st.si, st.way, Some(requesterId)), EvWriteRequestExclusive)
  {
    if st.err {
      st.ret.err := true;
      st.replySize := 8;
      return Resume(EvWriteRequestReply, 0);
    }
    next := Spawn(InvalidateChild(st.si, st.way, Some(requesterId)), EvWriteRequestExclusive);
  }

  /** WRITE_REQUEST_EXCLUSIVE (nmoesi-protocol.c:3209-3221): once the other copies are gone,
    * go on in the request's direction. */
  function WriteRequestExclusive(dir: RequestDir): (n: Next)
    ensures n.Resume? && n.delay == 0
    ensures n.event == EvWriteRequestUpDown <==> dir == UpDown
    ensures n.event == EvWriteRequestDownUp <==> dir != UpDown
  {
    Resume(if dir == UpDown then EvWriteRequestUpDown else EvWriteRequestDownUp, 0)
  }

  /** WRITE_REQUEST_UPDOWN (nmoesi-protocol.c:3223-3273): a line held exclusively (M or E) is
    * answered at once; in any other state the module first writes to its own module below. */
  function WriteUpDown(state: BlockState, tag: nat): (n: Next)
    ensures n == Resume(EvWriteRequestUpDownFinish, 0) <==> state == Modified || state == Exclusive
    ensures n != Resume(EvWriteRequestUpDownFinish, 0) ==> n == Spawn(WriteChild(tag, Below), EvWriteRequestUpDownFinish)
  {
    if WriteUpDownAsksBelow(state) then Spawn(WriteChild(tag, Below), EvWriteRequestUpDownFinish)
    else Resume(EvWriteRequestUpDownFinish, 0)
  }

  /** WRITE_REQUEST_UPDOWN_FINISH (nmoesi-protocol.c:3275-3325): after a failed write below, the
    * entry is unlocked and the error goes to the parent. Otherwise the line takes the state
    * the reply's flags give, the parent is answered with data (fatal for a reply shorter than
    * 8 bytes, after the line is set), the entry is unlocked, and the reply goes after the
    * module's latency, or at once when a peer already sent the data. */
  method WriteUpDownFinish(st: Stack, cache: Cache, latency: nat) returns (next: Next, woken: Option<Waiter>)
    requires st.ret != null && st.ret != st
    requires cache.Valid() && st.si < cache.numSets && 0 <= st.way < cache.assoc
    modifies st.ret`err, st.ret`reply, st`replySize, cache.blocks, cache.locks
    ensures st.err ==>
      st.ret.err && st.ret.reply == AckError && st.replySize == 8 && unchanged(cache.blocks)
      && (woken, cache.locks[st.si, st.way]) == ReleaseLock(old(cache.locks[st.si, st.way]))
      && next == Resume(EvWriteRequestReply, 0)
    ensures !st.err ==>
      cache.blocks[st.si, st.way] == old(cache.blocks[st.si, st.way]).(tag := st.tag, state := NextState(st.shared, st.dirty))
      && st.ret.err == old(st.ret.err) && st.replySize == old(st.replySize)
    ensures !st.err && st.replySize < 8 ==>
      next.Stop? && unchanged(cache.locks) && woken.None? && st.ret.reply == old(st.ret.reply)
    ensures !st.err && st.replySize >= 8 ==>
      st.ret.reply == SetReply(old(st.ret.reply), AckData)
      && (woken, cache.locks[st.si, st.way]) == ReleaseLock(old(cache.locks[st.si, st.way]))
      && next == Resume(EvWriteRequestReply, if st.reply == AckDataSentToPeer then 0 else latency)
    ensures forall s, w :: 0 <= s < cache.numSets && 0 <= w < cache.assoc && (s != st.si || w != st.way) ==>
        cache.blocks[s, w] == old(cache.blocks[s, w]) && cache.locks[s, w] == old(cache.locks[s, w])
  {
    if st.err {
      st.ret.err := true;
      st.ret.reply := SetReply(st.ret.reply, AckError);
      st.replySize := 8;
      woken := cache.EntryUnlock(st.si, st.way);
      return Resume(EvWriteRequestReply, 0), woken;
    }
    cache.SetBlock(st.si, st.way, st.tag, NextState(st.shared, st.dirty));
    if st.replySize < 8 {
      return Stop("Invalid reply size"), None;
    }
    st.ret.reply := SetReply(st.ret.reply, AckData);
    woken := cache.EntryUnlock(st.si, st.way);
    next := Resume(EvWriteRequestReply, if st.reply == AckDataSentToPeer then 0 else latency);
  }

  /** WRITE_REQUEST_DOWNUP (nmoesi-protocol.c:3327-3383): the cache above answers as
    * `DownUpWrite` says, with its data when it was dirty or non-coherent and an 8-byte ack
    * otherwise, and marks the parent dirty when it was dirty. `targetBlockSize` is this
    * cache's block size. */
  method WriteDownUp(st: Stack, targetBlockSize: nat) returns (next: Next)
    requires st.ret != null && st.ret != st
    modifies st`replySize, st.ret`reply, st.ret`dirty
    ensures var a := DownUpWrite(st.state, targetBlockSize);
      st.replySize == a.size && st.ret.reply == SetReply(old(st.ret.reply), a.reply)
      && st.ret.dirty == (a.retDirty || old(st.ret.dirty))
    ensures next == Resume(EvWriteRequestDownUpFinish, 0)
  {
    var a := DownUpWrite(st.state, targetBlockSize);
    st.replySize := a.size;
    st.ret.reply := SetReply(st.ret.reply, a.reply);
    if a.retDirty {
      st.ret.dirty := true;
    }
    next := Resume(EvWriteRequestDownUpFinish, 0);
  }

  /** WRITE_REQUEST_DOWNUP_FINISH (nmoesi-protocol.c:3385-3407): a valid line above is made
    * invalid and its entry unlocked; the reply goes after this cache's latency, or at once
    * when a peer already sent the data. */
  method WriteDownUpFinish(st: Stack, cache: Cache, latency: nat) returns (next: Next, woken: Option<Waiter>)
    requires st.ret != null
    requires IsValid(st.state) ==> cache.Valid() && st.si < cache.numSets && 0 <= st.way < cache.assoc
    modifies cache.blocks, cache.locks
    ensures IsValid(st.state) ==>
      cache.blocks[st.si, st.way] == old(cache.blocks[st.si, st.way]).(tag := 0, state := Invalid)
      && (woken, cache.locks[st.si, st.way]) == ReleaseLock(old(cache.locks[st.si, st.way]))
    ensures !IsValid(st.state) ==> unchanged(cache.blocks, cache.locks) && woken.None?
    ensures next == Resume(EvWriteRequestReply, if st.ret.reply == AckDataSentToPeer then 0 else latency)
    ensures IsValid(st.state) ==>
      forall s, w :: 0 <= s < cache.numSets && 0 <= w < cache.assoc && (s != st.si || w != st.way) ==>
        cache.blocks[s, w] == old(cache.blocks[s, w]) && cache.locks[s, w] == old(cache.locks[s, w])
  {
    woken := None;
    if IsValid(st.state) {
      cache.SetBlock(st.si, st.way, 0, Invalid);
      woken := cache.EntryUnlock(st.si, st.way);
    }
    next := Resume(EvWriteRequestReply, if st.ret.reply == AckDataSentToPeer then 0 else latency);
  }

  /** WRITE_REQUEST_REPLY (nmoesi-protocol.c:3409-3469): the reply of `replySize` bytes goes
    * back, arriving at WRITE_REQUEST_FINISH; a refused send retries this step. */
  function WriteRequestReply(replySize: nat): (n: Next)
    ensures n.Send? && n.size == replySize && n.arrive == EvWriteRequestFinish && n.busy == EvWriteRequestReply
  {
    Send(replySize, EvWriteRequestFinish, EvWriteRequestReply)
  }

  /** WRITE_REQUEST_FINISH (nmoesi-protocol.c:3471-3564), at the requester: after an up-down
    * write that did not fail, the requester's line (the parent's set, way and tag) is made
    * invalid until the access that asked fills it; the write is no longer in progress. Then
    * the request leaves its list at the target and returns. */
  method WriteRequestFinish(st: Stack, cache: Cache, downups: RequestList, readWrites: RequestList)
    returns (next: Next)
    requires st.ret != null && st.ret != st
    requires st.requestDir != DownUp && !st.err ==>
      cache.Valid() && st.ret.si < cache.numSets && 0 <= st.ret.way < cache.assoc
    requires downups.Valid() && readWrites.Valid()
    requires downups != readWrites && downups.buckets != readWrites.buckets
    requires st.requestDir == DownUp ==> st.ref in downups.entries
    requires st.requestDir != DownUp ==> st.ref in readWrites.entries
    modifies cache.blocks, st`writeInProgress, st`downupRegistered, st`updownRegistered
    modifies downups, downups.buckets, readWrites, readWrites.buckets
    ensures st.requestDir != DownUp && !st.err ==>
      cache.blocks[st.ret.si, st.ret.way] == old(cache.blocks[st.ret.si, st.ret.way]).(tag := st.ret.tag, state := Invalid)
      && (forall s, w :: 0 <= s < cache.numSets && 0 <= w < cache.assoc && (s != st.ret.si || w != st.ret.way) ==>
            cache.blocks[s, w] == old(cache.blocks[s, w]))
    ensures st.requestDir == DownUp || st.err ==> unchanged(cache.blocks)
    ensures st.writeInProgress == (if st.requestDir != DownUp then false else old(st.writeInProgress))
    ensures downups.Valid() && readWrites.Valid()
    ensures st.requestDir == DownUp ==>
      !st.downupRegistered && downups.entries == Without(old(downups.entries), st.ref)
      && unchanged(readWrites, readWrites.buckets)
    ensures st.requestDir != DownUp ==>
      !st.updownRegistered && readWrites.entries == Without(old(readWrites.entries), st.ref)
      && unchanged(downups, downups.buckets)
    ensures next == Return
  {
    if st.requestDir != DownUp {
      if !st.err {
        cache.SetBlock(st.ret.si, st.ret.way, st.ret.tag, Invalid);
      }
      st.writeInProgress := false;
    }
    LeaveList(st, downups, readWrites);
    next := Return;
  }

  /** A down-up write leaves the cache above without the line, and the level below receives
    * the data exactly when it lacked it: the line was dirty or non-coherent. A dirty line
    * also passes its dirtiness on. */
  lemma DownUpWriteHandsOver(state: BlockState, blockSize: nat)
    requires IsValid(state)
    ensures DownUpWrite(state, blockSize).reply == AckData <==> !(state == Exclusive || state == Shared)
    ensures DownUpWrite(state, blockSize).retDirty <==> state == Modified || state == Owned
  {
  }
}
