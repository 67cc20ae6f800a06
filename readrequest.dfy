/** The read request handler of nmoesi-protocol.c. A read request goes from a module `mod` to
  * a module `target_mod`: up-down, to the module below, which answers with the line and, when
  * it misses, first reads it from its own module below; or down-up, to a cache above, which
  * hands its copy down and keeps it shared. `cache` is the target module's cache throughout,
  * except at READ_REQUEST_FINISH, which runs at the requester. */
module ReadRequest {
  import opened Wrappers
  import opened States
  import opened Addressing
  import opened CacheStore
  import opened AccessIndex
  import opened RequestLists
  import opened ModStack
  import opened Transitions
  import opened FanOut
  import opened RequestGates

  /** READ_REQUEST (nmoesi-protocol.c:1997-2064): clear the parent's error and send the 8-byte
    * request; it is received at READ_REQUEST_RECEIVE, or this step retries. */
  method ReadRequestSend(st: Stack) returns (next: Next)
    requires st.ret != null
    modifies st.ret`err
    ensures !st.ret.err && next == Send(8, EvReadRequestReceive, EvReadRequest)
  {
    st.ret.err := false;
    next := Send(8, EvReadRequestReceive, EvReadRequest);
  }

  /** The find-and-lock child of a read request at the module it reached: blocking exactly for
    * a down-up request, as a read, telling find-and-lock whether it is a down-up read. */
  function ReadLockCall(addr: nat, downUp: bool, downupRead: bool): (c: Child)
    ensures c.FindAndLockChild? && c.addr == addr && c.blocking == downUp && c.read && !c.write
    ensures c.downupRead == downupRead && !c.ncWrite && !c.prefetch && !c.retry && !c.evictTrans && !c.downupWb
  {
    FindAndLockChild(addr, downUp, true, false, false, false, false, false, downupRead, false)
  }

  /** READ_REQUEST_RECEIVE for an up-down request (nmoesi-protocol.c:2208-2291): register on the
    * receiving module's read/write list once, wait for an older read or write of another access
    * to the block queued there, then for an eviction to the block in flight into the module,
    * and then lock the block without blocking. A down-up request takes `DownUpGate` instead. */
  method ReadReceiveUpDown(st: Stack, readWrites: RequestList, evicts: RequestList) returns (next: Next)
    requires readWrites.Valid() && evicts.Valid()
    requires readWrites != evicts && readWrites.buckets != evicts.buckets
    requires st.updownRegistered <==> st.ref in readWrites.entries
    modifies st`updownRegistered, readWrites, readWrites.buckets
    ensures readWrites.Valid() && st.updownRegistered && st.ref in readWrites.entries
    ensures !old(st.updownRegistered) ==>
      readWrites.entries == old(readWrites.entries) + [st.ref]
      && readWrites.meta == old(readWrites.meta)[st.ref := Meta(st.id, NoAccess, st.addr)]
    ensures old(st.updownRegistered) ==> unchanged(readWrites, readWrites.buckets)
    ensures next == WaitFirst(readWrites.ReadWriteConflict(st.addr, st.id), EvReadRequestReceive,
                    WaitFirst(evicts.EvictConflict(st.addr, st.id), EvReadRequestReceive,
                    Spawn(ReadLockCall(st.addr, false, st.downupRead), EvReadRequestAction)))
  {
    RegisterUpDown(st, readWrites);
    var rw := ReadWriteCheck(readWrites, st.addr, st.id);
    if rw.Some? {
      return WaitFor(rw.value, EvReadRequestReceive);
    }
    var e := EvictCheck(evicts, st.addr, st.id);
    if e.Some? {
      return WaitFor(e.value, EvReadRequestReceive);
    }
    next := Spawn(ReadLockCall(st.addr, false, st.downupRead), EvReadRequestAction);
  }

  /** READ_REQUEST_ACTION (nmoesi-protocol.c:2293-2314): a failed lock is reported to the parent
    * as an error with an 8-byte reply; otherwise the request goes on in its direction. */
  method ReadRequestAction(st: Stack) returns (next: Next)
    requires st.ret != null && st.ret != st
    modifies st.ret`err, st.ret`reply, st`replySize
    ensures st.err ==>
      st.ret.err && st.ret.reply == SetReply(old(st.ret.reply), AckError) && st.ret.reply == AckError
      && st.replySize == 8 && next == Resume(EvReadRequestReply, 0)
    ensures !st.err ==>
      st.ret.err == old(st.ret.err) && st.ret.reply == old(st.ret.reply) && st.replySize == old(st.replySize)
      && next == Resume(if st.requestDir == UpDown then EvReadRequestUpDown else EvReadRequestDownUp, 0)
  {
    if st.err {
      st.ret.err := true;
      st.ret.reply := SetReply(st.ret.reply, AckError);
      st.replySize := 8;
      return Resume(EvReadRequestReply, 0);
    }
    next := Resume(if st.requestDir == UpDown then EvReadRequestUpDown else EvReadRequestDownUp, 0);
  }

  /** READ_REQUEST_UPDOWN (nmoesi-protocol.c:2316-2431): the reply is set to the requester's
    * block with data. A valid line is read from every other cache above that may hold a
    * sub-block of it (a down-up read each, counted in `pending`); a missing line is first read
    * from the module below. `blockSize` is the requester's block size, `selfId` the target's
    * module id and `origId` the stack's `orig_mod_id`. */
  method ReadUpDown(st: Stack, blockSize: nat, nodes: seq<Node>, subBlockSize: nat, numSubBlocks: nat,
                    selfId: int, origId: int) returns (next: Next)
    requires NodesOk(nodes)
    modifies st`pending, st`replySize, st`reply
    ensures st.replySize == blockSize + 8 && st.reply == SetReply(old(st.reply), AckData)
    ensures st.state != Invalid ==>
      var probes := Probes(st.tag, subBlockSize, numSubBlocks, nodes, selfId, origId, None);
      st.pending == 1 + |probes| && next == Fork(ProbeChildren(probes, false), EvReadRequestUpDownFinish)
    ensures st.state == Invalid ==>
      st.pending == 1 && next == Spawn(ReadChild(st.tag, Below, false, false), EvReadRequestUpDownMiss)
  {
    st.pending := 1;
    st.replySize := blockSize + 8;
    st.reply := SetReply(st.reply, AckData);
    if st.state != Invalid {
      var probes, pending := FanOutProbes(st.tag, subBlockSize, numSubBlocks, nodes, selfId, origId, None);
      st.pending := pending;
      next := Fork(ProbeChildren(probes, false), EvReadRequestUpDownFinish);
    } else {
      next := Spawn(ReadChild(st.tag, Below, false, false), EvReadRequestUpDownMiss);
    }
  }

  /** READ_REQUEST_UPDOWN_MISS (nmoesi-protocol.c:2433-2466): when the read below failed, the
    * entry is unlocked and the error goes to the parent; otherwise the line is filled in the
    * state `cache_block_next_state` gives for the flags the reply carried. */
  method ReadUpDownMiss(st: Stack, cache: Cache) returns (next: Next, woken: Option<Waiter>)
    requires st.ret != null && st.ret != st
    requires cache.Valid() && st.si < cache.numSets && 0 <= st.way < cache.assoc
    modifies st.ret`err, st.ret`reply, st`replySize, cache.blocks, cache.locks
    ensures st.err ==>
      st.ret.err && st.ret.reply == AckError && st.replySize == 8 && next == Resume(EvReadRequestReply, 0)
      && unchanged(cache.blocks) && (woken, cache.locks[st.si, st.way]) == ReleaseLock(old(cache.locks[st.si, st.way]))
    ensures !st.err ==>
      cache.blocks[st.si, st.way] == old(cache.blocks[st.si, st.way]).(tag := st.tag, state := NextState(st.shared, st.dirty))
      && unchanged(cache.locks) && woken.None? && next == Resume(EvReadRequestUpDownFinish, 0)
      && st.ret.err == old(st.ret.err) && st.ret.reply == old(st.ret.reply)
    ensures forall s, w :: 0 <= s < cache.numSets && 0 <= w < cache.assoc && (s != st.si || w != st.way) ==>
        cache.blocks[s, w] == old(cache.blocks[s, w]) && cache.locks[s, w] == old(cache.locks[s, w])
  {
    if st.err {
      woken := cache.EntryUnlock(st.si, st.way);
      st.ret.err := true;
      st.ret.reply := SetReply(st.ret.reply, AckError);
      st.replySize := 8;
      return Resume(EvReadRequestReply, 0), woken;
    }
    cache.SetBlock(st.si, st.way, st.tag, NextState(st.shared, st.dirty));
    next, woken := Resume(EvReadRequestUpDownFinish, 0), None;
  }

  /** READ_REQUEST_UPDOWN_FINISH (nmoesi-protocol.c:2468-2535): run once per pending reply; the
    * last one answers the requester (fatal for a reply shorter than 8 bytes). */
  method ReadUpDownFinish(st: Stack, cache: Cache, targetBlockSize: nat, blockSize: nat, subBlockSize: nat,
                          numSubBlocks: nat, latency: nat) returns (next: Next, woken: Option<Waiter>)
    requires st.ret != null && st.ret != st && st.pending > 0
    requires cache.Valid() && st.si < cache.numSets && 0 <= st.way < cache.assoc
    modifies st`pending, st.ret`reply, st.ret`replySize, st.ret`shared, cache.blocks, cache.locks
    ensures st.pending == old(st.pending) - 1
    ensures st.pending > 0 || st.replySize < 8 ==>
      unchanged(cache.blocks, cache.locks) && woken.None?
      && st.ret.reply == old(st.ret.reply) && st.ret.replySize == old(st.ret.replySize)
      && st.ret.shared == old(st.ret.shared)
    ensures st.pending > 0 ==> next == Hold
    ensures st.pending == 0 && st.replySize < 8 ==> next.Stop?
    ensures st.pending == 0 && st.replySize >= 8 ==>
      Answered(st, cache, targetBlockSize, blockSize, subBlockSize, numSubBlocks, latency, next, woken,
               old(st.ret.reply), old(cache.blocks[st.si, st.way]), old(cache.locks[st.si, st.way]))
    ensures forall s, w :: 0 <= s < cache.numSets && 0 <= w < cache.assoc && (s != st.si || w != st.way) ==>
        cache.blocks[s, w] == old(cache.blocks[s, w]) && cache.locks[s, w] == old(cache.locks[s, w])
  {
    var proceed := st.Join();
    if !proceed {
      return Hold, None;
    }
    if st.replySize < 8 {
      return Stop("Invalid reply size"), None;
    }
    next, woken := UpDownAnswer(st, cache, targetBlockSize, blockSize, subBlockSize, numSubBlocks, latency);
  }

  /** What answering an up-down read leaves, from the parent's reply `reply` and the line's
    * block `b` and lock `l` before: the parent gets data of the target's block size; it must
    * take the line shared when a sub-block of its block is shared, non-coherently written or
    * held shared, owned or non-coherent here, and then this line is downgraded to Shared or
    * Owned; the entry is unlocked and the reply goes after the module's latency, or at once
    * when a peer already sent the data. */
  ghost predicate Answered(st: Stack, cache: Cache, targetBlockSize: nat, blockSize: nat, subBlockSize: nat,
                           numSubBlocks: nat, latency: nat, next: Next, woken: Option<Waiter>,
                           reply: Reply, b: Block, l: EntryLock)
    reads st, st.ret, cache, cache.blocks, cache.locks
    requires st.ret != null && cache.Valid() && st.si < cache.numSets && 0 <= st.way < cache.assoc
  {
    st.ret.reply == SetReply(reply, AckData) && st.ret.replySize == targetBlockSize + 8
    && st.ret.shared == UpDownShared(AnyInRequest(st.tag, subBlockSize, numSubBlocks, st.addr, blockSize),
                                     st.ncWrite, st.shared, st.state)
    && cache.blocks[st.si, st.way] == (if st.ret.shared then b.(tag := st.tag, state := NextState(true, st.dirty)) else b)
    && (woken, cache.locks[st.si, st.way]) == ReleaseLock(l)
    && next == Resume(EvReadRequestReply, if st.reply == AckDataSentToPeer then 0 else latency)
  }

  method UpDownAnswer(st: Stack, cache: Cache, targetBlockSize: nat, blockSize: nat, subBlockSize: nat,
                      numSubBlocks: nat, latency: nat) returns (next: Next, woken: Option<Waiter>)
    requires st.ret != null && st.ret != st
    requires cache.Valid() && st.si < cache.numSets && 0 <= st.way < cache.assoc
    modifies st.ret`reply, st.ret`replySize, st.ret`shared, cache.blocks, cache.locks
    ensures Answered(st, cache, targetBlockSize, blockSize, subBlockSize, numSubBlocks, latency, next, woken,
                     old(st.ret.reply), old(cache.blocks[st.si, st.way]), old(cache.locks[st.si, st.way]))
    ensures forall s, w :: 0 <= s < cache.numSets && 0 <= w < cache.assoc && (s != st.si || w != st.way) ==>
        cache.blocks[s, w] == old(cache.blocks[s, w]) && cache.locks[s, w] == old(cache.locks[s, w])
  {
    st.ret.reply := SetReply(st.ret.reply, AckData);
    st.ret.replySize := targetBlockSize + 8;
    var shared := RequesterShared(st.tag, subBlockSize, numSubBlocks, st.addr, blockSize, st.ncWrite, st.shared, st.state);
    st.ret.shared := shared;
    if shared {
      cache.SetBlock(st.si, st.way, st.tag, NextState(shared, st.dirty));
    }
    woken := cache.EntryUnlock(st.si, st.way);
    next := Resume(EvReadRequestReply, if st.reply == AckDataSentToPeer then 0 else latency);
  }

  /** READ_REQUEST_DOWNUP (nmoesi-protocol.c:2537-2606): the cache above passes the read on to
    * every other cache above the target that may hold a sub-block, counting each in `pending`,
    * and waits for them at READ_REQUEST_DOWNUP_WAIT_FOR_REQS. */
  method ReadDownUp(st: Stack, nodes: seq<Node>, subBlockSize: nat, numSubBlocks: nat, selfId: int, origId: int)
    returns (next: Next)
    requires NodesOk(nodes)
    modifies st`pending
    ensures var probes := Probes(st.tag, subBlockSize, numSubBlocks, nodes, selfId, origId, None);
      st.pending == 1 + |probes| && next == Fork(ProbeChildren(probes, false), EvReadRequestDownUpWaitForReqs)
  {
    var probes, pending := FanOutProbes(st.tag, subBlockSize, numSubBlocks, nodes, selfId, origId, None);
    st.pending := pending;
    next := Fork(ProbeChildren(probes, false), EvReadRequestDownUpWaitForReqs);
  }

  /** READ_REQUEST_DOWNUP_WAIT_FOR_REQS (nmoesi-protocol.c:2608-2640): run once per pending
    * reply; the last one looks the block up again, since the caches above may have changed it. */
  method ReadDownUpWaitForReqs(st: Stack, cache: Cache, r: Range, blockSize: nat) returns (next: Next)
    requires st.pending > 0 && cache.Valid() && RangeOk(r)
    modifies st`pending, st`hit, st`si, st`way, st`tag, st`state, st`reply, st`replySize
    ensures st.pending == old(st.pending) - 1
    ensures st.pending > 0 ==>
      next == Hold && st.hit == old(st.hit) && st.si == old(st.si) && st.way == old(st.way)
      && st.tag == old(st.tag) && st.state == old(st.state) && st.reply == old(st.reply)
      && st.replySize == old(st.replySize)
    ensures st.pending == 0 ==> Refound(st, cache, r, blockSize, next, old(st.way), old(st.state), old(st.reply))
  {
    var proceed := st.Join();
    if !proceed {
      return Hold;
    }
    next := DownUpRefind(st, cache, r, blockSize);
  }

  /** What the second lookup of a down-up read leaves, from the stack's way, state and reply
    * before: without a range the simulator stops; on a hit the stack holds the line and an
    * answer with data of the requester's block size; on a miss none of the set's ways holds
    * the block, way and state are kept, and the answer is an 8-byte ack. */
  ghost predicate Refound(st: Stack, cache: Cache, r: Range, blockSize: nat, next: Next,
                          way: int, state: BlockState, reply: Reply)
    reads st, cache, cache.blocks
    requires cache.Valid()
  {
    (next.Stop? <==> r.NoRange?)
    && (!r.NoRange? ==>
          next == Resume(EvReadRequestDownUpFinish, 0)
          && st.si < cache.numSets && st.tag == BlockTag(cache.Shape(), st.addr)
          && (st.hit ==>
                0 <= st.way < cache.assoc && TagHit(cache.blocks[st.si, st.way], st.tag)
                && st.state == cache.blocks[st.si, st.way].state
                && st.reply == SetReply(reply, AckData) && st.replySize == blockSize + 8)
          && (!st.hit ==>
                (forall w :: 0 <= w < cache.assoc ==> !TagHit(cache.blocks[st.si, w], st.tag))
                && st.way == way && st.state == state
                && st.reply == SetReply(reply, Ack) && st.replySize == 8))
  }

  method DownUpRefind(st: Stack, cache: Cache, r: Range, blockSize: nat) returns (next: Next)
    requires cache.Valid() && RangeOk(r)
    modifies st`hit, st`si, st`way, st`tag, st`state, st`reply, st`replySize
    ensures Refound(st, cache, r, blockSize, next, old(st.way), old(st.state), old(st.reply))
  {
    var res := cache.FindBlock(r, st.addr);
    if res.Fatal? {
      return Stop(res.reason);
    }
    var look := res.value;
    st.hit := look.Hit?;
    st.si := look.si;
    st.tag := look.tag;
    if look.Hit? {
      st.way := look.way;
      st.state := look.state;
      st.reply := SetReply(st.reply, AckData);
      st.replySize := blockSize + 8;
    } else {
      st.reply := SetReply(st.reply, Ack);
      st.replySize := 8;
    }
    next := Resume(EvReadRequestDownUpFinish, 0);
  }

  /** READ_REQUEST_DOWNUP_FINISH (nmoesi-protocol.c:2642-2693): the cache above answers as
    * `DownUpRead` says: a valid line is sent with data and downgraded (E to S, M to O), its
    * entry is unlocked, and the requester learns that the line is shared, and dirty when it
    * was. `targetBlockSize` is this cache's block size. */
  method ReadDownUpFinish(st: Stack, cache: Cache, targetBlockSize: nat, latency: nat)
    returns (next: Next, woken: Option<Waiter>)
    requires st.ret != null && st.ret != st
    requires IsValid(st.state) ==> cache.Valid() && st.si < cache.numSets && 0 <= st.way < cache.assoc
    modifies st`reply, st`replySize, st.ret`shared, st.ret`dirty, cache.blocks, cache.locks
    ensures var a := DownUpRead(st.state, targetBlockSize);
      st.reply == SetReply(old(st.reply), a.reply) && st.replySize == a.size
      && (IsValid(st.state) ==>
            cache.blocks[st.si, st.way] == old(cache.blocks[st.si, st.way]).(tag := st.tag, state := a.next)
            && (woken, cache.locks[st.si, st.way]) == ReleaseLock(old(cache.locks[st.si, st.way])))
      && st.ret.shared == (a.retShared || old(st.ret.shared))
      && st.ret.dirty == (a.retDirty || old(st.ret.dirty))
    ensures !IsValid(st.state) ==> unchanged(cache.blocks, cache.locks) && woken.None?
    ensures next == Resume(EvReadRequestReply, if st.reply == AckDataSentToPeer then 0 else latency)
    ensures IsValid(st.state) ==>
      forall s, w :: 0 <= s < cache.numSets && 0 <= w < cache.assoc && (s != st.si || w != st.way) ==>
        cache.blocks[s, w] == old(cache.blocks[s, w]) && cache.locks[s, w] == old(cache.locks[s, w])
  {
    var a := DownUpRead(st.state, targetBlockSize);
    st.reply := SetReply(st.reply, a.reply);
    st.replySize := a.size;
    woken := None;
    if IsValid(st.state) {
      cache.SetBlock(st.si, st.way, st.tag, a.next);
      woken := cache.EntryUnlock(st.si, st.way);
      st.ret.shared := true;
      if st.state == Modified || st.state == Owned {
        st.ret.dirty := true;
      }
    }
    next := Resume(EvReadRequestReply, if st.reply == AckDataSentToPeer then 0 else latency);
  }

  /** READ_REQUEST_REPLY (nmoesi-protocol.c:2695-2751): the reply of `replySize` bytes goes back
    * to the requester, arriving at READ_REQUEST_FINISH; a refused send retries this step. */
  function ReadRequestReply(replySize: nat): (n: Next)
    ensures n.Send? && n.size == replySize && n.arrive == EvReadRequestFinish && n.busy == EvReadRequestReply
  {
    Send(replySize, EvReadRequestFinish, EvReadRequestReply)
  }

  /** READ_REQUEST_FINISH (nmoesi-protocol.c:2753-2827), at the requester: after an up-down
    * read that did not fail, the requester's line (the parent's set, way and tag) is made
    * invalid until the access that asked fills it; the read is no longer in progress. Then the
    * request leaves its list at the target and returns. */
  method ReadRequestFinish(st: Stack, cache: Cache, downups: RequestList, readWrites: RequestList)
    returns (next: Next)
    requires st.ret != null && st.ret != st
    requires st.requestDir != DownUp && !st.err ==>
      cache.Valid() && st.ret.si < cache.numSets && 0 <= st.ret.way < cache.assoc
    requires downups.Valid() && readWrites.Valid()
    requires downups != readWrites && downups.buckets != readWrites.buckets
    requires st.requestDir == DownUp ==> st.ref in downups.entries
    requires st.requestDir != DownUp ==> st.ref in readWrites.entries
    modifies cache.blocks, st`readInProgress, st`downupRegistered, st`updownRegistered
    modifies downups, downups.buckets, readWrites, readWrites.buckets
    ensures st.requestDir != DownUp && !st.err ==>
      cache.blocks[st.ret.si, st.ret.way] == old(cache.blocks[st.ret.si, st.ret.way]).(tag := st.ret.tag, state := Invalid)
      && (forall s, w :: 0 <= s < cache.numSets && 0 <= w < cache.assoc && (s != st.ret.si || w != st.ret.way) ==>
            cache.blocks[s, w] == old(cache.blocks[s, w]))
    ensures st.requestDir == DownUp || st.err ==> unchanged(cache.blocks)
    ensures st.readInProgress == (if st.requestDir != DownUp then false else old(st.readInProgress))
    ensures downups.Valid() && readWrites.Valid()
    ensures st.requestDir == DownUp ==>
      !st.downupRegistered && downups.entries == Without(old(downups.entries), st.ref)
      && unchanged(readWrites, readWrites.buckets)
    ensures st.requestDir != DownUp ==>
      !st.updownRegistered && readWrites.entries == Without(old(readWrites.entries), st.ref)
      && unchanged(downups, downups.buckets)
    ensures next == Return
  {
    if st.requestDir != DownUp {
      if !st.err {
        cache.SetBlock(st.ret.si, st.ret.way, st.ret.tag, Invalid);
      }
      st.readInProgress := false;
    }
    LeaveList(st, downups, readWrites);
    next := Return;
  }
}
