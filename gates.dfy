/** The request-queue bookkeeping the read and write request handlers share
  * (nmoesi-protocol.c, READ_REQUEST_RECEIVE, WRITE_REQUEST_RECEIVE and the two FINISH steps): a
  * request that reaches a module is registered once on that module's down-up list or
  * read/write list, waits for the requests it depends on, and leaves the list when it ends. */
module RequestGates {
  import opened Wrappers
  import opened States
  import opened Addressing
  import opened AccessIndex
  import opened RequestLists
  import opened ModStack

  /** No eviction with another id into the block of `addr` is queued. */
  ghost predicate NoEvictConflict(evicts: RequestList, addr: nat, id: int)
    reads evicts
  {
    forall x :: x in evicts.entries && x in evicts.meta ==>
      !(evicts.meta[x].id != id && SameBlock(evicts.logBlockSize, evicts.meta[x].addr, addr))
  }

  /** No read/write request with another id to the block of `addr` that a down-up request
    * must wait for is queued. */
  ghost predicate NoDependency(readWrites: RequestList, addr: nat, id: int, status: map<StackRef, ReqStatus>)
    reads readWrites
  {
    forall x :: x in readWrites.entries && x in readWrites.meta && x in status ==>
      !(readWrites.meta[x].id != id && SameBlock(readWrites.logBlockSize, readWrites.meta[x].addr, addr)
        && Blocks(status[x]))
  }

  /** The down-up checks of the RECEIVE steps (nmoesi-protocol.c:2121-2207, 3005-3089). The
    * request registers once on the upper module's down-up list `downups`; it then waits, to
    * retry at `retry`, for an eviction in flight into the lower module (`lowEvicts`) to the
    * same block, then for a read/write request of the lower module (`lowReadWrites`) it
    * depends on, then for the down-up request queued just before it. Only when there is none
    * does it go on to lock the block with `lock`, returning to `action`. */
  method DownUpGate(st: Stack, downups: RequestList, lowEvicts: RequestList, lowReadWrites: RequestList,
                    status: map<StackRef, ReqStatus>, retry: Event, lock: Child, action: Event) returns (next: Next)
    requires downups.Valid() && lowEvicts.Valid() && lowReadWrites.Valid() && Known(lowReadWrites.entries, status)
    requires downups != lowEvicts && downups != lowReadWrites
    requires downups.buckets != lowEvicts.buckets && downups.buckets != lowReadWrites.buckets
    requires st.downupRegistered <==> st.ref in downups.entries
    modifies st`downupRegistered, downups, downups.buckets
    ensures downups.Valid() && st.downupRegistered && st.ref in downups.entries
    ensures !old(st.downupRegistered) ==>
      downups.entries == old(downups.entries) + [st.ref]
      && downups.meta == old(downups.meta)[st.ref := Meta(st.id, NoAccess, st.addr)]
    ensures old(st.downupRegistered) ==> unchanged(downups, downups.buckets)
    ensures next == WaitFirst(lowEvicts.EvictConflict(st.addr, st.id), retry,
                    WaitFirst(lowReadWrites.DependencyConflict(st.addr, st.id, status), retry,
                    WaitFirst(PrevOf(downups.entries, st.ref), retry, Spawn(lock, action))))
    ensures next == Spawn(lock, action) <==>
      NoEvictConflict(lowEvicts, st.addr, st.id) && NoDependency(lowReadWrites, st.addr, st.id, status)
      && downups.entries[0] == st.ref
  {
    RegisterDownUp(st, downups);
    next := DownUpChecks(st, downups, lowEvicts, lowReadWrites, status, retry, lock, action);
    DownUpProceeds(st.ref, st.addr, st.id, downups, lowEvicts, lowReadWrites, status, retry, Spawn(lock, action));
  }

  /** The down-up request goes on exactly when no eviction and no read/write request of the
    * lower module holds it up and it is the oldest down-up request of the upper module. */
  lemma DownUpProceeds(s: StackRef, addr: nat, id: int, downups: RequestList, lowEvicts: RequestList,
                       lowReadWrites: RequestList, status: map<StackRef, ReqStatus>, retry: Event, proceed: Next)
    requires downups.Valid() && lowEvicts.Valid() && lowReadWrites.Valid() && Known(lowReadWrites.entries, status)
    requires s in downups.entries && !proceed.WaitFor?
    ensures WaitFirst(lowEvicts.EvictConflict(addr, id), retry,
              WaitFirst(lowReadWrites.DependencyConflict(addr, id, status), retry,
              WaitFirst(PrevOf(downups.entries, s), retry, proceed))) == proceed
      <==> NoEvictConflict(lowEvicts, addr, id) && NoDependency(lowReadWrites, addr, id, status)
           && downups.entries[0] == s
  {
    lowEvicts.ConflictMeaning(addr, id, status);
    lowReadWrites.ConflictMeaning(addr, id, status);
  }

  /** The down-up registration (nmoesi-protocol.c:2125-2128, 3009-3012): once, on the upper
    * module's down-up list. */
  method RegisterDownUp(st: Stack, downups: RequestList)
    requires downups.Valid()
    requires st.downupRegistered <==> st.ref in downups.entries
    modifies st`downupRegistered, downups, downups.buckets
    ensures downups.Valid() && st.downupRegistered && st.ref in downups.entries
    ensures !old(st.downupRegistered) ==>
      downups.entries == old(downups.entries) + [st.ref]
      && downups.meta == old(downups.meta)[st.ref := Meta(st.id, NoAccess, st.addr)]
    ensures old(st.downupRegistered) ==> unchanged(downups, downups.buckets)
  {
    if !st.downupRegistered {
      downups.Start(st.ref, st.id, NoAccess, st.addr);
      st.downupRegistered := true;
    }
  }

  /** The three down-up dependency checks, once the request is registered. */
  method DownUpChecks(st: Stack, downups: RequestList, lowEvicts: RequestList, lowReadWrites: RequestList,
                      status: map<StackRef, ReqStatus>, retry: Event, lock: Child, action: Event) returns (next: Next)
    requires downups.Valid() && lowEvicts.Valid() && lowReadWrites.Valid() && Known(lowReadWrites.entries, status)
    requires st.ref in downups.entries
    ensures next == WaitFirst(lowEvicts.EvictConflict(st.addr, st.id), retry,
                    WaitFirst(lowReadWrites.DependencyConflict(st.addr, st.id, status), retry,
                    WaitFirst(PrevOf(downups.entries, st.ref), retry, Spawn(lock, action))))
  {
    var e := EvictCheck(lowEvicts, st.addr, st.id);
    if e.Some? {
      next := WaitFor(e.value, retry);
    } else {
      var d := DependencyCheck(lowReadWrites, st.addr, st.id, status);
      if d.Some? {
        next := WaitFor(d.value, retry);
      } else {
        var p := PreviousCheck(downups, st.ref);
        next := if p.Some? then WaitFor(p.value, retry) else Spawn(lock, action);
      }
    }
  }

  /** `mod_in_flight_evict_address` as a check: the eviction it finds. */
  method EvictCheck(evicts: RequestList, addr: nat, id: int) returns (r: Option<StackRef>)
    requires evicts.Valid()
    ensures r == evicts.EvictConflict(addr, id)
  {
    r := evicts.EvictInFlightAddress(addr, id);
  }

  /** `mod_in_flight_read_write_req_address` as a check. */
  method ReadWriteCheck(readWrites: RequestList, addr: nat, id: int) returns (r: Option<StackRef>)
    requires readWrites.Valid()
    ensures r == readWrites.ReadWriteConflict(addr, id)
  {
    r := readWrites.ReadWriteInFlightAddress(addr, id);
  }

  /** `mod_check_in_flight_address_dependency_for_downup_request` as a check. */
  method DependencyCheck(readWrites: RequestList, addr: nat, id: int, status: map<StackRef, ReqStatus>)
    returns (r: Option<StackRef>)
    requires readWrites.Valid() && Known(readWrites.entries, status)
    ensures r == readWrites.DependencyConflict(addr, id, status)
  {
    r := readWrites.DependencyForDownUp(addr, id, status);
  }

  /** `downup_access_list_prev`: the down-up request queued just before `s`. */
  method PreviousCheck(downups: RequestList, s: StackRef) returns (r: Option<StackRef>)
    requires downups.Valid() && s in downups.entries
    ensures r == PrevOf(downups.entries, s)
  {
    r := downups.InFlightPrevious(Some(s));
  }

  /** The up-down registration of the RECEIVE steps (nmoesi-protocol.c:2212-2215, 3094-3097):
    * once, on the receiving module's read/write list. */
  method RegisterUpDown(st: Stack, readWrites: RequestList)
    requires readWrites.Valid()
    requires st.updownRegistered <==> st.ref in readWrites.entries
    modifies st`updownRegistered, readWrites, readWrites.buckets
    ensures readWrites.Valid() && st.updownRegistered && st.ref in readWrites.entries
    ensures !old(st.updownRegistered) ==>
      readWrites.entries == old(readWrites.entries) + [st.ref]
      && readWrites.meta == old(readWrites.meta)[st.ref := Meta(st.id, NoAccess, st.addr)]
    ensures old(st.updownRegistered) ==> unchanged(readWrites, readWrites.buckets)
  {
    if !st.updownRegistered {
      readWrites.Start(st.ref, st.id, NoAccess, st.addr);
      st.updownRegistered := true;
    }
  }

  /** The list bookkeeping of the FINISH steps (nmoesi-protocol.c:2812-2823, 3549-3560): a
    * down-up request leaves the down-up list, any other the read/write list. */
  method LeaveList(st: Stack, downups: RequestList, readWrites: RequestList)
    requires downups.Valid() && readWrites.Valid()
    requires downups != readWrites && downups.buckets != readWrites.buckets
    requires st.requestDir == DownUp ==> st.ref in downups.entries
    requires st.requestDir != DownUp ==> st.ref in readWrites.entries
    modifies st`downupRegistered, st`updownRegistered, downups, downups.buckets, readWrites, readWrites.buckets
    ensures downups.Valid() && readWrites.Valid()
    ensures st.requestDir == DownUp ==>
      !st.downupRegistered && downups.entries == Without(old(downups.entries), st.ref)
      && st.ref !in downups.entries && unchanged(readWrites, readWrites.buckets)
      && st.updownRegistered == old(st.updownRegistered)
    ensures st.requestDir != DownUp ==>
      !st.updownRegistered && readWrites.entries == Without(old(readWrites.entries), st.ref)
      && st.ref !in readWrites.entries && unchanged(downups, downups.buckets)
      && st.downupRegistered == old(st.downupRegistered)
  {
    if st.requestDir == DownUp {
      downups.Finish(st.ref);
      st.downupRegistered := false;
    } else {
      readWrites.Finish(st.ref);
      st.updownRegistered := false;
    }
  }
}
