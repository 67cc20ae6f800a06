# NMOESI memory-hierarchy core, modelled in Dafny

This project models the core of a cycle-level memory-hierarchy simulator. The simulator
implements the NMOESI cache-coherence protocol, which extends MOESI with a non-coherent state
N. It comes in two variants, one over a snooping bus and one with a directory, and both share
the same module layer. The model covers these parts of the core:

- the cache of a memory module: blocks, entry locks and the lookup `mod_find_block`;
- the module itself:
  - its ports and their waiting list;
  - the in-flight access index (access list, write list, 17-bucket hash table, coalesced
    count) and request coalescing;
  - the request lists that serialise down-up, read/write and eviction requests on one block;
  - address routing to the lower module;
  - the coherency check `mod_check_coherency_status`;
- the NMOESI state machines, step by step:
  - `load`, `store`, `nc_store` and `prefetch`;
  - `find_and_lock` and `evict`;
  - `read_request` and `write_request`;
  - `invalidate`;
- the pending-reply join of an access record (`mod_stack_t`) and the fan-out of snoops to the
  peer caches above a module;
- the pure coherence rules: the next state after a fill, the data and reply a cache returns
  to a read or write from below, and what an eviction writes into the lower cache;
- the test-command interpreter of `command.c`: `SetBlock`, `SetSharers`, `Access`,
  `CheckBlock` and `CheckLink`.

Each module of the model follows one part of the source:

| Dafny module | source | form |
|---|---|---|
| `Wrappers` | (none) | `Option` and `Result` |
| `States` | block states, access kinds, replies | enumerations |
| `Addressing` | addresses and routing | functions with proofs |
| `CacheStore` | the cache | class over 2-D arrays |
| `Ports` | the ports | class with a `seq` waiting list |
| `AccessIndex` | the in-flight access index | class whose lists are sequences |
| `RequestLists` | the request lists | class whose lists are sequences |
| `Transitions` | the pure state rules | functions |
| `ModStack` | the access record and its pending counter | class |
| `FanOut` | the snoop fan-out loops | methods |
| `AccessHandlers` | the processor-side handlers (`load`, `store`, `nc_store`, `prefetch`) | one method per step |
| `FindAndLock`, `Evict`, `ReadRequest`, `WriteRequest`, `Invalidate` | the other handlers | one method per step |
| `RequestGates` | the checks at the receive steps of `read_request` and `write_request` | methods over the request lists |
| `Coherence` | the coherency check over a snapshot of the caches | functions with proofs |
| `Command` | the command interpreter | functions, methods and a token-list class |

The state machines are modelled step by step. Each step is a method over three things:
- the access record (`ModStack.Stack`);
- the module's cache, ports and lists;
- the snapshot of state it reads.

A step updates that state in place and returns a `Next`, which names what it leaves
scheduled:
- resume at a later step, after a delay;
- wait for an older access;
- start one or several child requests;
- send a message;
- return to the parent.

The event queue, the network and the statistics stay outside the model.

All line references below are to the files as they appear in the repository:
- `Snoop_Based_Coherence/src/mem-system/…` is the snooping variant;
- `Directory_Based_Coherence/src/mem-system/…` is the directory variant.

The snooping variant's `module.c` and `nmoesi-protocol.c` are the main reference. Where the
directory variant differs (its `mod_find_block` and its `module.h`, which also holds the
declarations the snooping files use), its lines are cited.

## Model

| member | source | states |
|---|---|---|
| States.StateCode | Snoop_Based_Coherence/src/mem-system/cache.h:44-52 | The six block states have distinct codes below 6, and code 0 is exactly the invalid state, so a nonzero state means a valid line. |
| States.StateOfCode | Snoop_Based_Coherence/src/mem-system/cache.h:44-52 | A code names a state exactly when it is below 6, and the state it names encodes back to that code. |
| States.AccessKindCode | Directory_Based_Coherence/src/mem-system/module.h:59-66 | Access-kind codes are below 5, and code 0 (`mod_access_invalid`) is exactly "no access recorded". |
| States.ReplyCode | Snoop_Based_Coherence/src/mem-system/mod-stack.h:38-45 | Reply codes are below 5, and code 0 is exactly `reply_none`. |
| States.SetReply | Snoop_Based_Coherence/src/mem-system/mod-stack.h:37-44 | Setting a stack's reply keeps either the current reply or the new one, and the result outranks both, so an error reply once set stays. |
| States.SetReplyOrderFree | Snoop_Based_Coherence/src/mem-system/mod-stack.h:37-44 | The reply a stack ends with does not depend on the order in which two children answer. |
| Addressing.Pow2 | Snoop_Based_Coherence/src/mem-system/module.c:788-793 | A negative exponent gives 0; otherwise the result is 2^i, which stays below 2^31 and so fits the C `int`. |
| Addressing.InRange | Snoop_Based_Coherence/src/mem-system/module.c:778-786 | Both bounds are inclusive: true exactly when `lb <= v <= ub`. |
| Addressing.RetryLatency | Snoop_Based_Coherence/src/mem-system/module.c:620-623 | The retry delay lies between the latency and twice the latency, whatever the random draw. |
| Addressing.BlockTag | Snoop_Based_Coherence/src/mem-system/module.c:257 | The tag is the block-aligned address at or below `addr`, within one block of it, in the same block. |
| Addressing.BucketIndex | Snoop_Based_Coherence/src/mem-system/module.c:457 | The hash bucket of an address is one of the 17 buckets of the access table. |
| Addressing.SameBlockSameBucket | Snoop_Based_Coherence/src/mem-system/module.c:511-533 | Two addresses of the same block hash to the same bucket, so a search of one bucket sees every access to the block. |
| Addressing.Serves | Snoop_Based_Coherence/src/mem-system/module.c:559-575 | `mod_serves_address` fails exactly for the invalid range kind. |
| Addressing.SetIndex | Snoop_Based_Coherence/src/mem-system/module.c:257-266 | The set of an address is fatal exactly for an invalid range kind and otherwise lies below the number of sets. |
| Addressing.SetIndexOfTag | Snoop_Based_Coherence/src/mem-system/module.c:257-266 | The set depends only on the block: the set of an address equals the set of its tag. |
| Addressing.GetLowMod | Snoop_Based_Coherence/src/mem-system/module.c:579-617 | The loop over the low modules computes the routing rule: the module must serve the address, main memory has no low module, and exactly one low module may serve it. |
| Addressing.ScanLowsUnique | Snoop_Based_Coherence/src/mem-system/module.c:595-612 | From any point of the scan, the scan returns module `k` exactly when `k` is the only low module serving the address. |
| Addressing.LowModIsUniqueServer | Snoop_Based_Coherence/src/mem-system/module.c:579-617 | For a cache that serves the address, routing returns module `k` exactly when `k` is the one low module serving it. |
| Addressing.ScanLowsNeverNone | Snoop_Based_Coherence/src/mem-system/module.c:579-617 | A cache never gets "no low module" back: routing finds a module or stops with a fatal error. |
| Addressing.InterleavedLowMod | Snoop_Based_Coherence/src/mem-system/module.c:559-575 | In the usual m-way interleaved configuration, routing always succeeds and picks the module whose remainder is `(addr / div) % m`. |
| Addressing.SubBlockSize | Directory_Based_Coherence/src/mem-system/module.h:162-165 | The sub-block size is the smallest block size among the high modules, or the module's own block size when it has none. |
| CacheStore.TryLock | Snoop_Based_Coherence/src/mem-system/cache.h:117-118 | A free entry is taken by the holder; a held one keeps its holder and queues the waiter at the tail; the entry is locked afterwards either way. |
| CacheStore.ReleaseLock | Snoop_Based_Coherence/src/mem-system/cache.h:119-120 | Unlocking frees the entry and hands back the head of its queue, which leaves the queue, or nothing when the queue is empty. |
| CacheStore.QueuedWaiterWokenInTurn | Snoop_Based_Coherence/src/mem-system/cache.h:115-120 | First come, first served: a waiter that queues behind `k` others is the one handed back by the `k + 1`-th release. |
| CacheStore.FirstHit | Directory_Based_Coherence/src/mem-system/module.c:216-243 | The lookup stops at the first way that hits, and finds nothing exactly when no way of the set hits. |
| CacheStore.NoLocksIsTagHit | Directory_Based_Coherence/src/mem-system/module.c:216-243 | With no directory entry locked, the directory hit rule is the snooping rule: a valid way holding the tag. |
| CacheStore.DirectoryHitsNoLater | Directory_Based_Coherence/src/mem-system/module.c:203-261 | The directory lookup stops no later than the snooping lookup, and the two agree when no locked entry holds the tag as its transient tag. |
| CacheStore.Cache.FindBlock | Snoop_Based_Coherence/src/mem-system/module.c:245-302 | The snooping lookup computes the tag and set. On a hit it returns the first way holding the tag in a valid state, with that state. On a miss no way holds the tag. An invalid range kind is fatal. |
| CacheStore.Cache.FindBlockDirectory | Directory_Based_Coherence/src/mem-system/module.c:203-261 | The directory lookup also hits a way whose transient tag is the tag while its entry is locked. It returns the first such way and its state, or a miss when no way of the set hits. |
| CacheStore.Cache.SetBlock | Snoop_Based_Coherence/src/mem-system/cache.h:108 | Stores tag and state in one entry; every other entry and field is unchanged. |
| CacheStore.Cache.SetTransientTag | Snoop_Based_Coherence/src/mem-system/cache.h:113 | Sets the transient tag of one entry; nothing else changes. |
| CacheStore.Cache.SetPrefetched | Snoop_Based_Coherence/src/mem-system/module.c:304-313 | Sets the prefetched flag of one entry; nothing else changes. |
| CacheStore.Cache.EntryLockTry | Snoop_Based_Coherence/src/mem-system/cache.h:117-118 | The entry is taken exactly when it was free. When it is taken, the holder is recorded. When it was held, the access queues last. No other lock changes. |
| CacheStore.Cache.EntryUnlock | Snoop_Based_Coherence/src/mem-system/cache.h:119-120 | The entry becomes free and the first waiter, if any, is handed back and leaves the queue; no other lock changes. |
| Ports.CountHeld | Directory_Based_Coherence/src/mem-system/module.h:133-136 | The number of bound ports is at most the number of ports; it equals it exactly when all are bound and is 0 exactly when none is. |
| Ports.CountHeldUpdate | Snoop_Based_Coherence/src/mem-system/module.c:389-391 | Rebinding one port changes the count of bound ports by exactly the difference at that port. |
| Ports.FirstFree | Snoop_Based_Coherence/src/mem-system/module.c:381-387 | The port search stops at the first free port, and finds none exactly when every port is bound. |
| Ports.FreePortExists | Snoop_Based_Coherence/src/mem-system/module.c:381-389 | While fewer ports are locked than there are ports, the search finds a free port (the assertion after the loop holds). |
| Ports.BindKeepsBound | Snoop_Based_Coherence/src/mem-system/module.c:389-391 | Binding a free port to an access that holds none and does not wait keeps ports, owners, count and waiting list consistent. |
| Ports.UnbindKeepsBound | Snoop_Based_Coherence/src/mem-system/module.c:418-421 | Releasing a bound port keeps the bindings consistent and the count positive beforehand. |
| Ports.DequeueKeepsBound | Snoop_Based_Coherence/src/mem-system/module.c:431-436 | Taking the head off the waiting list keeps the bindings, and the head is not queued again behind itself. |
| Ports.EnqueueKeepsBound | Snoop_Based_Coherence/src/mem-system/module.c:338-352 | Queueing an access that holds no port and is not queued, at the head or the tail, keeps the bindings. |
| Ports.FreedPortIsFirstFree | Snoop_Based_Coherence/src/mem-system/module.c:408-437 | Freeing one port of a full module leaves exactly that port for the woken access. |
| Ports.PortArbiter.Lock | Snoop_Based_Coherence/src/mem-system/module.c:332-405 | With every port locked, the access queues: a down-up request at the head, any other at the tail. Otherwise the first free port is bound to it and its event is scheduled. The arbiter stays consistent. |
| Ports.PortArbiter.Bind | Snoop_Based_Coherence/src/mem-system/module.c:381-404 | The first free port goes to the access; the owner map and the count follow. |
| Ports.PortArbiter.Enqueue | Snoop_Based_Coherence/src/mem-system/module.c:338-352 | A down-up request becomes the head of the waiting list, any other the tail. |
| Ports.PortArbiter.Release | Snoop_Based_Coherence/src/mem-system/module.c:408-421 | Both bindings are cleared and the count drops by one. When anyone waits, the freed port is the first free one. |
| Ports.PortArbiter.Unlock | Snoop_Based_Coherence/src/mem-system/module.c:408-438 | The port is released. If an access waits, the head of the waiting list leaves it and gets the port just freed, at the event it was waiting for. |
| AccessIndex.Filter | Directory_Based_Coherence/src/mem-system/module.h:196-202 | A selection from a list keeps list order and is never longer than the list. |
| AccessIndex.Without | Snoop_Based_Coherence/src/mem-system/module.c:462-484 | Removing an access never lengthens a list. |
| AccessIndex.FilterMember | Directory_Based_Coherence/src/mem-system/module.h:196-202 | An access is selected exactly when it is in the list and meets the criterion (a store, a bucket, a block). |
| AccessIndex.WithoutMember | Snoop_Based_Coherence/src/mem-system/module.c:462-484 | After removal, exactly the other members of the list remain. |
| AccessIndex.FilterWithout | Snoop_Based_Coherence/src/mem-system/module.c:462-484 | Removing an access and then selecting gives the same list as selecting and then removing it. |
| AccessIndex.CountCoalesced | Directory_Based_Coherence/src/mem-system/module.h:186-188 | The number of coalesced accesses of a list is at most its length. |
| AccessIndex.CountCoalescedWithout | Snoop_Based_Coherence/src/mem-system/module.c:478-481 | Removing an access from a list without repeats removes exactly its contribution to the coalesced count. |
| AccessIndex.CountCoalescedUpdate | Snoop_Based_Coherence/src/mem-system/module.c:738-760 | Changing the flags of one access changes the coalesced count by exactly the difference at that access. |
| AccessIndex.StartKeeps | Snoop_Based_Coherence/src/mem-system/module.c:441-459 | Recording a fresh access at the tail of the access list, of the write list when it is a store, and of its bucket keeps the index invariant. The invariant says: no repeats; the write list and each bucket hold exactly the stores and the accesses hashing there, in access-list order; and the coalesced count is right. |
| AccessIndex.FinishKeeps | Snoop_Based_Coherence/src/mem-system/module.c:462-484 | Removing a finished access from the lists it is in, and counting one coalesced access less when it was coalesced, keeps the invariant; the count was positive in that case. |
| AccessIndex.CoalesceKeeps | Snoop_Based_Coherence/src/mem-system/module.c:738-760 | Making a fresh access the slave of a master that has no master keeps the invariant, with the coalesced count one higher. |
| AccessIndex.CoalescedCountBounded | Snoop_Based_Coherence/src/mem-system/module.c:756 | The coalesced count lies between 0 and the number of in-flight accesses (the assertion in `mod_coalesce`). |
| AccessIndex.FirstOlderSameBlock | Snoop_Based_Coherence/src/mem-system/module.c:511-533 | Gives the first access of the bucket that is older than the reference and to the block, with nothing before it qualifying, or nothing exactly when no access of the bucket qualifies. |
| AccessIndex.LastWhere | Snoop_Based_Coherence/src/mem-system/module.c:539-556 | Gives the last position meeting a criterion with nothing after it meeting it, or nothing exactly when no position does. |
| AccessIndex.LastWhereIsFilterTail | Snoop_Based_Coherence/src/mem-system/module.c:539-556 | The last access meeting a criterion is the tail of the list of accesses meeting it. |
| AccessIndex.LoadRun | Snoop_Based_Coherence/src/mem-system/module.c:652-666 | The load walk stops at the nearest access to the block when everything from there to the tail is a load or prefetch. When it gives up, every access to the block has a non-load access behind it. |
| AccessIndex.SearchLoadRun | Snoop_Based_Coherence/src/mem-system/module.c:652-666 | The backward loop of the load case computes `LoadRun`. |
| AccessIndex.SearchSameBlock | Snoop_Based_Coherence/src/mem-system/module.c:713-724 | The backward loop of the prefetch case finds the nearest access to the block. |
| AccessIndex.SearchTarget | Snoop_Based_Coherence/src/mem-system/module.c:650-733 | The kind switch of `mod_can_coalesce` computes its specification for every access kind. |
| AccessIndex.CoalesceTargetNotSelf | Snoop_Based_Coherence/src/mem-system/module.c:645-646 | An access just started is never coalesced with itself: the search looks only before it, and nothing has it as master yet. |
| AccessIndex.InFlightAddressMeaning | Snoop_Based_Coherence/src/mem-system/module.c:511-533 | Searching the one bucket finds nothing exactly when no in-flight access to the block is older than the reference, and what it finds is in flight. |
| AccessIndex.CoalesceTargetIsMaster | Snoop_Based_Coherence/src/mem-system/module.c:747 | What a load, store or non-coherent store is coalesced with has no master itself, so coalescing stays one level deep (the assertion in `mod_coalesce`). |
| AccessIndex.OlderIsBefore | Snoop_Based_Coherence/src/mem-system/module.c:645-646 | When ids increase along the access list, an access older than the reference lies before it. |
| AccessIndex.PrefetchFindsOlder | Snoop_Based_Coherence/src/mem-system/module.c:713-724 | A prefetch search finds an access as soon as one before the reference is to the block and older. |
| AccessIndex.PrefetchAlwaysFinds | Snoop_Based_Coherence/src/mem-system/module.c:641-724 | When ids increase along the access list, a prefetch finds a target exactly when the hash table reports an older access to the block, so the failing assertion is unreachable. |
| AccessIndex.WriteTailIsLastStore | Snoop_Based_Coherence/src/mem-system/module.c:539-556 | The write-list tail is the last store of the access list, and the write list is empty exactly when no store is in flight. |
| AccessIndex.InFlightIndex.Start | Snoop_Based_Coherence/src/mem-system/module.c:441-459 | The access is appended to the access list, to the write list when it is a store, and to its bucket. Its kind is recorded and its flags are clear. The invariant is kept. |
| AccessIndex.InFlightIndex.Finish | Snoop_Based_Coherence/src/mem-system/module.c:462-484 | The access leaves exactly the lists it is in. The coalesced count drops by one when it was coalesced. The invariant is kept. |
| AccessIndex.InFlightIndex.InFlightAccess | Snoop_Based_Coherence/src/mem-system/module.c:491-504 | True exactly when an in-flight access with this id hashes to the bucket of the address. |
| AccessIndex.InFlightIndex.InFlightAddress | Snoop_Based_Coherence/src/mem-system/module.c:511-533 | Returns an in-flight access to the block that is older than the reference. It returns nothing exactly when there is none. |
| AccessIndex.InFlightIndex.InFlightWrite | Snoop_Based_Coherence/src/mem-system/module.c:539-556 | Finds the nearest store before the reference. Without a reference it is the write-list tail. |
| AccessIndex.InFlightIndex.Previous | Snoop_Based_Coherence/src/mem-system/module.c:645-646 | The access right before `s` in the access list, or none exactly when `s` is the head. |
| AccessIndex.InFlightIndex.CanCoalesce | Snoop_Based_Coherence/src/mem-system/module.c:631-735 | Computes the coalescing rule for every kind, and what a non-prefetch is coalesced with has no master. |
| AccessIndex.InFlightIndex.Coalesce | Snoop_Based_Coherence/src/mem-system/module.c:738-760 | The access becomes a coalesced slave of the master, the count rises by one and stays within the number of accesses, and no list changes. |
| AccessIndex.InFlightIndex.SetPortLocked | Snoop_Based_Coherence/src/mem-system/nmoesi-protocol.c:1177 | Only the port-locked flag of the access changes; lists and counts stay. |
| AccessIndex.InFlightIndex.CanAccess | Snoop_Based_Coherence/src/mem-system/module.c:222-240 | An access may start exactly when a port is free and, with an MSHR limit, fewer non-coalesced accesses than MSHR entries are in flight. |
| AccessIndex.PortLockedKeeps | Snoop_Based_Coherence/src/mem-system/nmoesi-protocol.c:1177 | Setting the port-locked flag keeps the index invariant. |
| RequestLists.WithoutLength | Snoop_Based_Coherence/src/mem-system/module.c:1950-1968 | Removing a registered request from a list without repeats shortens it by exactly one, so the queue count tracks the list. |
| RequestLists.ListStartKeeps | Snoop_Based_Coherence/src/mem-system/module.c:1926-1947 | Registering a request at the tail of a queue and of its bucket, counting it, keeps the queue invariant. The invariant says: no repeats; each bucket holds the entries hashing there, in list order; and the count is the length. |
| RequestLists.ListFinishKeeps | Snoop_Based_Coherence/src/mem-system/module.c:1950-1968 | Removing a registered request from the queue and its bucket, and counting it off, keeps the invariant. |
| RequestLists.InBucketOf | Snoop_Based_Coherence/src/mem-system/module.c:1971-1993 | Every queued request to the block of an address is in that address's bucket, and every bucket entry is queued. |
| RequestLists.PrevOf | Snoop_Based_Coherence/src/mem-system/module.c:1995-2006 | The entry before `s` in a list, and none exactly when `s` is the head. |
| RequestLists.Tail | Snoop_Based_Coherence/src/mem-system/module.c:1995-2006 | The last entry of a list, and none exactly when the list is empty. |
| RequestLists.FirstDependency | Snoop_Based_Coherence/src/mem-system/module.c:2321-2358 | Gives the first bucket entry with another id to the block that blocks a down-up request (a read in progress or a write), with none before it, or nothing exactly when none does. |
| RequestLists.EvictSearchMeaning | Snoop_Based_Coherence/src/mem-system/module.c:2150-2187 | The evict search finds nothing exactly when no queued eviction with another id is to the block, and what it finds is such an eviction. |
| RequestLists.ReadWriteSearchMeaning | Snoop_Based_Coherence/src/mem-system/module.c:2053-2090 | The read/write search finds only queued requests with another id to the block, and nothing when no request with the given id is queued. |
| RequestLists.ReadWriteSearchFinds | Snoop_Based_Coherence/src/mem-system/module.c:2053-2090 | Conversely, when a queued request to the block carries the id and a request to the block with another id is queued before it, the search finds one. |
| RequestLists.ReadWriteSearchNearest | Snoop_Based_Coherence/src/mem-system/module.c:2053-2090 | A find is the nearest request with another id to the block before the last queued request of the bucket carrying the id: no such request lies between the two, and no request of the bucket with the id comes after. |
| RequestLists.DependencyMeaning | Snoop_Based_Coherence/src/mem-system/module.c:2321-2358 | The dependency search finds nothing exactly when no queued read/write request with another id to the block blocks, and what it finds is queued. |
| RequestLists.DownUpSearchMeaning | Snoop_Based_Coherence/src/mem-system/module.c:1971-1993 | The down-up search finds nothing exactly when no queued down-up request older than the reference is to the block. |
| RequestLists.RequestList.ConflictMeaning | Snoop_Based_Coherence/src/mem-system/module.c:2150-2187 | On a valid queue the eviction and dependency conflicts are absent exactly when no conflicting request is queued. |
| RequestLists.RequestList.Start | Snoop_Based_Coherence/src/mem-system/module.c:2105-2126 | The request joins the tail of the queue and of its key's bucket. The queue count rises by one and the high-water mark follows it. The invariant is kept. |
| RequestLists.RequestList.Finish | Snoop_Based_Coherence/src/mem-system/module.c:2129-2147 | The request leaves the queue and its bucket, and the count drops by one. The high-water mark and the other entries stay. |
| RequestLists.RequestList.InFlightPrevious | Snoop_Based_Coherence/src/mem-system/module.c:2189-2200 | The tail of the queue without a reference, otherwise the entry right before the reference. |
| RequestLists.RequestList.InFlightBucketPrevious | Snoop_Based_Coherence/src/mem-system/module.c:2092-2103 | The tail of the queue without a reference, otherwise the entry right before the reference in its hash bucket. |
| RequestLists.RequestList.InFlightAddress | Snoop_Based_Coherence/src/mem-system/module.c:1971-1993 | Gives the first bucket entry to the block that is older than the reference, or nothing exactly when no queued down-up request qualifies. |
| RequestLists.RequestList.EvictInFlightAddress | Snoop_Based_Coherence/src/mem-system/module.c:2150-2187 | Walks the bucket from its tail for an eviction with another id to the block. It finds nothing exactly when none is queued. |
| RequestLists.RequestList.ReadWriteInFlightAddress | Snoop_Based_Coherence/src/mem-system/module.c:2053-2090 | Walks the bucket from its tail to the request's own entry, then on to the nearest entry before it with another id to the block. What it finds is queued. |
| RequestLists.RequestList.DependencyForDownUp | Snoop_Based_Coherence/src/mem-system/module.c:2321-2358 | Finds the first blocking read/write request with another id to the block. It finds nothing exactly when none is queued. |
| RequestLists.SearchDependency | Snoop_Based_Coherence/src/mem-system/module.c:2336-2355 | The forward loop over the bucket computes `FirstDependency`. |
| RequestLists.SearchLast | Snoop_Based_Coherence/src/mem-system/module.c:2166-2184 | The backward loop over a list computes `LastWhere`. |
| Transitions.NextState | Snoop_Based_Coherence/src/mem-system/nmoesi-protocol.c:119-135 | The fill state is Owned, Shared, Modified or Exclusive exactly for the four combinations of the shared and dirty flags. It is never Invalid or NonCoherent. |
| Transitions.NextStateRoundTrip | Snoop_Based_Coherence/src/mem-system/nmoesi-protocol.c:119-135 | The fill state determines the flags: recomputing the state from a filled state's own sharedness and dirtiness gives that state back, and no other state. |
| Transitions.DownUpRead | Snoop_Based_Coherence/src/mem-system/nmoesi-protocol.c:2653-2686 | A cache above answers a down-up read with data exactly when it holds the line, 8 bytes plus a block, otherwise an 8-byte ack. It reports the line shared exactly when valid and dirty exactly when dirty. It keeps the line valid and dirty as before, never Modified or Exclusive, and NonCoherent exactly when it was. |
| Transitions.DownUpWrite | Snoop_Based_Coherence/src/mem-system/nmoesi-protocol.c:3335-3381 | A cache above answers a down-up write with data exactly when its line is dirty or non-coherent (8 bytes plus a block), otherwise with an 8-byte ack. It reports dirty exactly for a dirty line. |
| Transitions.EvictMessage | Snoop_Based_Coherence/src/mem-system/nmoesi-protocol.c:1675-1694 | An invalid victim sends nothing. A dirty or non-coherent one sends its data (8 bytes plus a block). A clean one sends an 8-byte ack. |
| Transitions.EvictDataIffInvalidateData | Snoop_Based_Coherence/src/mem-system/nmoesi-protocol.c:1675-1694 | For a valid line, an eviction sends the same reply and size as the line's answer to a down-up write, so a victim carries data exactly when invalidating it would. |
| Transitions.EvictAbsorb | Snoop_Based_Coherence/src/mem-system/nmoesi-protocol.c:1800-1821 | A clean victim changes nothing below. A victim with data may only land on a valid lower copy, otherwise it is fatal, and then sets a new state there. Any other reply is fatal. |
| Transitions.EvictAbsorbMeaning | Snoop_Based_Coherence/src/mem-system/nmoesi-protocol.c:1800-1821 | Data landing on a valid lower copy leaves it dirty with its sharedness kept, and NonCoherent stays NonCoherent. |
| Transitions.EvictAbsorbNonCoherent | Snoop_Based_Coherence/src/mem-system/nmoesi-protocol.c:1859-1884 | A non-coherent victim must carry data onto a valid copy. A dirty copy keeps its state. A clean one becomes a valid, unshared state. |
| Transitions.EvictIntoInclusive | Snoop_Based_Coherence/src/mem-system/nmoesi-protocol.c:1639-1884 | Evicting into a valid lower copy never fails. Data (dirty or non-coherent) into an invalid copy is fatal. A dirty victim leaves the lower copy dirty or non-coherent, so no write-back is lost. |
| Transitions.LoadHits | Snoop_Based_Coherence/src/mem-system/nmoesi-protocol.c:283-292 | A load hits exactly in a valid state (M, O, E, S or N). |
| Transitions.StoreHits | Snoop_Based_Coherence/src/mem-system/nmoesi-protocol.c:543-554 | A store hits exactly in Modified or Exclusive, the fill states of an unshared line. |
| Transitions.NCStoreDecision | Snoop_Based_Coherence/src/mem-system/nmoesi-protocol.c:788-834 | A main memory, or a line in S or N, just unlocks. An Exclusive line tells the module below to clear its owner. An M, O or I line reads the block again from below. |
| Transitions.NCStoreEvicts | Snoop_Based_Coherence/src/mem-system/nmoesi-protocol.c:750-762 | A non-coherent store first evicts the line exactly when it is dirty (Modified or Owned). |
| Transitions.WriteUpDownAsksBelow | Snoop_Based_Coherence/src/mem-system/nmoesi-protocol.c:3231-3256 | A write request that reaches a module asks the module below exactly when a store would miss there. |
| Transitions.UpDownShared | Snoop_Based_Coherence/src/mem-system/nmoesi-protocol.c:2500-2518 | The requester is told "shared" only when some sub-block overlaps the request, and always then when the line is S, O or N. For an E or M line it is told so exactly for a non-coherent write or when a peer reported sharing. |
| Transitions.UpDownFillState | Snoop_Based_Coherence/src/mem-system/nmoesi-protocol.c:2500-2518 | The state the requester fills the line in is shared exactly when it was told "shared". |
| ModStack.Stack.Join | Snoop_Based_Coherence/src/mem-system/nmoesi-protocol.c:2477-2480 | A join needs a pending reply. It consumes one, and the step goes on exactly when none is left. |
| ModStack.WaitFirst | Snoop_Based_Coherence/src/mem-system/nmoesi-protocol.c:2146-2151 | When a dependency check finds an older request, the stack waits for that request, to retry at the given event. Otherwise the step goes on unchanged. |
| ModStack.JoinOutcomes | Snoop_Based_Coherence/src/mem-system/nmoesi-protocol.c:2477-2480 | The outcomes of `k` successive joins, one per join. |
| ModStack.OnlyLastJoinProceeds | Snoop_Based_Coherence/src/mem-system/nmoesi-protocol.c:2382 | A fan-out that started `n` children counts `1 + n` pending replies, and of the `1 + n` joins that follow exactly the last goes on. |
| ModStack.JoinOutcomeAt | Snoop_Based_Coherence/src/mem-system/nmoesi-protocol.c:2477-2480 | Join number `j` goes on exactly when it consumes the last pending reply. |
| FanOut.RowProbesMeaning | Snoop_Based_Coherence/src/mem-system/nmoesi-protocol.c:2353-2399 | The probes of one sub-block go to exactly the snooped nodes: end nodes other than the module itself, the requester and the excepted module, whose block starts at the entry's tag. |
| FanOut.ProbesMeaning | Snoop_Based_Coherence/src/mem-system/nmoesi-protocol.c:2346-2399 | Every probe is for a sub-block tag and a snooped node, and every snooped (sub-block, node) pair is probed. |
| FanOut.FanOutProbes | Snoop_Based_Coherence/src/mem-system/nmoesi-protocol.c:2344-2400 | The nested loops over sub-blocks and nodes send exactly those probes, and `pending` counts one reply per probe plus the step's own call. |
| FanOut.ProbeChild | Snoop_Based_Coherence/src/mem-system/nmoesi-protocol.c:2383-2397 | A probe becomes a down-up child to its node for its tag: a write for an invalidation, otherwise a plain read (not a non-coherent write, not a prefetch). |
| FanOut.ProbeChildren | Snoop_Based_Coherence/src/mem-system/nmoesi-protocol.c:2383-2397 | One child per probe, in probe order. |
| FanOut.RequesterShared | Snoop_Based_Coherence/src/mem-system/nmoesi-protocol.c:2500-2518 | The loop over sub-blocks decides "shared" as `UpDownShared` does, from whether any sub-block lies in the requested block. |
| AccessHandlers.LockCall | Snoop_Based_Coherence/src/mem-system/nmoesi-protocol.c:252-259 | A LOCK step's find-and-lock child is for the access's address with the given blocking and retry flags. It is never an eviction transfer or a down-up request. |
| AccessHandlers.LastStoreMeaning | Snoop_Based_Coherence/src/mem-system/module.c:539-556 | Searching before an access for a store finds one exactly when a store precedes it in the access list, and what it finds is such a store. |
| AccessHandlers.OlderBlocker | Snoop_Based_Coherence/src/mem-system/nmoesi-protocol.c:199-229 | A LOCK step finds an access to wait for exactly when an older store is in flight or, when addresses are checked, an older access to the block. An older store always takes precedence. |
| AccessHandlers.RecordAccess | Snoop_Based_Coherence/src/mem-system/nmoesi-protocol.c:158-171 | Recording the access appends it to the index as `mod_access_start` does. The coalescing target is then looked up with the access itself as reference: it is never the access itself, and for a non-prefetch it has no master. |
| AccessHandlers.StartAccess | Snoop_Based_Coherence/src/mem-system/nmoesi-protocol.c:158-185 | A START records the access, and coalesces it with the master found exactly when coalescing applies; the coalesced count follows. |
| AccessHandlers.AccessFinish | Snoop_Based_Coherence/src/mem-system/nmoesi-protocol.c:373-414 | FINISH removes the access from the index (the coalesced count drops when it was coalesced) and returns to the caller. |
| AccessHandlers.Retry | Snoop_Based_Coherence/src/mem-system/nmoesi-protocol.c:273-280 | A failed step sets `retry` and LOCK runs again after a delay between the latency and twice the latency. |
| AccessHandlers.LoadStart | Snoop_Based_Coherence/src/mem-system/nmoesi-protocol.c:147-187 | LOAD records a read. When the coalescing rule gives a master, the load is coalesced and waits for that master's finish. Otherwise it goes on to LOCK. |
| AccessHandlers.LoadLock | Snoop_Based_Coherence/src/mem-system/nmoesi-protocol.c:189-261 | LOAD_LOCK waits exactly when an older store, or an older access to the block, is in flight. Otherwise it starts a blocking read find-and-lock. |
| AccessHandlers.LoadAction | Snoop_Based_Coherence/src/mem-system/nmoesi-protocol.c:263-314 | A failed lock retries. A valid line is a hit and unlocks. Otherwise an up-down read goes below, returning to LOAD_MISS. |
| AccessHandlers.LoadMiss | Snoop_Based_Coherence/src/mem-system/nmoesi-protocol.c:316-355 | A failed read releases the entry and retries with the cache blocks unchanged. Otherwise the line takes the tag and the fill state of the reply's shared and dirty flags. No other entry changes. |
| AccessHandlers.LoadUnlock | Snoop_Based_Coherence/src/mem-system/nmoesi-protocol.c:357-371 | The entry is released (waking its first waiter) and the load finishes after the access latency. |
| AccessHandlers.StoreStart | Snoop_Based_Coherence/src/mem-system/nmoesi-protocol.c:425-469 | STORE records a write, also on the write list. A store coalesced with a master waits for it; otherwise it goes to LOCK. |
| AccessHandlers.StoreLock | Snoop_Based_Coherence/src/mem-system/nmoesi-protocol.c:471-519 | A store waits for the access right before it, so it locks only as the oldest access in flight. It then starts a blocking write find-and-lock. |
| AccessHandlers.StoreAction | Snoop_Based_Coherence/src/mem-system/nmoesi-protocol.c:521-573 | A failed lock retries. A Modified or Exclusive line needs nothing more. Any other state sends an up-down write below. |
| AccessHandlers.StoreUnlock | Snoop_Based_Coherence/src/mem-system/nmoesi-protocol.c:575-614 | The entry is released either way. A failed write retries with blocks unchanged. Otherwise the line becomes Modified with the store's tag and the store finishes after the latency. |
| AccessHandlers.NCStoreStart | Snoop_Based_Coherence/src/mem-system/nmoesi-protocol.c:661-686 | NC_STORE records the access and coalesces it with an unlocked non-coherent store to the block right before it, waiting for that master, or goes to LOCK. |
| AccessHandlers.NCStoreLock | Snoop_Based_Coherence/src/mem-system/nmoesi-protocol.c:688-726 | NC_STORE_LOCK waits as LOAD_LOCK does and otherwise starts a blocking non-coherent-write find-and-lock. |
| AccessHandlers.NCStoreWriteback | Snoop_Based_Coherence/src/mem-system/nmoesi-protocol.c:728-766 | A failed lock retries. A dirty line is first evicted, with the eviction flag set and the child returning to NC_STORE_ACTION. Any other line goes straight to ACTION. |
| AccessHandlers.NCStoreNext | Snoop_Based_Coherence/src/mem-system/nmoesi-protocol.c:800-832 | Unlock, a clear-owner message below, or a non-coherent up-down read below, as the decision says. |
| AccessHandlers.NCStoreActionAsWritten | Snoop_Based_Coherence/src/mem-system/nmoesi-protocol.c:768-834 | As written: an error retries LOCK without releasing the entry this access holds. Otherwise the step follows `NCStoreDecision`. |
| AccessHandlers.NCStoreRetryQueuesOnItself | Snoop_Based_Coherence/src/mem-system/nmoesi-protocol.c:777-786 | Running the as-written steps in order (LOCK's child takes the free entry, its port is released, NC_STORE_ACTION meets the eviction error and retries, the retried LOCK's child with the same id takes a port and asks for the entry) leaves the entry held by the access's own id with the retried child queued behind it. |
| AccessHandlers.NCStoreAction | Snoop_Based_Coherence/src/mem-system/nmoesi-protocol.c:768-834 | Corrected: an error releases the entry (waking its first waiter) before retrying. Otherwise the step follows `NCStoreDecision` and touches no lock. |
| AccessHandlers.NCStoreRetryCanLock | Snoop_Based_Coherence/src/mem-system/nmoesi-protocol.c:777-786 | The same steps with the corrected NC_STORE_ACTION: the entry is released before the retry, its first waiter is handed back, and the retried child takes the entry for the access. |
| AccessHandlers.NCStoreMiss | Snoop_Based_Coherence/src/mem-system/nmoesi-protocol.c:836-860 | A failed request below releases the entry and retries; otherwise the store goes on to UNLOCK with the locks untouched. |
| AccessHandlers.NCStoreUnlock | Snoop_Based_Coherence/src/mem-system/nmoesi-protocol.c:862-881 | The line becomes NonCoherent with the store's tag, the entry is released, and the store finishes after the latency. No other entry changes. |
| AccessHandlers.PrefetchStart | Snoop_Based_Coherence/src/mem-system/nmoesi-protocol.c:923-958 | PREFETCH records the access without coalescing. It finishes at once when the coalescing rule finds an older access to the block. Otherwise it goes to LOCK. |
| AccessHandlers.PrefetchLock | Snoop_Based_Coherence/src/mem-system/nmoesi-protocol.c:960-995 | A prefetch waits exactly when an older store is in flight. Otherwise it starts a non-blocking find-and-lock that never counts as a retry. |
| AccessHandlers.PrefetchAction | Snoop_Based_Coherence/src/mem-system/nmoesi-protocol.c:997-1040 | A failed lock abandons the prefetch. A valid line makes it useless. Otherwise a prefetch read goes below. |
| AccessHandlers.PrefetchMiss | Snoop_Based_Coherence/src/mem-system/nmoesi-protocol.c:1042-1087 | A failed read releases the entry and abandons the prefetch. Otherwise the line is filled as a load fill is, and marked prefetched when a prefetcher is attached. |
| AccessHandlers.PrefetchUnlock | Snoop_Based_Coherence/src/mem-system/nmoesi-protocol.c:1089-1102 | The entry is released and the prefetch finishes with no access latency. |
| FindAndLock.FindAndLockStart | Snoop_Based_Coherence/src/mem-system/nmoesi-protocol.c:1145-1161 | The parent's error is cleared and the way it chose is kept. The step asks for a port. It goes on to the PORT step exactly when it got one; otherwise it waits in the port queue (a down-up request at the head). |
| FindAndLock.EntryDecision | Snoop_Based_Coherence/src/mem-system/nmoesi-protocol.c:1393-1419 | A locked entry makes a non-blocking request fail and a blocking one wait. A free entry is taken. |
| FindAndLock.NonBlockingNeverQueues | Snoop_Based_Coherence/src/mem-system/nmoesi-protocol.c:1393-1419 | A non-blocking request never joins an entry's queue. It either takes the free entry or leaves the lock exactly as it was. |
| FindAndLock.BlockingHoldsOrWaits | Snoop_Based_Coherence/src/mem-system/nmoesi-protocol.c:1393-1419 | After a blocking request the entry is locked, either by the request itself or with the request queued last behind the holder. |
| FindAndLock.LockEntry | Snoop_Based_Coherence/src/mem-system/nmoesi-protocol.c:1393-1419 | The entry lock does what `EntryDecision` says and no other lock changes. The port is released exactly when the entry was not taken. |
| FindAndLock.FindAndLockPort | Snoop_Based_Coherence/src/mem-system/nmoesi-protocol.c:1163-1466 | An invalid range is fatal and changes no block or lock. A lookup reports the set, the block's tag and a way; a hit is the way holding the tag in its valid state, a miss means no way of the set holds it and a plain request takes the victim. Without an entry to lock, the port, blocks and locks stay and the step goes to ACTION. Otherwise the entry lock follows EntryDecision: a taken entry keeps the port, gets the transient tag and records the state before; a busy entry sets the parent's error and returns; a blocking request queues on the entry. When the entry is not taken the port is released and its first waiter, if any, is handed back. Every other entry keeps its block and its lock. |
| FindAndLock.PortStep | Snoop_Based_Coherence/src/mem-system/nmoesi-protocol.c:1177-1465 | Lookup, victim choice and entry bookkeeping. A hit reports the way holding the tag and its state. A miss takes the replacement victim for a plain request. A busy entry fails back to the parent. A taken entry gets the transient tag and marks the parent's read or write in progress. Every other entry keeps its block. |
| FindAndLock.TakeEntry | Snoop_Based_Coherence/src/mem-system/nmoesi-protocol.c:1421-1458 | The transient tag of the entry becomes the tag, a miss takes the victim's state, and an up-down request marks the parent's read or write as in progress. Every other entry keeps its block. |
| FindAndLock.LookUp | Snoop_Based_Coherence/src/mem-system/nmoesi-protocol.c:1177-1392 | The parent's port is marked locked. The tag and set are computed. The state before the access is recorded, Invalid on a miss. A hit is the first valid way holding the tag. A plain miss without a way gets the victim. An invalid range is fatal. |
| FindAndLock.FindAndLockAction | Snoop_Based_Coherence/src/mem-system/nmoesi-protocol.c:1468-1509 | The port is released. A plain miss with a valid victim evicts it first, returning to FINISH; otherwise FINISH follows at once. |
| FindAndLock.FindAndLockFinish | Snoop_Based_Coherence/src/mem-system/nmoesi-protocol.c:1511-1560 | An eviction error goes to the parent, releasing the entry when it was taken and leaving the blocks alone. Otherwise the parent receives set, way, state and tag, the state re-read after an eviction. A main memory that sees the line Invalid writes it as the tag in Exclusive and reports Exclusive; in every other case no block changes. No other entry's lock changes. |
| Evict.EvictStart | Snoop_Based_Coherence/src/mem-system/nmoesi-protocol.c:1578-1615 | The parent's error is cleared. The victim's tag and state are read from its entry, and its set, way and tag are saved. An invalidation of every cache above is started, with no module excepted, returning to EVICT_INVALID. |
| Evict.EvictInvalid | Snoop_Based_Coherence/src/mem-system/nmoesi-protocol.c:1617-1637 | A main memory makes the victim's line invalid with tag 0 and finishes. Any other module leaves its blocks alone and goes on to ACTION. Every other entry keeps its block. |
| Evict.EvictAction | Snoop_Based_Coherence/src/mem-system/nmoesi-protocol.c:1639-1717 | The victim's state is re-read (the caches above may have changed it). An invalid victim finishes without a message. Any other is sent below with the reply and size `EvictMessage` gives. |
| Evict.EvictLockCall | Snoop_Based_Coherence/src/mem-system/nmoesi-protocol.c:1751-1768 | The lower module locks its copy of the victim's tag without blocking, as a write marked as an eviction transfer, never as a read, retry or down-up request. |
| Evict.EvictReceive | Snoop_Based_Coherence/src/mem-system/nmoesi-protocol.c:1719-1772 | The eviction joins the lower module's eviction list once, keyed by the victim's tag; this is skipped for a main memory. The lower copy is then locked, and a non-coherent victim is processed by the non-coherent step. |
| Evict.EvictProcess | Snoop_Based_Coherence/src/mem-system/nmoesi-protocol.c:1774-1839 | A failed lower lock passes the error up and changes nothing. Otherwise the lower copy absorbs the victim as `EvictAbsorb` says. A fatal outcome changes nothing; otherwise every other entry of the lower cache keeps its block and its lock. |
| Evict.EvictProcessNonCoherent | Snoop_Based_Coherence/src/mem-system/nmoesi-protocol.c:1841-1892 | The same for a non-coherent victim, absorbed as `EvictAbsorbNonCoherent` says. A fatal outcome changes nothing; otherwise every other entry of the lower cache keeps its block and its lock. |
| Evict.Absorb | Snoop_Based_Coherence/src/mem-system/nmoesi-protocol.c:1800-1837 | A fatal outcome stops the simulator. Otherwise the lower copy takes the new state (keeping its tag), its entry is unlocked, and the reply follows after the latency. A fatal outcome changes nothing; otherwise every other entry of the lower cache keeps its block and its lock. |
| Evict.EvictReply | Snoop_Based_Coherence/src/mem-system/nmoesi-protocol.c:1894-1924 | An 8-byte reply goes back up, arriving at EVICT_REPLY_RECEIVE. |
| Evict.EvictReplyReceive | Snoop_Based_Coherence/src/mem-system/nmoesi-protocol.c:1926-1953 | Unless the lower module failed to lock its copy, the victim's line becomes invalid with tag 0; then FINISH. Every other entry keeps its block. |
| Evict.EvictFinish | Snoop_Based_Coherence/src/mem-system/nmoesi-protocol.c:1955-1980 | The eviction leaves the lower module's eviction list and its count; a main memory keeps no list. It returns to its parent. |
| Invalidate.InvalidateStart | Snoop_Based_Coherence/src/mem-system/nmoesi-protocol.c:3700-3776 | The line's tag and state are read and the state before is recorded. When the line is valid and caches lie above, a down-up write goes to every snooped (sub-block, module) pair. `pending` is one per probe plus the step's own call. |
| Invalidate.InvalidateFinish | Snoop_Based_Coherence/src/mem-system/nmoesi-protocol.c:3778-3809 | Each reply consumes one pending count. When the replies brought data the line becomes Modified with its tag; otherwise the blocks stay. The stack returns to its parent after the last reply only. |
| RequestGates.DownUpGate | Snoop_Based_Coherence/src/mem-system/nmoesi-protocol.c:2121-2207 | A down-up request registers once on the upper module's down-up list. It then waits in turn for three things: an eviction into the block in flight at the lower module; a blocking read/write request of the lower module to the block; and the down-up request queued before it. Otherwise it locks the block. It goes on exactly when none of these exists and it heads the down-up list. |
| RequestGates.DownUpProceeds | Snoop_Based_Coherence/src/mem-system/nmoesi-protocol.c:2131-2207 | The three checks let the request through exactly when the lower module has no conflicting eviction and no blocking read/write request, and the request heads the down-up list. |
| RequestGates.RegisterDownUp | Snoop_Based_Coherence/src/mem-system/nmoesi-protocol.c:2125-2128 | The request joins the down-up list exactly once, keyed by its address. A registered request changes nothing. |
| RequestGates.DownUpChecks | Snoop_Based_Coherence/src/mem-system/nmoesi-protocol.c:2131-2207 | The three dependency checks in their order, each waiting for what it found. |
| RequestGates.EvictCheck | Snoop_Based_Coherence/src/mem-system/nmoesi-protocol.c:2135-2151 | The check returns the conflicting eviction in flight into the block, if any. |
| RequestGates.ReadWriteCheck | Snoop_Based_Coherence/src/mem-system/nmoesi-protocol.c:2225-2237 | The check returns the older read/write request of another access to the block, if any. |
| RequestGates.DependencyCheck | Snoop_Based_Coherence/src/mem-system/nmoesi-protocol.c:2163-2175 | The check returns the blocking read/write request with another id to the block, if any. |
| RequestGates.PreviousCheck | Snoop_Based_Coherence/src/mem-system/nmoesi-protocol.c:2184-2200 | The down-up request queued right before this one, if any. |
| RequestGates.RegisterUpDown | Snoop_Based_Coherence/src/mem-system/nmoesi-protocol.c:2212-2215 | An up-down request joins the receiving module's read/write list exactly once. |
| RequestGates.LeaveList | Snoop_Based_Coherence/src/mem-system/nmoesi-protocol.c:2812-2823 | At FINISH a down-up request leaves the down-up list and any other request the read/write list; the other list is untouched. |
| ReadRequest.ReadRequestSend | Snoop_Based_Coherence/src/mem-system/nmoesi-protocol.c:1997-2064 | The parent's error flag is cleared and an 8-byte request goes out, arriving at RECEIVE. |
| ReadRequest.ReadLockCall | Snoop_Based_Coherence/src/mem-system/nmoesi-protocol.c:2278-2288 | The lock call for a read request takes the request's address; it blocks exactly for down-up requests; it is a read and nothing else, and it keeps the down-up read flag. |
| ReadRequest.ReadReceiveUpDown | Snoop_Based_Coherence/src/mem-system/nmoesi-protocol.c:2208-2291 | An up-down read registers once on the receiving module's read/write list. It waits for an older read/write request to the block, then for an eviction into the block in flight. Otherwise it locks the block with ReadLockCall. |
| ReadRequest.ReadRequestAction | Snoop_Based_Coherence/src/mem-system/nmoesi-protocol.c:2293-2314 | A failed lock makes the parent's reply an error with an 8-byte answer, then replies. Otherwise nothing changes and the step continues on the up-down or down-up path by the request's direction. |
| ReadRequest.ReadUpDown | Snoop_Based_Coherence/src/mem-system/nmoesi-protocol.c:2316-2431 | The answer is one data block plus header. A hit fans a down-up read to every snooped (sub-block, module) pair and counts them pending. A miss sends one read below and waits for it alone. |
| ReadRequest.ReadUpDownMiss | Snoop_Based_Coherence/src/mem-system/nmoesi-protocol.c:2433-2466 | An error below makes the parent's reply an error and releases the entry lock, leaving the blocks alone. Otherwise the line takes the tag and the state chosen from the shared and dirty replies, and the lock stays held. Every other entry of the cache keeps its block and its lock. |
| ReadRequest.ReadUpDownFinish | Snoop_Based_Coherence/src/mem-system/nmoesi-protocol.c:2468-2535 | Each reply consumes one pending count, and nothing else happens before the last one. Then a reply size under 8 stops the simulation. Otherwise the requester gets data of the target block size. The requester is told "shared" when a requested sub-block is shared, non-coherent, owned or written non-coherently. The line is demoted to the matching state only when shared. The entry lock is released. Every other entry of the cache keeps its block and its lock. |
| ReadRequest.UpDownAnswer | Snoop_Based_Coherence/src/mem-system/nmoesi-protocol.c:2488-2532 | The same answer once the replies are in: reply, size, shared flag, demotion of the line only when shared, and lock release. Every other entry of the cache keeps its block and its lock. |
| ReadRequest.ReadDownUp | Snoop_Based_Coherence/src/mem-system/nmoesi-protocol.c:2537-2606 | A down-up read is forwarded to every snooped (sub-block, module) pair above. The pending count is one per probe plus one. |
| ReadRequest.ReadDownUpWaitForReqs | Snoop_Based_Coherence/src/mem-system/nmoesi-protocol.c:2608-2640 | Each reply consumes one pending count, and nothing changes before the last. At the last the block is looked up again. A hit answers with data and records the found line and state. A miss (every way of the set misses the tag) answers with a plain ack and keeps the old way and state. A fatal lookup stops the simulation. |
| ReadRequest.DownUpRefind | Snoop_Based_Coherence/src/mem-system/nmoesi-protocol.c:2620-2639 | The lookup after the replies, with the same hit and miss outcomes as above. |
| ReadRequest.ReadDownUpFinish | Snoop_Based_Coherence/src/mem-system/nmoesi-protocol.c:2642-2693 | The reply, its size, the new state of a valid line and the shared and dirty flags handed to the parent all follow the down-up read transition. A valid line is updated and its lock released; an invalid one leaves the cache alone. Every other entry of the cache keeps its block and its lock. |
| ReadRequest.ReadRequestReply | Snoop_Based_Coherence/src/mem-system/nmoesi-protocol.c:2695-2751 | The reply message has the recorded reply size and arrives at FINISH. |
| ReadRequest.ReadRequestFinish | Snoop_Based_Coherence/src/mem-system/nmoesi-protocol.c:2753-2827 | A successful up-down read invalidates the requester's line and leaves every other line alone; a down-up read or an error leaves the cache alone. The request leaves the list it was on and the other list is untouched. The up-down path ends its read-in-progress flag. |
| WriteRequest.WriteRequestSend | Snoop_Based_Coherence/src/mem-system/nmoesi-protocol.c:2844-2920 | The parent's error flag is cleared. The write carries a data reply of one block plus header. The 8-byte request arrives at RECEIVE. |
| WriteRequest.WriteLockCall | Snoop_Based_Coherence/src/mem-system/nmoesi-protocol.c:3152-3164 | The lock call for a write request takes the request's address; it blocks exactly for down-up requests; it is a write and not a read, and it keeps the down-up write-back and eviction flags. |
| WriteRequest.WriteReceiveUpDown | Snoop_Based_Coherence/src/mem-system/nmoesi-protocol.c:3090-3167 | An up-down write registers once on the read/write list. An older read/write request to the block makes it fail at once, with an error and an 8-byte reply. Otherwise it waits for an eviction into the block in flight, then locks the block with WriteLockCall. |
| WriteRequest.WriteRequestAction | Snoop_Based_Coherence/src/mem-system/nmoesi-protocol.c:3170-3207 | A failed lock makes the parent's reply an error with an 8-byte answer. Otherwise an invalidation of every other sharer above, except the requester, is started on the locked line. |
| WriteRequest.WriteRequestExclusive | Snoop_Based_Coherence/src/mem-system/nmoesi-protocol.c:3209-3221 | The step continues on the up-down path exactly for up-down requests, and on the down-up path otherwise. |
| WriteRequest.WriteUpDown | Snoop_Based_Coherence/src/mem-system/nmoesi-protocol.c:3223-3273 | The step goes straight to UPDOWN_FINISH exactly when the line is Modified or Exclusive. Otherwise a write is sent below for the block first. |
| WriteRequest.WriteUpDownFinish | Snoop_Based_Coherence/src/mem-system/nmoesi-protocol.c:3275-3325 | An error below makes the parent's reply an error and releases the entry lock, leaving the blocks alone. Otherwise the line takes the tag and the state chosen from the shared and dirty replies. A reply size under 8 then stops the simulation; otherwise the parent gets data and the lock is released. Every other entry of the cache keeps its block and its lock. |
| WriteRequest.WriteDownUp | Snoop_Based_Coherence/src/mem-system/nmoesi-protocol.c:3327-3383 | The reply, its size and the dirty flag handed to the parent follow the down-up write transition. |
| WriteRequest.DownUpWriteHandsOver | Snoop_Based_Coherence/src/mem-system/nmoesi-protocol.c:3335-3381 | For a valid line the data goes up exactly when the line is not Exclusive or Shared, and the parent is told dirty exactly when the line is Modified or Owned. |
| WriteRequest.WriteDownUpFinish | Snoop_Based_Coherence/src/mem-system/nmoesi-protocol.c:3385-3407 | A valid line is invalidated with tag 0 and its lock released; an invalid one leaves the cache alone. Every other entry of the cache keeps its block and its lock. |
| WriteRequest.WriteRequestReply | Snoop_Based_Coherence/src/mem-system/nmoesi-protocol.c:3409-3469 | The reply message has the recorded reply size and arrives at FINISH. |
| WriteRequest.WriteRequestFinish | Snoop_Based_Coherence/src/mem-system/nmoesi-protocol.c:3471-3564 | A successful up-down write invalidates the requester's line and leaves every other line alone; a down-up write or an error leaves the cache alone. The request leaves the list it was on and the other list is untouched. The up-down path ends its write-in-progress flag. |
| Coherence.Snapshot | Snoop_Based_Coherence/src/mem-system/module.c:272-283 | One row per set, each holding that set's ways: the blocks the coherency check reads. |
| Coherence.ViewLookupIsFindBlock | Snoop_Based_Coherence/src/mem-system/module.c:257-301 | On a snapshot the check's lookup gives exactly the cache's own block lookup, with no entry locked. The view it builds is well formed. |
| Coherence.StateRead | Snoop_Based_Coherence/src/mem-system/module.c:288-300 | The state read by the downward check (module.c line 2216) after a lookup: a miss reads as Invalid, and a hit reads the state of the line it found. |
| Coherence.LowModInBounds | Snoop_Based_Coherence/src/mem-system/module.c:579-617 | The low module chosen for an address is always one of the module's low modules. |
| Coherence.ScanLowsInBounds | Snoop_Based_Coherence/src/mem-system/module.c:595-612 | The scan over the low modules only ever picks an index inside the list. |
| Coherence.TargetVerdict | Snoop_Based_Coherence/src/mem-system/module.c:2216-2279 | The module passes its own test exactly when its lookup does not fail and the state it reads obeys the rule for the direction, the issuer's state and the memory kind. The verdict is never "out of fuel". |
| Coherence.CheckLow | Snoop_Based_Coherence/src/mem-system/module.c:2308-2318 | When no low module or two low modules serve the address, the check is broken. Otherwise the lower step checks the unique serving low module in the up direction, with the current module as the previous one. |
| Coherence.CheckCoherencyStatus | Snoop_Based_Coherence/src/mem-system/module.c:2203-2319 | The recursive check computes the specification verdict of the whole walk: the target's test, each peer above, and the unique lower module when walking down. |
| Coherence.CheckTarget | Snoop_Based_Coherence/src/mem-system/module.c:2216-2279 | The module's own test computes TargetVerdict. |
| Coherence.CheckPeers | Snoop_Based_Coherence/src/mem-system/module.c:2281-2306 | The loop over the upper network's nodes computes the specification verdict of the peer walk. |
| Coherence.CheckLowMod | Snoop_Based_Coherence/src/mem-system/module.c:2308-2318 | The lower step computes CheckLow. |
| Coherence.CheckHighMeaning | Snoop_Based_Coherence/src/mem-system/module.c:2285-2305 | The peer walk passes exactly when every visited end node passes its own down-up check. End nodes that are the target, the previous module or the issuer are skipped. |
| Coherence.CheckMeaning | Snoop_Based_Coherence/src/mem-system/module.c:2203-2319 | With fuel left, a module is coherent exactly when three things hold: its own test passes; every visited peer above passes a down-up check; and, when walking down with a lower network, the lower step passes. |
| Coherence.CheckFuel | Snoop_Based_Coherence/src/mem-system/module.c:2203-2319 | A verdict reached with some fuel stays the same with one more unit of fuel. |
| Coherence.CheckLowFuel | Snoop_Based_Coherence/src/mem-system/module.c:2308-2318 | The same holds for the lower step. |
| Coherence.CheckHighFuel | Snoop_Based_Coherence/src/mem-system/module.c:2281-2306 | The same holds for the peer walk. |
| Coherence.CheckFuelMonotone | Snoop_Based_Coherence/src/mem-system/module.c:2203-2319 | A verdict reached with some fuel stays the same with any larger fuel. |
| Coherence.PeerRuleIsSingleWriter | Snoop_Based_Coherence/src/mem-system/module.c:2221-2247 | Between an issuer and a peer that both hold the line, the peer rule allows exactly this: one of the two is Invalid, or both are Shared or Owned and not both Owned. The rule is symmetric in the two states. |
| Coherence.LowerRuleMeaning | Snoop_Based_Coherence/src/mem-system/module.c:2249-2279 | Below an Exclusive or Modified issuer, the lower module must miss or hold Exclusive, Modified or non-coherent. Below a Shared or Owned issuer, a cache must hit Shared or Owned, and main memory must hit a valid state. In the peer direction a miss always passes. |
| Coherence.MissReadsStaleState | Snoop_Based_Coherence/src/mem-system/module.c:2258-2266 | As written, the downward check below a Shared issuer passes or fails on a lower miss according to whatever stale state the local holds. |
| Coherence.LocalRuleCorrected | Snoop_Based_Coherence/src/mem-system/module.c:2221-2279 | On a hit the corrected rule agrees with the rule as written. On a miss it is the rule as written with the state read as Invalid. Below a Shared or Owned issuer a miss therefore fails. |
| Command.DigitRun | Snoop_Based_Coherence/src/mem-system/command.c:96-98 | The leading run of decimal digits: every character in it is a digit and the one after it is not. |
| Command.SignLength | Snoop_Based_Coherence/src/mem-system/command.c:96-98 | A leading sign takes at most one character of the token. |
| Command.ParseInteger | Snoop_Based_Coherence/src/mem-system/command.c:96-98 | A token is an integer exactly when, after an optional sign, it is a non-empty run of digits and nothing else. |
| Command.HexDigitValue | Snoop_Based_Coherence/src/mem-system/command.c:72 | A hexadecimal digit stands for a value below 16. |
| Command.HexRun | Snoop_Based_Coherence/src/mem-system/command.c:72 | The leading run of hexadecimal digits: every character in it is a hex digit and the one after it is not. |
| Command.ParseHex | Snoop_Based_Coherence/src/mem-system/command.c:72 | A token gives a hex value exactly when it starts with "0x" followed by at least one hex digit. |
| Command.Expect | Snoop_Based_Coherence/src/mem-system/command.c:48-53 | Reading a field succeeds exactly when a token is left, and it gives the first token. |
| Command.EndOfLine | Snoop_Based_Coherence/src/mem-system/command.c:56-61 | The line may end only when no token is left. |
| Command.GetHex | Snoop_Based_Coherence/src/mem-system/command.c:64-79 | A hex field is read exactly when the first token parses as hex. Its value is returned and the token is consumed. |
| Command.GetString | Snoop_Based_Coherence/src/mem-system/command.c:82-88 | A string field is the first token, consumed. |
| Command.GetCycle | Snoop_Based_Coherence/src/mem-system/command.c:91-108 | A cycle field is read exactly when the first token is an integer of at least 1. The value is returned and the token is consumed. |
| Command.GetHighLow | Snoop_Based_Coherence/src/mem-system/command.c:111-137 | The field is accepted exactly when it is "High" or "Low", ignoring case; it reads as true exactly for "High". |
| Command.GetInOut | Snoop_Based_Coherence/src/mem-system/command.c:140-166 | The field is accepted exactly when it is "In" or "Out", ignoring case; it reads as true exactly for "In". |
| Command.FindMod | Directory_Based_Coherence/src/mem-system/mem-system.c:1017-1033 | The module found is the first whose name matches the token, ignoring case. Nothing is found exactly when no module from the start point on matches. |
| Command.GetMod | Snoop_Based_Coherence/src/mem-system/command.c:169-194 | "None" gives no module. Any other name is accepted exactly when a module of that name exists, and gives that module. The token is consumed. |
| Command.GetSetWay | Snoop_Based_Coherence/src/mem-system/command.c:197-229 | Without a module the read fails. Otherwise the set and way read with atoi are accepted exactly when they lie inside the module's cache. |
| Command.GetSubBlock | Snoop_Based_Coherence/src/mem-system/command.c:232-249 | The sub-block read with atoi is accepted exactly when it lies below the module's number of sub-blocks. |
| Command.GetState | Snoop_Based_Coherence/src/mem-system/command.c:252-267 | A state field consumes exactly one token. |
| Command.StateTokenMeaning | Snoop_Based_Coherence/src/mem-system/command.c:252-267 | A token reads as a given state exactly when it is that state's name, ignoring case. |
| Command.StateMapUnfold | Snoop_Based_Coherence/src/mem-system/command.c:258 | The state map gives N, M, O, E and S their states, and Invalid to anything else. |
| Command.GetAccessOf | Snoop_Based_Coherence/src/mem-system/command.c:270-289 | An access field is accepted exactly when the map, searched over its first `count` entries, knows the token. It gives that access kind. |
| Command.AccessMapUnfold | Snoop_Based_Coherence/src/mem-system/module.c:45-53 | The four map entries give Load, Store, NCStore and Prefetch. Searched over its declared count of 3, the map knows only the first three. |
| Command.AccessTokenMeaning | Snoop_Based_Coherence/src/mem-system/command.c:270-289 | With the access-kind map (module.c lines 45-53) searched over all four entries, a token reads as an access kind exactly when it is that kind's name, ignoring case. |
| Command.PrefetchNotRecognised | Snoop_Based_Coherence/src/mem-system/module.c:45-53 | As declared, "Prefetch" is rejected as an invalid access; searched over all four entries it is accepted. |
| Command.AccessAsWrittenAgrees | Snoop_Based_Coherence/src/mem-system/module.c:45-53 | Whatever the map as declared accepts, the full map reads the same way. |
| Command.BlockFields | Snoop_Based_Coherence/src/mem-system/command.c:328-333 | A SetBlock or CheckBlock line is read exactly as five fields: a module found by name, a set and way inside its cache, a hex tag, and a state. |
| Command.ServesCheck | Snoop_Based_Coherence/src/mem-system/command.c:336-338 | The check passes exactly when the module serves the tag. |
| Command.BlockFitsMeaning | Snoop_Based_Coherence/src/mem-system/command.c:336-348 | The tag fits exactly when the module serves it, it is a multiple of the block size, and it maps to the given set. |
| Command.SetBlockCommand | Snoop_Based_Coherence/src/mem-system/command.c:328-364 | A SetBlock line is accepted exactly when its fields are well formed and the tag fits the given set. |
| Command.SharersMeaning | Snoop_Based_Coherence/src/mem-system/command.c:384-396 | The list of sharers passes exactly when every token is "None" or a module directly above the target. |
| Command.SetSharersMeaning | Snoop_Based_Coherence/src/mem-system/command.c:366-397 | A SetSharers line is accepted exactly when the module, set, way and sub-block are valid, at least one sharer follows, and every sharer passes. |
| Command.AccessCommandAsWritten | Snoop_Based_Coherence/src/mem-system/command.c:400-428 | An access scheduled later is put off by a positive delay. An access due now names a real access kind, and the module may be none. |
| Command.AccessNoneReachesNoModule | Snoop_Based_Coherence/src/mem-system/command.c:400-428 | The line "None 1 Load 0x40" is accepted as an access issued to no module at all. |
| Command.AccessCommand | Snoop_Based_Coherence/src/mem-system/command.c:400-428 | An accepted access line has its four fields. One due later is put off by exactly the remaining cycles. One due now names an existing module, a real access kind and the hex address. A line naming "None" is rejected. |
| Command.AccessCommandAgrees | Snoop_Based_Coherence/src/mem-system/command.c:400-428 | Wherever the line as written names a module, the corrected command makes the same decision. Where it names none, the corrected command rejects it. |
| Command.Decide | Snoop_Based_Coherence/src/mem-system/command.c:302-438 | A line starting with "Check" is deferred to the end of the simulation, and only such a line is. Each other outcome comes from its own command word. An empty line is an error. An Access line is decided by the corrected AccessCommand, which rejects the module name "None". |
| Command.CheckBlockCommand | Snoop_Based_Coherence/src/mem-system/command.c:474-496 | A CheckBlock line is accepted exactly when its fields are well formed and the module serves the tag. Alignment and set are not checked. |
| Command.UnsignedAtoll | Snoop_Based_Coherence/src/mem-system/command.c:545 | The expected byte count is an unsigned 64-bit value. |
| Command.CheckLinkCommand | Snoop_Based_Coherence/src/mem-system/command.c:523-548 | A CheckLink line reads the module, the network side ("High" or not) and the direction ("In" or not). The expected byte count is read with atoll and cast to unsigned. |
| Command.EndDecide | Snoop_Based_Coherence/src/mem-system/command.c:444-604 | An accepted end command is CheckBlock or CheckLink by its word, and any other word is an error. |
| Command.SetBlockThenCheckBlockPasses | Snoop_Based_Coherence/src/mem-system/command.c:474-520 | Any SetBlock line (command.c lines 328-364) that is accepted is also accepted as a CheckBlock line. A check straight after writing that line finds its tag and state. |
| Command.CheckBlockAsSetBlock | Snoop_Based_Coherence/src/mem-system/command.c:474-496 | An accepted CheckBlock line with an aligned tag in its set is accepted as SetBlock too. |
| Command.TokenList.Shift | Snoop_Based_Coherence/src/mem-system/command.c:48-53 | Reading one field gives the field reader's value and leaves exactly the tokens it did not consume; a reader error is passed on. |
| Command.CommandHandler | Snoop_Based_Coherence/src/mem-system/command.c:302-438 | The handler makes the decision Decide specifies. Only the line written by an accepted SetBlock changes, taking that tag and state. An Access line runs the corrected AccessHandler, so "None" is rejected. |
| Command.ReadBlockFields | Snoop_Based_Coherence/src/mem-system/command.c:328-333 | Reading the token list gives the parsed SetBlock fields. |
| Command.SetBlockHandler | Snoop_Based_Coherence/src/mem-system/command.c:328-364 | The handler makes the SetBlock decision. An accepted line writes the tag and state to its line and nothing else changes. |
| Command.SetSharersHandler | Snoop_Based_Coherence/src/mem-system/command.c:366-397 | The handler makes the SetSharers decision, reading the sharers one token at a time. |
| Command.AccessHandler | Snoop_Based_Coherence/src/mem-system/command.c:400-428 | The handler makes the corrected Access decision. |
| Command.EndCommandHandler | Snoop_Based_Coherence/src/mem-system/command.c:444-604 | The handler makes the EndDecide decision. The test fails exactly when a CheckBlock finds another tag or state at its line. |
| Command.CheckLinkHandler | Snoop_Based_Coherence/src/mem-system/command.c:523-548 | The handler makes the CheckLink decision on the token list. |

## Left out

- Statistics, latency counters, debug and trace output, and every counter update in the handlers are not modelled, because they never change a decision. This includes `mod_check_dependency_depth` and `mod_update_*`.
- The "Unknown memory operation type" fatal inside the statistics block of FIND_AND_LOCK (`Snoop_Based_Coherence/src/mem-system/nmoesi-protocol.c:1333`, `:1370`) is not modelled. It belongs to the statistics, and the access flags the model gives every lock call always name a kind.
- The replacement policy (`cache_replace_block`, `Snoop_Based_Coherence/src/mem-system/nmoesi-protocol.c:1383`) is outside the model. The victim way is a parameter of the lookup step.
- Random retry latency (`mod_get_retry_latency`) draws from `random()`; the model takes the drawn number as a parameter.
- The event queue, `esim_schedule_event`, the network and message sizes are not modelled. A step returns a `Next` saying what it schedules, and a network send is a `Send` with its size and events.
- Routing a message to the module that receives it happens outside the steps. Each step is given the modules it works on.
- The prefetcher hooks (`prefetcher_access_hit`, `prefetcher_access_miss`) are calls into code that is not part of this model. They only inform the prefetcher and change no state the core reads.
- The handlers' inline calls to `mod_check_coherency_status` (`Snoop_Based_Coherence/src/mem-system/nmoesi-protocol.c:348`, `:604`, `:1074`) are modelled separately. `Coherence` runs the check on a snapshot of the caches; the handlers do not call it.
- Coherence.Check: the recursion is bounded by a `fuel` argument. With the snooping network being finite the source always ends, but its termination argument is not visible in these files. `CheckFuel` and `CheckFuelMonotone` show that any verdict reached is independent of extra fuel.
- `assert` statements of the source are not preconditions, except where the control flow already guarantees them. In particular the down-up read asserts at `Snoop_Based_Coherence/src/mem-system/nmoesi-protocol.c:2549-2551` are not modelled, because the finish step handles the Shared, non-coherent and Invalid cases they exclude.
- The `invalidate_eviction` and `wb_store` flags (`Snoop_Based_Coherence/src/mem-system/nmoesi-protocol.c:1610`, `:3198-3202`) only select statistics counters and are not modelled.
- `mod-stack.c` is not part of this model. Only the declaration of `mod_stack_set_reply` is visible (`Directory_Based_Coherence/src/mem-system/module.h:775`), so States.SetReply takes the reply to the higher of the old and new codes in the order of `mod_reply_type_t` (`Snoop_Based_Coherence/src/mem-system/mod-stack.h:37-44`). `mod_stack_return` is modelled as `Return`.
- The dispatcher that splits RECEIVE into the up-down and down-up paths is a plain direction test, and each path is its own method.
- The peer-transfer handler (`Snoop_Based_Coherence/src/mem-system/nmoesi-protocol.c:3570-3687`) and the message handler (`Snoop_Based_Coherence/src/mem-system/nmoesi-protocol.c:3814-3944`) are not modelled. This snooping variant never sends peer data, and messages only carry statistics.
- The transaction list (`mod_trans_*`) is not modelled. Its hash size and its uses are not visible in these files, and it only feeds statistics.
- Evict.EvictFinish requires that a non-memory eviction is registered on the lower module's eviction list. Registration happens only at EVICT_RECEIVE. When EVICT_ACTION reads the victim as Invalid, the source goes straight to FINISH (`Snoop_Based_Coherence/src/mem-system/nmoesi-protocol.c:1674-1678`). It then removes an eviction that was never registered (`Snoop_Based_Coherence/src/mem-system/nmoesi-protocol.c:1971-1976`). The model does not follow that path.
- FindAndLock.FindAndLockFinish requires a non-negative way whenever the entry is taken, the access is an eviction, or the module is main memory. The source writes that way without a check.
- Addressing.Pow2 requires an exponent below 31, the range of C's `1 << i` on `int`.
- Tags and addresses are natural numbers. The source's `int` tags are never negative for the addresses the simulator produces, and the 32-bit wrap of `unsigned int` addresses is not modelled.
- Command: the tokenizer (`str_token`, `str_token_list_create`) is outside the model, and a command line is a sequence of tokens. `str_to_llint`, `atoi`, `sscanf("0x%x")` and `strcasecmp` are library code; they are modelled over ASCII as decimal digits with an optional sign, hex digits after a literal "0x", and ASCII case folding. Overflow of `%x` past 32 bits and of `atoll` is not modelled except for the 64-bit cast of the CheckLink byte count.
- Command.GetState: `cache_block_state_map` is not part of this model; its names are taken to be the single letters N, M, O, E, S and I.
- Command: the `MAX_STRING_SIZE` truncation of command words and access names is not modelled.
- Command.CheckLinkHandler: the link inspection, the byte comparison and the bus branch are outside the model because the network is. A CheckLink line naming "None" would dereference no module; the model stops at the parsed request.
- Command.AccessHandler: `mod_access` itself is outside the handler. The handler hands back the module, kind and address as `Accessed`, and the access's start is modelled by `AccessHandlers`.

## Findings

| source | as written | input that shows it | evidently intended | confidence | as-written member | corrected member |
|---|---|---|---|---|---|---|
| Snoop_Based_Coherence/src/mem-system/command.c:400-428 | The `Access` command accepts the module name "None". It then calls `mod_access` with no module, which reads `mod->mod_id` (Snoop_Based_Coherence/src/mem-system/module.c:149-160). | the line `Access None 1 Load 0x40` at cycle 1 | An access to no module is rejected like SetBlock rejects one. | not executed | Command.AccessNoneReachesNoModule | Command.AccessCommandAgrees |
| Snoop_Based_Coherence/src/mem-system/nmoesi-protocol.c:778-786 | When locking fails at NC_STORE_ACTION, the step retries LOCK without unlocking the cache entry. The failure is a failed write-back of the victim, so the entry is still held. The retry's blocking lock then waits behind the entry held by the same access. | a non-coherent store whose victim write-back fails | Unlock the entry before scheduling the retry. | not executed | AccessHandlers.NCStoreRetryQueuesOnItself | AccessHandlers.NCStoreRetryCanLock |
| Snoop_Based_Coherence/src/mem-system/module.c:2258-2266 | In the downward check below a Shared or Owned issuer, the state is compared without testing for a hit. On a miss `mod_find_block` leaves the state unwritten (Snoop_Based_Coherence/src/mem-system/module.c:288-296), so an uninitialised value is read. | a Shared issuer whose lower cache misses, with a stale local of Shared | A miss reads as Invalid, so the check reports a missing block below. | not executed | Coherence.MissReadsStaleState | Coherence.LocalRuleCorrected |
| Snoop_Based_Coherence/src/mem-system/module.c:45-53 | The access-kind map declares 3 entries but lists 4. "Prefetch" is never found, and an `Access` command naming it is rejected as an invalid access. | the token `Prefetch` | The count is 4, so all four kinds are recognised. | not executed | Command.PrefetchNotRecognised | Command.AccessTokenMeaning |
