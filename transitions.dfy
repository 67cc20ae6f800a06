/** The per-state rules of the NMOESI protocol (nmoesi-protocol.c): the state a filled line
  * takes, how a holder answers a down-up read or a down-up write, how an eviction is sized
  * and how the lower module absorbs it, and the hit/miss decisions of the access handlers. */
module Transitions {
  import opened Wrappers
  import opened States

  /** A state a fill can leave behind: exclusive or shared, clean or dirty. */
  predicate Filled(s: BlockState)
  {
    s == Modified || s == Owned || s == Exclusive || s == Shared
  }

  /** Other caches may hold copies of a line in this state. */
  predicate SharedState(s: BlockState)
  {
    s == Owned || s == Shared
  }

  /** A line in this state holds data newer than the level below. */
  predicate DirtyState(s: BlockState)
  {
    s == Modified || s == Owned
  }

  /** `cache_block_next_state`: the state a filled line takes from the `shared` and `dirty`
    * flags the reply carried. */
  function NextState(shared: bool, dirty: bool): (s: BlockState)
    ensures s == Owned <==> shared && dirty
    ensures s == Shared <==> shared && !dirty
    ensures s == Modified <==> !shared && dirty
    ensures s == Exclusive <==> !shared && !dirty
    ensures Filled(s) && s != Invalid && s != NonCoherent
  {
    if shared then (if dirty then Owned else Shared)
    else (if dirty then Modified else Exclusive)
  }

  /** The two flags are read back from the state: the flags decide the state and the state
    * decides the flags, so the four filled states are exactly the four flag pairs. */
  lemma NextStateRoundTrip(shared: bool, dirty: bool, s: BlockState)
    ensures NextState(shared, dirty) == s <==> Filled(s) && SharedState(s) == shared && DirtyState(s) == dirty
  {
  }

  /** What a holder answers to a down-up read, and the state its line takes
    * (the READ_REQUEST_DOWNUP_FINISH step). `retShared` and `retDirty` say whether the
    * requester's `shared` and `dirty` flags are raised. */
  datatype ReadAnswer = ReadAnswer(reply: Reply, size: nat, next: BlockState, retShared: bool, retDirty: bool)

  /** A valid holder always answers with the data and gives up exclusivity, keeping its
    * dirtiness; a holder without the line answers with a bare 8-byte ack and is unchanged. */
  function DownUpRead(state: BlockState, blockSize: nat): (a: ReadAnswer)
    ensures a.reply == AckData <==> IsValid(state)
    ensures a.reply == Ack <==> !IsValid(state)
    ensures a.size == (if IsValid(state) then blockSize + 8 else 8)
    ensures a.retShared <==> IsValid(state)
    ensures a.retDirty <==> DirtyState(state)
    ensures a.next != Modified && a.next != Exclusive
    ensures IsValid(a.next) <==> IsValid(state)
    ensures DirtyState(a.next) <==> DirtyState(state)
    ensures a.next == NonCoherent <==> state == NonCoherent
  {
    match state
    case Invalid => ReadAnswer(Ack, 8, Invalid, false, false)
    case Exclusive => ReadAnswer(AckData, blockSize + 8, Shared, true, false)
    case Shared => ReadAnswer(AckData, blockSize + 8, Shared, true, false)
    case Modified => ReadAnswer(AckData, blockSize + 8, Owned, true, true)
    case Owned => ReadAnswer(AckData, blockSize + 8, Owned, true, true)
    case NonCoherent => ReadAnswer(AckData, blockSize + 8, NonCoherent, true, false)
  }

  /** What a holder answers to a down-up write (the WRITE_REQUEST_DOWNUP step); its line is
    * invalidated afterwards whatever it was. */
  datatype WriteAnswer = WriteAnswer(reply: Reply, size: nat, retDirty: bool)

  /** The holder sends its data exactly when the level below lacks it (dirty or
    * non-coherent), and marks the requester dirty exactly when it was dirty. */
  function DownUpWrite(state: BlockState, blockSize: nat): (a: WriteAnswer)
    ensures a.reply == AckData <==> DirtyState(state) || state == NonCoherent
    ensures a.reply == Ack <==> !(DirtyState(state) || state == NonCoherent)
    ensures a.size == (if a.reply == AckData then blockSize + 8 else 8)
    ensures a.retDirty <==> DirtyState(state)
  {
    match state
    case Exclusive => WriteAnswer(Ack, 8, false)
    case Shared => WriteAnswer(Ack, 8, false)
    case NonCoherent => WriteAnswer(AckData, blockSize + 8, false)
    case Modified => WriteAnswer(AckData, blockSize + 8, true)
    case Owned => WriteAnswer(AckData, blockSize + 8, true)
    case Invalid => WriteAnswer(Ack, 8, false)
  }

  /** An eviction message: its size in bytes and the reply kind it carries. */
  datatype EvictMsg = EvictMsg(size: nat, reply: Reply)

  /** The EVICT_ACTION step: an invalid victim sends nothing; a victim with data the lower
    * module lacks sends it (8 + block size bytes), any other valid victim an 8-byte ack. */
  function EvictMessage(state: BlockState, blockSize: nat): (m: Option<EvictMsg>)
    ensures m.None? <==> state == Invalid
    ensures m.Some? ==> (m.value.reply == AckData <==> DirtyState(state) || state == NonCoherent)
    ensures m.Some? && m.value.reply == AckData ==> m.value.size == blockSize + 8
    ensures m.Some? && m.value.reply != AckData ==> m.value.reply == Ack && m.value.size == 8
  {
    if state == Invalid then None
    else if state == Modified || state == Owned || state == NonCoherent then Some(EvictMsg(8 + blockSize, AckData))
    else Some(EvictMsg(8, Ack))
  }

  /** An eviction carries data exactly when an invalidation of the same line would. */
  lemma EvictDataIffInvalidateData(state: BlockState, blockSize: nat)
    requires IsValid(state)
    ensures EvictMessage(state, blockSize).value.reply == DownUpWrite(state, blockSize).reply
    ensures EvictMessage(state, blockSize).value.size == DownUpWrite(state, blockSize).size
  {
  }

  /** The EVICT_PROCESS step at the lower module: `Ok(None)` leaves the line as it is,
    * `Ok(Some(s))` sets it to `s`; any other combination is fatal. */
  function EvictAbsorb(reply: Reply, target: BlockState): (r: Result<Option<BlockState>>)
    ensures reply == Ack ==> r == Ok(None)
    ensures reply == AckData ==> (r.Ok? <==> IsValid(target))
    ensures reply == AckData && r.Ok? ==> r.value.Some?
    ensures reply != Ack && reply != AckData ==> r.Fatal?
  {
    if reply == Ack then Ok(None)
    else if reply == AckData then
      if target == Exclusive || target == Modified then Ok(Some(Modified))
      else if target == Shared || target == Owned then Ok(Some(Owned))
      else if target == NonCoherent then Ok(Some(NonCoherent))
      else Fatal("Invalid cache block state")
    else Fatal("Invalid cache block state")
  }

  /** Absorbing evicted data makes a coherent line dirty and keeps whether it is shared; a
    * non-coherent line stays non-coherent. */
  lemma EvictAbsorbMeaning(target: BlockState)
    requires IsValid(target)
    ensures var r := EvictAbsorb(AckData, target);
      r.Ok? && r.value.Some? &&
      (target == NonCoherent ==> r.value.value == NonCoherent) &&
      (target != NonCoherent ==> DirtyState(r.value.value) && SharedState(r.value.value) == SharedState(target))
  {
  }

  /** The EVICT_PROCESS_NONCOHERENT step, taken when the victim was non-coherent: only a data
    * reply is expected; an exclusive line becomes modified, a dirty one is kept, a shared or
    * non-coherent one becomes non-coherent. */
  function EvictAbsorbNonCoherent(reply: Reply, target: BlockState): (r: Result<Option<BlockState>>)
    ensures r.Ok? <==> reply == AckData && IsValid(target)
    ensures r.Ok? && DirtyState(target) ==> r.value.None?
    ensures r.Ok? && !DirtyState(target) ==> r.value.Some? && IsValid(r.value.value) && !SharedState(r.value.value)
  {
    if reply == AckData then
      if target == Exclusive then Ok(Some(Modified))
      else if target == Owned || target == Modified then Ok(None)
      else if target == Shared || target == NonCoherent then Ok(Some(NonCoherent))
      else Fatal("Invalid cache block state")
    else Fatal("Invalid cache block state")
  }

  /** The whole eviction of a valid victim into the lower module: the message it sends and
    * the step the lower module takes with it (EVICT_RECEIVE picks the step by the victim). */
  function EvictInto(victim: BlockState, target: BlockState, blockSize: nat): (r: Result<Option<BlockState>>)
    requires IsValid(victim)
  {
    var m := EvictMessage(victim, blockSize).value;
    if victim == NonCoherent then EvictAbsorbNonCoherent(m.reply, target)
    else EvictAbsorb(m.reply, target)
  }

  /** An eviction into a lower line that holds the block never stops the simulation, and
    * the lower line then holds the victim's data: dirty data stays dirty below. An
    * eviction whose victim carries data into a lower line without the block is fatal. */
  lemma EvictIntoInclusive(victim: BlockState, target: BlockState, blockSize: nat)
    requires IsValid(victim)
    ensures IsValid(target) ==> EvictInto(victim, target, blockSize).Ok?
    ensures !IsValid(target) && (DirtyState(victim) || victim == NonCoherent) ==>
      EvictInto(victim, target, blockSize).Fatal?
    ensures IsValid(target) && DirtyState(victim) ==>
      var r := EvictInto(victim, target, blockSize).value;
      (r.Some? && (DirtyState(r.value) || r.value == NonCoherent)) || (r.None? && DirtyState(target))
  {
  }

  /** The LOAD_ACTION decision: any valid line, non-coherent included, is a hit. */
  function LoadHits(state: BlockState): (hit: bool)
    ensures hit <==> Filled(state) || state == NonCoherent
  {
    state != Invalid
  }

  /** The STORE_ACTION decision: a store needs no write request exactly when the line is held
    * exclusively, which are the states a fill without sharers produces. */
  function StoreHits(state: BlockState): (hit: bool)
    ensures hit <==> Filled(state) && !SharedState(state)
    ensures hit <==> exists d: bool :: NextState(false, d) == state
  {
    assert NextState(false, true) == Modified && NextState(false, false) == Exclusive;
    state == Modified || state == Exclusive
  }

  /** What the NC_STORE_ACTION step does once the line is locked. */
  datatype NCAction = NCUnlock | NCClearOwner | NCReadRequest

  /** Main memory, and a line that is shared or non-coherent, need no traffic; an exclusive
    * line sends a clear-owner message; a dirty or missing line issues a read request. */
  function NCStoreDecision(state: BlockState, mainMemory: bool): (a: NCAction)
    ensures a == NCUnlock <==> mainMemory || state == Shared || state == NonCoherent
    ensures a == NCClearOwner <==> !mainMemory && state == Exclusive
    ensures a == NCReadRequest <==> !mainMemory && (DirtyState(state) || state == Invalid)
  {
    if mainMemory then NCUnlock
    else if state == Shared || state == NonCoherent then NCUnlock
    else if state == Exclusive then NCClearOwner
    else NCReadRequest
  }

  /** The NC_STORE_WRITEBACK decision: a dirty line is evicted before the non-coherent
    * store proceeds. */
  function NCStoreEvicts(state: BlockState): (evict: bool)
    ensures evict <==> DirtyState(state)
  {
    state == Modified || state == Owned
  }

  /** The WRITE_REQUEST_UPDOWN decision: a lower module holding the line exclusively answers
    * at once; any other state first asks the level below it. */
  function WriteUpDownAsksBelow(state: BlockState): (ask: bool)
    ensures ask <==> !StoreHits(state)
  {
    !(state == Modified || state == Exclusive)
  }

  /** The shared flag the up-down read hands back (READ_REQUEST_UPDOWN_FINISH), given whether
    * some sub-block of the requester's block lies in the line: any other copy, a
    * non-coherent store, or a line held shared, owned or non-coherent makes it shared. */
  function UpDownShared(anySubBlock: bool, ncWrite: bool, shared: bool, state: BlockState): (r: bool)
    ensures r ==> anySubBlock
    ensures anySubBlock && (SharedState(state) || state == NonCoherent) ==> r
    ensures anySubBlock && Filled(state) && !SharedState(state) ==> (r <==> ncWrite || shared)
  {
    anySubBlock && (ncWrite || shared || state == Owned || state == NonCoherent || state == Shared)
  }

  /** A requester filled from an up-down read whose answer was shared becomes Shared or
    * Owned; without sharers it becomes exclusive (E or M). */
  lemma UpDownFillState(anySubBlock: bool, ncWrite: bool, shared: bool, state: BlockState, dirty: bool)
    ensures var s := NextState(UpDownShared(anySubBlock, ncWrite, shared, state), dirty);
      SharedState(s) <==> UpDownShared(anySubBlock, ncWrite, shared, state)
  {
  }
}
