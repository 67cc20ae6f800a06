/** The enumerations shared by the cache, the module and the access record
  * (cache.h, module.h, mod-stack.h). Each carries the integer code the C enum gives it. */
module States {
  import opened Wrappers

  /** `cache_block_state_t`: six states, Invalid is 0, so a nonzero state means a valid line. */
  datatype BlockState = Invalid | NonCoherent | Modified | Owned | Exclusive | Shared

  function StateCode(s: BlockState): (c: nat)
    ensures c < 6
    ensures (c == 0) <==> s == Invalid
  {
    match s
    case Invalid => 0
    case NonCoherent => 1
    case Modified => 2
    case Owned => 3
    case Exclusive => 4
    case Shared => 5
  }

  function StateOfCode(c: nat): (r: Option<BlockState>)
    ensures r.Some? <==> c < 6
    ensures r.Some? ==> StateCode(r.value) == c
  {
    if c == 0 then Some(Invalid)
    else if c == 1 then Some(NonCoherent)
    else if c == 2 then Some(Modified)
    else if c == 3 then Some(Owned)
    else if c == 4 then Some(Exclusive)
    else if c == 5 then Some(Shared)
    else None
  }

  predicate IsValid(s: BlockState) { s != Invalid }

  /** `mod_access_kind_t`: `NoAccess` is `mod_access_invalid` (0); a recorded access has another kind. */
  datatype AccessKind = NoAccess | Load | Store | NCStore | Prefetch

  function AccessKindCode(k: AccessKind): (c: nat)
    ensures c < 5
    ensures (c == 0) <==> k == NoAccess
  {
    match k
    case NoAccess => 0
    case Load => 1
    case Store => 2
    case NCStore => 3
    case Prefetch => 4
  }

  /** `mod_request_dir_t`. */
  datatype RequestDir = NoDir | UpDown | DownUp

  /** `mod_reply_type_t`. */
  datatype Reply = NoReply | Ack | AckData | AckDataSentToPeer | AckError

  function ReplyCode(r: Reply): (c: nat)
    ensures c < 5
    ensures (c == 0) <==> r == NoReply
  {
    match r
    case NoReply => 0
    case Ack => 1
    case AckData => 2
    case AckDataSentToPeer => 3
    case AckError => 4
  }

  /** `mod_stack_set_reply`: a stack's reply only moves to a reply of a higher code, so the
    * replies of several children combine to the highest of them and an error, once set,
    * stays. */
  function SetReply(cur: Reply, r: Reply): (n: Reply)
    ensures n == cur || n == r
    ensures ReplyCode(cur) <= ReplyCode(n) && ReplyCode(r) <= ReplyCode(n)
  {
    if ReplyCode(r) > ReplyCode(cur) then r else cur
  }

  /** The reply a fan-out ends with does not depend on the order its children answer in. */
  lemma SetReplyOrderFree(cur: Reply, a: Reply, b: Reply)
    ensures SetReply(SetReply(cur, a), b) == SetReply(SetReply(cur, b), a)
  {
  }

  /** `mod_message_type_t`. */
  datatype Message = NoMessage | ClearOwner

  /** A stack (`struct mod_stack_t *`) by identity. Child stacks share their parent's `id`,
    * so the pointer and the id are kept apart. */
  type StackRef = nat

  /** The handler steps (`EV_MOD_NMOESI_*`). */
  datatype Event =
    | EvLoadStart | EvLoadLock | EvLoadAction | EvLoadMiss | EvLoadUnlock | EvLoadFinish
    | EvStoreStart | EvStoreLock | EvStoreAction | EvStoreUnlock | EvStoreFinish
    | EvNCStoreStart | EvNCStoreLock | EvNCStoreWriteback | EvNCStoreAction | EvNCStoreMiss | EvNCStoreUnlock | EvNCStoreFinish
    | EvPrefetchStart | EvPrefetchLock | EvPrefetchAction | EvPrefetchMiss | EvPrefetchUnlock | EvPrefetchFinish
    | EvFindAndLock | EvFindAndLockPort | EvFindAndLockAction | EvFindAndLockFinish
    | EvEvict | EvEvictInvalid | EvEvictAction | EvEvictReceive | EvEvictProcess | EvEvictProcessNonCoherent
    | EvEvictReply | EvEvictReplyReceive | EvEvictFinish
    | EvReadRequest | EvReadRequestReceive | EvReadRequestAction | EvReadRequestUpDown | EvReadRequestUpDownMiss
    | EvReadRequestUpDownFinish | EvReadRequestDownUp | EvReadRequestDownUpWaitForReqs | EvReadRequestDownUpFinish
    | EvReadRequestReply | EvReadRequestFinish
    | EvWriteRequest | EvWriteRequestReceive | EvWriteRequestAction | EvWriteRequestExclusive | EvWriteRequestUpDown
    | EvWriteRequestUpDownFinish | EvWriteRequestDownUp | EvWriteRequestDownUpFinish | EvWriteRequestReply
    | EvWriteRequestFinish
    | EvInvalidateStart | EvInvalidateFinish
    | EvMessageStart
}
