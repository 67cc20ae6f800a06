/** The access record of mod-stack.h: a stack carries one access or request through the steps
  * of a handler. Each step ends by naming what happens next (resume at a later step, wait for
  * an older access, start a child request, send a message, return to the parent), which is
  * how the model stands in for the event scheduler and the network. */
module ModStack {
  import opened Wrappers
  import opened States

  /** Where a child request goes: to the module below (`mod_get_low_mod`, up-down) or to the
    * high node with this index (down-up). */
  datatype Toward = Below | Above(node: nat)

  /** The shape of a child stack a step creates (`mod_stack_create` and the flags set on it). */
  datatype Child =
    | FindAndLockChild(addr: nat, blocking: bool, read: bool, write: bool, ncWrite: bool,
                       prefetch: bool, retry: bool, evictTrans: bool, downupRead: bool, downupWb: bool)
    | ReadChild(tag: nat, toward: Toward, ncWrite: bool, prefetch: bool)
    | WriteChild(tag: nat, toward: Toward)
    | EvictChild(si: nat, way: int)
    | InvalidateChild(si: nat, way: int, except: Option<int>)
    | ClearOwnerChild(tag: nat)

  /** What a step leaves scheduled.
    * `Resume`: `esim_schedule_event(event, stack, delay)`.
    * `WaitFor`: `mod_stack_wait_in_stack(stack, older, event)`.
    * `Spawn`: a child stack that returns to `event` of this stack is started.
    * `Fork`: several children are started and this stack also resumes at `event` now.
    * `Send`: `net_try_send_ev` with a message of `size` bytes; the handler resumes at
    * `arrive` once it is delivered, or at `busy` when the network refuses it for now.
    * `Queued`: the stack waits in a port or entry-lock queue and is woken at `event`.
    * `Return`: `mod_stack_return`, back to the parent's return event.
    * `Hold`: nothing is scheduled; children are still pending.
    * `Stop`: `fatal()`. */
  datatype Next =
    | Resume(event: Event, delay: nat)
    | WaitFor(older: StackRef, event: Event)
    | Spawn(child: Child, event: Event)
    | Fork(children: seq<Child>, event: Event)
    | Send(size: nat, arrive: Event, busy: Event)
    | Queued(event: Event)
    | Return
    | Hold
    | Stop(reason: string)

  /** The fields of `struct mod_stack_t` the handler steps read and write. */
  class Stack {
    /** The stack's identity, as the access lists and the lock queues record it. */
    const ref: StackRef
    /** `id`: children share their parent's id. */
    const id: int
    const addr: nat
    /** `ret_stack`: the stack this one returns to, or null for an access from a processor. */
    const ret: Stack?

    var tag: nat
    var si: nat
    var way: int
    var state: BlockState
    var prevState: BlockState
    var srcSet: nat
    var srcWay: int
    var srcTag: nat

    var requestDir: RequestDir
    var reply: Reply
    var replySize: nat
    var pending: nat

    var hit: bool
    var err: bool
    var shared: bool
    var dirty: bool
    var read: bool
    var write: bool
    var ncWrite: bool
    var prefetch: bool
    var blocking: bool
    var eviction: bool
    var retry: bool
    var portLocked: bool
    var readInProgress: bool
    var writeInProgress: bool
    var evictTrans: bool
    var downupRead: bool
    var downupWb: bool
    var downupRegistered: bool
    var updownRegistered: bool
    var evictRegistered: bool

    /** `mod_stack_create`: a stack with every flag clear. */
    constructor (ref: StackRef, id: int, addr: nat, ret: Stack?)
      ensures this.ref == ref && this.id == id && this.addr == addr && this.ret == ret
      ensures state == Invalid && reply == NoReply && replySize == 0 && pending == 0 && way == -1
      ensures !err && !retry && !shared && !dirty && !hit && !eviction && requestDir == NoDir
    {
      this.ref := ref;
      this.id := id;
      this.addr := addr;
      this.ret := ret;
      tag := 0;
      si := 0;
      way := -1;
      state := Invalid;
      prevState := Invalid;
      srcSet := 0;
      srcWay := -1;
      srcTag := 0;
      requestDir := NoDir;
      reply := NoReply;
      replySize := 0;
      pending := 0;
      hit := false;
      err := false;
      shared := false;
      dirty := false;
      read := false;
      write := false;
      ncWrite := false;
      prefetch := false;
      blocking := false;
      eviction := false;
      retry := false;
      portLocked := false;
      readInProgress := false;
      writeInProgress := false;
      evictTrans := false;
      downupRead := false;
      downupWb := false;
      downupRegistered := false;
      updownRegistered := false;
      evictRegistered := false;
    }

    /** The fan-in of a step that waits for its children: it asserts a reply is pending,
      * consumes it, and goes on only when none is left. */
    method Join() returns (proceed: bool)
      requires pending > 0
      modifies `pending
      ensures pending == old(pending) - 1
      ensures proceed <==> pending == 0
      ensures [proceed] == JoinOutcomes(old(pending), 1)
    {
      pending := pending - 1;
      proceed := pending == 0;
    }
  }

  /** One dependency check of a receive step: the stack waits, to retry at `event`, for the
    * older request the check found, and otherwise goes on as `rest` says. */
  function WaitFirst(older: Option<StackRef>, event: Event, rest: Next): (n: Next)
    ensures older.None? ==> n == rest
    ensures older.Some? ==> n.WaitFor? && n.older == older.value && n.event == event
  {
    if older.Some? then WaitFor(older.value, event) else rest
  }

  /** What `k` successive joins report, starting from `pending` outstanding replies. */
  function JoinOutcomes(pending: nat, k: nat): (r: seq<bool>)
    requires k <= pending
    ensures |r| == k
    decreases k
  {
    if k == 0 then [] else [pending == 1] + JoinOutcomes(pending - 1, k - 1)
  }

  /** A fan-out that started `n` children sets `pending` to `1 + n` (one for its own call).
    * Of the `1 + n` joins that follow, exactly the last one goes on. */
  lemma {:induction false} OnlyLastJoinProceeds(n: nat)
    ensures JoinOutcomes(1 + n, 1 + n) == seq(n, _ => false) + [true]
  {
    if n > 0 {
      OnlyLastJoinProceeds(n - 1);
      assert JoinOutcomes(1 + n, 1 + n) == [false] + JoinOutcomes(n, n);
      assert seq(n, _ => false) == [false] + seq(n - 1, _ => false);
    }
  }

  /** Each join outcome is the one the counter gives: join number `j` (from 0) goes on
    * exactly when it consumes the last pending reply. */
  lemma {:induction false} JoinOutcomeAt(pending: nat, k: nat, j: nat)
    requires k <= pending && j < k
    ensures JoinOutcomes(pending, k)[j] <==> j == pending - 1
    decreases k
  {
    if j > 0 {
      JoinOutcomeAt(pending - 1, k - 1, j - 1);
    }
  }
}
