/** The cache of one module (cache.h) and the lookup `mod_find_block` of module.c, in both the
  * snooping and the directory variant. The blocks and their entry locks are fixed-size
  * (set, way) buffers that the operations update in place. */
module CacheStore {
  import opened Wrappers
  import opened States
  import opened Addressing

  /** `cache_block_t` without the LRU links: the stored tag, the tag of an access that holds the
    * entry while the block is in transition, the state and the `prefetched` flag. */
  datatype Block = Block(tag: nat, transientTag: int, state: BlockState, prefetched: bool)

  /** An access waiting for an entry lock, with the event it resumes at. */
  datatype Waiter = Waiter(stack: StackRef, event: Event)

  /** `cache_lock_t`: held flag, the holder's stack id, and the queue of waiting accesses. */
  datatype EntryLock = EntryLock(locked: bool, holderId: int, queue: seq<Waiter>)

  /** `cache_entry_lock` on one lock: a free entry is taken by the holder, a held one queues
    * the waiter at the tail. The first component says whether the lock was taken. */
  function TryLock(l: EntryLock, w: Waiter, holderId: int): (r: (bool, EntryLock))
    ensures r.0 <==> !l.locked
    ensures r.1.locked
    ensures r.0 ==> r.1 == EntryLock(true, holderId, l.queue)
    ensures !r.0 ==> r.1.holderId == l.holderId && r.1.queue == l.queue + [w]
  {
    if l.locked then (false, l.(queue := l.queue + [w])) else (true, EntryLock(true, holderId, l.queue))
  }

  /** `cache_entry_unlock` on one lock: the entry is released and the head of its queue, if
    * any, is handed back to be woken. */
  function ReleaseLock(l: EntryLock): (r: (Option<Waiter>, EntryLock))
    ensures !r.1.locked && r.1.holderId == l.holderId
    ensures l.queue == [] ==> r.0.None? && r.1.queue == []
    ensures l.queue != [] ==> r.0 == Some(l.queue[0]) && r.1.queue == l.queue[1..]
  {
    if |l.queue| == 0 then (None, l.(locked := false))
    else (Some(l.queue[0]), l.(locked := false, queue := l.queue[1..]))
  }

  /** Waiters are woken first come, first served: a waiter that queues on a held entry whose
    * queue already holds `k` waiters is handed back by the `k + 1`-th release after it. */
  lemma {:induction false} QueuedWaiterWokenInTurn(l: EntryLock, w: Waiter, id: int)
    requires l.locked
    ensures var q := TryLock(l, w, id).1;
      !TryLock(l, w, id).0 && Releases(q, |l.queue|).queue == [w] && ReleaseLock(Releases(q, |l.queue|)).0 == Some(w)
  {
    ReleasesDrop(TryLock(l, w, id).1, |l.queue|);
    assert (l.queue + [w])[|l.queue|..] == [w];
  }

  /** The lock after `n` releases with nobody taking it in between. */
  function Releases(l: EntryLock, n: nat): (r: EntryLock)
    requires n <= |l.queue|
    decreases n
  {
    if n == 0 then l else Releases(ReleaseLock(l).1, n - 1)
  }

  lemma {:induction false} ReleasesDrop(l: EntryLock, n: nat)
    requires n <= |l.queue|
    ensures Releases(l, n).queue == l.queue[n..]
    decreases n
  {
    if n > 0 {
      ReleasesDrop(ReleaseLock(l).1, n - 1);
      assert l.queue[1..][n - 1..] == l.queue[n..];
    }
  }

  /** The outcome of `mod_find_block`. Set and tag are always computed; way and state only on a
    * hit, so a miss carries neither. */
  datatype Lookup =
    | Hit(si: nat, tag: nat, way: nat, state: BlockState)
    | Miss(si: nat, tag: nat)

  /** The snooping lookup: a way hits when it holds the tag in a valid state. */
  predicate TagHit(b: Block, tag: int)
  {
    b.tag == tag && b.state != Invalid
  }

  /** The directory lookup also hits a way whose transient tag is the tag while its
    * directory entry is locked. */
  predicate DirectoryHit(b: Block, tag: int, entryLocked: bool)
  {
    TagHit(b, tag) || (b.transientTag == tag && entryLocked)
  }

  /** The first way of a set at which the lookup stops, or None when it runs off the end. */
  function FirstHit(row: seq<Block>, dirLocked: seq<bool>, tag: int): (r: Option<nat>)
    requires |dirLocked| == |row|
    ensures r.Some? ==> r.value < |row| && DirectoryHit(row[r.value], tag, dirLocked[r.value])
    ensures r.Some? ==> forall w :: 0 <= w < r.value ==> !DirectoryHit(row[w], tag, dirLocked[w])
    ensures r.None? <==> forall w :: 0 <= w < |row| ==> !DirectoryHit(row[w], tag, dirLocked[w])
  {
    if |row| == 0 then None
    else if DirectoryHit(row[0], tag, dirLocked[0]) then Some(0)
    else match FirstHit(row[1..], dirLocked[1..], tag)
      case None => None
      case Some(w) => Some(w + 1)
  }

  /** No directory entry of the set is locked: the snooping lookup. */
  function NoLocks(n: nat): (r: seq<bool>)
    ensures |r| == n && forall w :: 0 <= w < n ==> !r[w]
  {
    seq(n, _ => false)
  }

  /** With no entry locked, the directory rule is the snooping rule. */
  lemma NoLocksIsTagHit(row: seq<Block>, tag: int, w: nat)
    requires w < |row|
    ensures DirectoryHit(row[w], tag, NoLocks(|row|)[w]) <==> TagHit(row[w], tag)
  {
  }

  /** The directory lookup stops no later than the snooping lookup, and the two agree when
    * no way of the set holds the tag as a transient tag under a held lock. */
  lemma DirectoryHitsNoLater(row: seq<Block>, dirLocked: seq<bool>, tag: int)
    requires |dirLocked| == |row|
    ensures FirstHit(row, NoLocks(|row|), tag).Some? ==>
      FirstHit(row, dirLocked, tag).Some?
      && FirstHit(row, dirLocked, tag).value <= FirstHit(row, NoLocks(|row|), tag).value
    ensures (forall w :: 0 <= w < |row| ==> !(row[w].transientTag == tag && dirLocked[w])) ==>
      FirstHit(row, dirLocked, tag) == FirstHit(row, NoLocks(|row|), tag)
  {
    var snoop := FirstHit(row, NoLocks(|row|), tag);
    var dir := FirstHit(row, dirLocked, tag);
    if snoop.Some? {
      assert DirectoryHit(row[snoop.value], tag, dirLocked[snoop.value]);
    }
    if forall w :: 0 <= w < |row| ==> !(row[w].transientTag == tag && dirLocked[w]) {
      if dir.Some? {
        assert DirectoryHit(row[dir.value], tag, NoLocks(|row|)[dir.value]);
      }
      if snoop.Some? && dir.Some? {
        if dir.value < snoop.value {
          assert DirectoryHit(row[dir.value], tag, NoLocks(|row|)[dir.value]);
        }
      }
    }
  }

  class Cache {
    const numSets: nat
    const assoc: nat
    const logBlockSize: nat
    /** `sets[set].blocks[way]`. */
    const blocks: array2<Block>
    /** `cache_lock_get(cache, set, way)`: one lock per entry. */
    const locks: array2<EntryLock>

    ghost predicate Valid()
      reads this
    {
      GeometryOk(Geometry(numSets, assoc, logBlockSize))
      && blocks.Length0 == numSets && blocks.Length1 == assoc
      && locks.Length0 == numSets && locks.Length1 == assoc
    }

    function Shape(): Geometry
      reads this
    {
      Geometry(numSets, assoc, logBlockSize)
    }

    constructor (numSets: nat, assoc: nat, logBlockSize: nat)
      requires GeometryOk(Geometry(numSets, assoc, logBlockSize))
      ensures Valid()
      ensures this.numSets == numSets && this.assoc == assoc && this.logBlockSize == logBlockSize
      ensures forall s, w :: 0 <= s < numSets && 0 <= w < assoc ==>
        blocks[s, w].state == Invalid && !locks[s, w].locked && locks[s, w].queue == []
      ensures fresh(blocks) && fresh(locks)
    {
      this.numSets := numSets;
      this.assoc := assoc;
      this.logBlockSize := logBlockSize;
      blocks := new Block[numSets, assoc]((_, _) => Block(0, 0, Invalid, false));
      locks := new EntryLock[numSets, assoc]((_, _) => EntryLock(false, 0, []));
    }

    /** The blocks of one set, in way order. */
    function Row(si: nat): (row: seq<Block>)
      requires Valid() && si < numSets
      reads this, blocks
      ensures |row| == assoc && forall w :: 0 <= w < assoc ==> row[w] == blocks[si, w]
    {
      seq(assoc, w requires 0 <= w < assoc reads blocks => blocks[si, w])
    }

    /** What `mod_find_block` computes for `addr` under the module's range and the directory
      * locks of the entries (all false for the snooping variant). */
    function LookupSpec(r: Range, addr: nat, dirLocked: seq<seq<bool>>): Result<Lookup>
      requires Valid() && RangeOk(r)
      requires |dirLocked| == numSets && forall s :: 0 <= s < numSets ==> |dirLocked[s]| == assoc
      reads this, blocks
    {
      var tag := BlockTag(Shape(), addr);
      match SetIndex(Shape(), r, tag)
      case Fatal(m) => Fatal(m)
      case Ok(si) =>
        match FirstHit(Row(si), dirLocked[si], tag)
        case None => Ok(Miss(si, tag))
        case Some(w) => Ok(Hit(si, tag, w, blocks[si, w].state))
    }

    /** The directory variant of `mod_find_block`: a linear scan of the ways of one set that
      * stops at a tag hit or at a transient-tag hit of a locked entry. */
    method FindBlockDirectory(r: Range, addr: nat, dirLocked: seq<seq<bool>>) returns (res: Result<Lookup>)
      requires Valid() && RangeOk(r)
      requires |dirLocked| == numSets && forall s :: 0 <= s < numSets ==> |dirLocked[s]| == assoc
      ensures res == LookupSpec(r, addr, dirLocked)
      ensures res.Fatal? <==> r.NoRange?
      ensures res.Ok? ==> res.value.si < numSets && res.value.tag == BlockTag(Shape(), addr)
      ensures res.Ok? && res.value.Hit? ==>
        res.value.way < assoc
        && DirectoryHit(blocks[res.value.si, res.value.way], res.value.tag, dirLocked[res.value.si][res.value.way])
        && res.value.state == blocks[res.value.si, res.value.way].state
      ensures res.Ok? && res.value.Miss? ==>
        forall w :: 0 <= w < assoc ==>
          !DirectoryHit(blocks[res.value.si, w], res.value.tag, dirLocked[res.value.si][w])
    {
      var tag := BlockTag(Shape(), addr);
      var s := SetIndex(Shape(), r, tag);
      if s.Fatal? {
        return Fatal(s.reason);
      }
      var si := s.value;
      ghost var row := Row(si);
      var way := 0;
      while way < assoc
        invariant 0 <= way <= assoc
        invariant forall w :: 0 <= w < way ==> !DirectoryHit(row[w], tag, dirLocked[si][w])
      {
        var b := blocks[si, way];
        if TagHit(b, tag) || (b.transientTag == tag && dirLocked[si][way]) {
          assert FirstHit(row, dirLocked[si], tag) == Some(way);
          return Ok(Hit(si, tag, way, b.state));
        }
        way := way + 1;
      }
      return Ok(Miss(si, tag));
    }

    /** The snooping `mod_find_block`: the first way holding the tag in a valid state. */
    method FindBlock(r: Range, addr: nat) returns (res: Result<Lookup>)
      requires Valid() && RangeOk(r)
      ensures res == LookupSpec(r, addr, seq(numSets, _ => NoLocks(assoc)))
      ensures res.Fatal? <==> r.NoRange?
      ensures res.Ok? ==> res.value.si < numSets && res.value.tag == BlockTag(Shape(), addr)
      ensures res.Ok? && res.value.Hit? ==>
        res.value.way < assoc && TagHit(blocks[res.value.si, res.value.way], res.value.tag)
        && res.value.state == blocks[res.value.si, res.value.way].state
        && res.value.state != Invalid
        && forall w :: 0 <= w < res.value.way ==> !TagHit(blocks[res.value.si, w], res.value.tag)
      ensures res.Ok? && res.value.Miss? ==>
        forall w :: 0 <= w < assoc ==> !TagHit(blocks[res.value.si, w], res.value.tag)
    {
      var none := seq(numSets, _ => NoLocks(assoc));
      res := FindBlockDirectory(r, addr, none);
      if res.Ok? {
        var si := res.value.si;
        var row := Row(si);
        assert none[si] == NoLocks(|row|);
        forall w | 0 <= w < assoc
          ensures DirectoryHit(blocks[si, w], res.value.tag, none[si][w]) <==> TagHit(blocks[si, w], res.value.tag)
        {
          NoLocksIsTagHit(row, res.value.tag, w);
        }
        if res.value.Hit? {
          ghost var f := FirstHit(row, none[si], res.value.tag);
          assert f == Some(res.value.way);
        }
      }
    }

    /** `cache_set_block`: store tag and state in one entry; nothing else changes. */
    method SetBlock(si: nat, way: nat, tag: nat, state: BlockState)
      requires Valid() && si < numSets && way < assoc
      modifies blocks
      ensures blocks[si, way] == old(blocks[si, way]).(tag := tag, state := state)
      ensures forall s, w :: 0 <= s < numSets && 0 <= w < assoc && (s != si || w != way) ==>
        blocks[s, w] == old(blocks[s, w])
    {
      blocks[si, way] := blocks[si, way].(tag := tag, state := state);
    }

    /** `cache_set_transient_tag`. */
    method SetTransientTag(si: nat, way: nat, tag: int)
      requires Valid() && si < numSets && way < assoc
      modifies blocks
      ensures blocks[si, way] == old(blocks[si, way]).(transientTag := tag)
      ensures forall s, w :: 0 <= s < numSets && 0 <= w < assoc && (s != si || w != way) ==>
        blocks[s, w] == old(blocks[s, w])
    {
      blocks[si, way] := blocks[si, way].(transientTag := tag);
    }

    /** `mod_block_set_prefetched` on an entry already found. */
    method SetPrefetched(si: nat, way: nat, val: bool)
      requires Valid() && si < numSets && way < assoc
      modifies blocks
      ensures blocks[si, way] == old(blocks[si, way]).(prefetched := val)
      ensures forall s, w :: 0 <= s < numSets && 0 <= w < assoc && (s != si || w != way) ==>
        blocks[s, w] == old(blocks[s, w])
    {
      blocks[si, way] := blocks[si, way].(prefetched := val);
    }

    /** `cache_entry_lock`: take a free entry (true), or join the entry's queue (false). */
    method EntryLockTry(si: nat, way: nat, event: Event, stack: StackRef, stackId: int) returns (acquired: bool)
      requires Valid() && si < numSets && way < assoc
      modifies locks
      ensures acquired <==> !old(locks[si, way]).locked
      ensures acquired ==> locks[si, way] == EntryLock(true, stackId, old(locks[si, way]).queue)
      ensures !acquired ==>
        locks[si, way] == old(locks[si, way]).(queue := old(locks[si, way]).queue + [Waiter(stack, event)])
      ensures (acquired, locks[si, way]) == TryLock(old(locks[si, way]), Waiter(stack, event), stackId)
      ensures forall s, w :: 0 <= s < numSets && 0 <= w < assoc && (s != si || w != way) ==>
        locks[s, w] == old(locks[s, w])
    {
      var l := locks[si, way];
      if l.locked {
        locks[si, way] := l.(queue := l.queue + [Waiter(stack, event)]);
        acquired := false;
      } else {
        locks[si, way] := EntryLock(true, stackId, l.queue);
        acquired := true;
      }
    }

    /** `cache_entry_unlock`: release the entry and hand back the head of its queue, whose
      * event the caller schedules; waiters are woken in the order they queued. */
    method EntryUnlock(si: nat, way: nat) returns (woken: Option<Waiter>)
      requires Valid() && si < numSets && way < assoc
      modifies locks
      ensures old(locks[si, way]).queue == [] ==> woken.None? && locks[si, way].queue == []
      ensures old(locks[si, way]).queue != [] ==>
        woken == Some(old(locks[si, way]).queue[0]) && locks[si, way].queue == old(locks[si, way]).queue[1..]
      ensures !locks[si, way].locked && locks[si, way].holderId == old(locks[si, way]).holderId
      ensures (woken, locks[si, way]) == ReleaseLock(old(locks[si, way]))
      ensures forall s, w :: 0 <= s < numSets && 0 <= w < assoc && (s != si || w != way) ==>
        locks[s, w] == old(locks[s, w])
    {
      var l := locks[si, way];
      if |l.queue| == 0 {
        woken := None;
      } else {
        woken := Some(l.queue[0]);
        l := l.(queue := l.queue[1..]);
      }
      locks[si, way] := l.(locked := false);
    }
  }
}
