/** The in-flight access index of a module (module.h: access list, write access list, the
  * access hash table and `access_list_coalesced_count`) with `mod_access_start/finish`, the
  * `mod_in_flight_*` searches, `mod_can_coalesce`, `mod_coalesce` and `mod_can_access`.
  * The intrusive doubly-linked lists are sequences in list order, head first. */
module AccessIndex {
  import opened Wrappers
  import opened States
  import opened Addressing

  /** The fields of an access that are fixed when it is recorded: `id`, `access_kind`, `addr`. */
  datatype Meta = Meta(id: int, kind: AccessKind, addr: nat)

  /** The fields that change while it is in flight: `coalesced`, `master_stack`, `port_locked`. */
  datatype Flags = Flags(coalesced: bool, master: Option<StackRef>, portLocked: bool)

  /** What the lists and searches select: stores (the write access list), the accesses of one
    * hash bucket, the accesses to the block of an address, the accesses carrying an id, and
    * the accesses to the block of an address carrying another id. */
  datatype Criterion = IsStore | InBucket(b: nat) | SameBlockAs(addr: nat) | HasId(id: int)
                     | OtherSameBlock(addr: nat, other: int)

  predicate Meets(m: Meta, logBlockSize: nat, c: Criterion)
  {
    match c
    case IsStore => m.kind == Store
    case InBucket(b) => BucketIndex(logBlockSize, m.addr) == b
    case SameBlockAs(a) => SameBlock(logBlockSize, m.addr, a)
    case HasId(id) => m.id == id
    case OtherSameBlock(a, id) => m.id != id && SameBlock(logBlockSize, m.addr, a)
  }

  ghost predicate Known<V>(xs: seq<StackRef>, m: map<StackRef, V>)
  {
    forall x :: x in xs ==> x in m
  }

  /** No access appears twice: each one is absent from the list before it. */
  ghost predicate Distinct(xs: seq<StackRef>)
  {
    |xs| == 0 || (xs[|xs| - 1] !in xs[..|xs| - 1] && Distinct(xs[..|xs| - 1]))
  }

  /** The sub-list of `xs` meeting a criterion, in list order. */
  function Filter(xs: seq<StackRef>, meta: map<StackRef, Meta>, log: nat, c: Criterion): (r: seq<StackRef>)
    requires Known(xs, meta)
    ensures |r| <= |xs|
  {
    if |xs| == 0 then []
    else
      var last := xs[|xs| - 1];
      assert xs == xs[..|xs| - 1] + [last];
      Filter(xs[..|xs| - 1], meta, log, c) + (if Meets(meta[last], log, c) then [last] else [])
  }

  /** `DOUBLE_LINKED_LIST_REMOVE`: the list without `s`. */
  function Without(xs: seq<StackRef>, s: StackRef): (r: seq<StackRef>)
    ensures |r| <= |xs|
  {
    if |xs| == 0 then []
    else
      var last := xs[|xs| - 1];
      assert xs == xs[..|xs| - 1] + [last];
      Without(xs[..|xs| - 1], s) + (if last == s then [] else [last])
  }

  /** An access is selected exactly when it is in the list and meets the criterion. */
  lemma {:induction false} FilterMember(xs: seq<StackRef>, meta: map<StackRef, Meta>, log: nat, c: Criterion, x: StackRef)
    requires Known(xs, meta)
    ensures x in Filter(xs, meta, log, c) <==> x in xs && Meets(meta[x], log, c)
    decreases |xs|
  {
    if |xs| > 0 {
      var init := xs[..|xs| - 1];
      assert xs == init + [xs[|xs| - 1]];
      FilterMember(init, meta, log, c, x);
    }
  }

  lemma {:induction false} WithoutMember(xs: seq<StackRef>, s: StackRef, x: StackRef)
    ensures x in Without(xs, s) <==> x in xs && x != s
    decreases |xs|
  {
    if |xs| > 0 {
      var init := xs[..|xs| - 1];
      assert xs == init + [xs[|xs| - 1]];
      WithoutMember(init, s, x);
    }
  }

  lemma {:induction false} WithoutAbsent(xs: seq<StackRef>, s: StackRef)
    requires s !in xs
    ensures Without(xs, s) == xs
    decreases |xs|
  {
    if |xs| > 0 {
      var init := xs[..|xs| - 1];
      assert xs == init + [xs[|xs| - 1]];
      WithoutAbsent(init, s);
    }
  }

  lemma {:induction false} KnownWithout<V>(xs: seq<StackRef>, s: StackRef, m: map<StackRef, V>)
    requires Known(xs, m)
    ensures Known(Without(xs, s), m)
  {
    forall x | x in Without(xs, s)
      ensures x in m
    {
      WithoutMember(xs, s, x);
    }
  }

  lemma FilterAppendOne(xs: seq<StackRef>, s: StackRef, meta: map<StackRef, Meta>, log: nat, c: Criterion)
    requires Known(xs, meta) && s in meta
    ensures Known(xs + [s], meta)
    ensures Filter(xs + [s], meta, log, c) == Filter(xs, meta, log, c) + (if Meets(meta[s], log, c) then [s] else [])
  {
    assert (xs + [s])[..|xs|] == xs;
  }

  lemma {:induction false} FilterConcat(a: seq<StackRef>, b: seq<StackRef>, meta: map<StackRef, Meta>, log: nat, c: Criterion)
    requires Known(a, meta) && Known(b, meta)
    ensures Known(a + b, meta)
    ensures Filter(a + b, meta, log, c) == Filter(a, meta, log, c) + Filter(b, meta, log, c)
    decreases |b|
  {
    if |b| == 0 {
      assert a + b == a;
    } else {
      var b', last := b[..|b| - 1], b[|b| - 1];
      assert b == b' + [last];
      assert a + b == (a + b') + [last];
      assert Known(b', meta);
      FilterConcat(a, b', meta, log, c);
      FilterAppendOne(a + b', last, meta, log, c);
      FilterAppendOne(b', last, meta, log, c);
    }
  }

  lemma {:induction false} WithoutConcat(a: seq<StackRef>, b: seq<StackRef>, s: StackRef)
    ensures Without(a + b, s) == Without(a, s) + Without(b, s)
    decreases |b|
  {
    if |b| > 0 {
      var b' := b[..|b| - 1];
      assert (a + b)[..|a + b| - 1] == a + b';
      WithoutConcat(a, b', s);
    } else {
      assert a + b == a;
    }
  }

  /** Removing an access and then selecting is selecting and then removing it. */
  lemma {:induction false} FilterWithout(xs: seq<StackRef>, s: StackRef, meta: map<StackRef, Meta>, log: nat, c: Criterion)
    requires Known(xs, meta)
    ensures Known(Without(xs, s), meta)
    ensures Filter(Without(xs, s), meta, log, c) == Without(Filter(xs, meta, log, c), s)
    decreases |xs|
  {
    KnownWithout(xs, s, meta);
    if |xs| > 0 {
      KnownWithout(xs[..|xs| - 1], s, meta);
      var init, last := xs[..|xs| - 1], xs[|xs| - 1];
      assert Known(init, meta);
      FilterWithout(init, s, meta, log, c);
      var tl := if last == s then [] else [last];
      assert Known(tl, meta);
      FilterConcat(Without(init, s), tl, meta, log, c);
      var ft := if Meets(meta[last], log, c) then [last] else [];
      WithoutConcat(Filter(init, meta, log, c), ft, s);
      assert Without(ft, s) == Filter(tl, meta, log, c) by {
        if |ft| == 1 {
          assert ft[..0] == [];
        }
        if |tl| == 1 {
          assert tl[..0] == [];
        }
      }
    }
  }

  /** Selection only looks at the entries of `xs`. */
  lemma {:induction false} FilterSameMeta(xs: seq<StackRef>, meta: map<StackRef, Meta>, meta': map<StackRef, Meta>, log: nat, c: Criterion)
    requires Known(xs, meta) && forall x :: x in xs ==> x in meta' && meta'[x] == meta[x]
    ensures Known(xs, meta')
    ensures Filter(xs, meta', log, c) == Filter(xs, meta, log, c)
    decreases |xs|
  {
    if |xs| > 0 {
      FilterSameMeta(xs[..|xs| - 1], meta, meta', log, c);
    }
  }

  lemma {:induction false} DistinctWithout(xs: seq<StackRef>, s: StackRef)
    requires Distinct(xs)
    ensures Distinct(Without(xs, s))
    decreases |xs|
  {
    if |xs| > 0 {
      var init, last := xs[..|xs| - 1], xs[|xs| - 1];
      DistinctWithout(init, s);
      if last != s {
        WithoutMember(init, s, last);
        DistinctAppend(Without(init, s), last);
        assert Without(xs, s) == Without(init, s) + [last];
      } else {
        assert Without(xs, s) == Without(init, s) + [];
        assert Without(init, s) + [] == Without(init, s);
      }
    }
  }

  /** The number of coalesced accesses in a list. */
  function CountCoalesced(xs: seq<StackRef>, flags: map<StackRef, Flags>): (n: nat)
    requires Known(xs, flags)
    ensures n <= |xs|
  {
    if |xs| == 0 then 0
    else
      var last := xs[|xs| - 1];
      assert xs == xs[..|xs| - 1] + [last];
      CountCoalesced(xs[..|xs| - 1], flags) + (if flags[last].coalesced then 1 else 0)
  }

  lemma {:induction false} CountCoalescedAppendOne(xs: seq<StackRef>, s: StackRef, flags: map<StackRef, Flags>)
    requires Known(xs, flags) && s in flags
    ensures Known(xs + [s], flags)
    ensures CountCoalesced(xs + [s], flags) == CountCoalesced(xs, flags) + (if flags[s].coalesced then 1 else 0)
  {
    assert (xs + [s])[..|xs|] == xs;
  }

  /** Removing an access of a list without repeats removes its contribution to the count. */
  lemma {:induction false} CountCoalescedWithout(xs: seq<StackRef>, s: StackRef, flags: map<StackRef, Flags>)
    requires Known(xs, flags) && Distinct(xs) && s in xs
    ensures Known(Without(xs, s), flags)
    ensures CountCoalesced(Without(xs, s), flags) + (if flags[s].coalesced then 1 else 0) == CountCoalesced(xs, flags)
    decreases |xs|
  {
    var init, last := xs[..|xs| - 1], xs[|xs| - 1];
    assert xs == init + [last];
    KnownWithout(xs, s, flags);
    if last == s {
      assert s !in init;
      WithoutAbsent(init, s);
      assert Without(xs, s) == init;
    } else {
      assert s in init;
      KnownWithout(init, s, flags);
      CountCoalescedWithout(init, s, flags);
      CountCoalescedAppendOne(Without(init, s), last, flags);
    }
  }

  /** Changing the entry of one access changes the count by the difference at that access. */
  lemma {:induction false} CountCoalescedUpdate(xs: seq<StackRef>, s: StackRef, f: Flags, flags: map<StackRef, Flags>)
    requires Known(xs, flags) && Distinct(xs) && s in xs
    ensures Known(xs, flags[s := f])
    ensures CountCoalesced(xs, flags[s := f]) + (if flags[s].coalesced then 1 else 0)
         == CountCoalesced(xs, flags) + (if f.coalesced then 1 else 0)
    decreases |xs|
  {
    var init, last := xs[..|xs| - 1], xs[|xs| - 1];
    if last == s {
      assert s !in init;
      CountCoalescedSameFlags(init, flags, flags[s := f]);
    } else {
      CountCoalescedUpdate(init, s, f, flags);
    }
  }

  lemma {:induction false} CountCoalescedSameFlags(xs: seq<StackRef>, flags: map<StackRef, Flags>, flags': map<StackRef, Flags>)
    requires Known(xs, flags) && forall x :: x in xs ==> x in flags' && flags'[x] == flags[x]
    ensures Known(xs, flags')
    ensures CountCoalesced(xs, flags') == CountCoalesced(xs, flags)
    decreases |xs|
  {
    if |xs| > 0 {
      CountCoalescedSameFlags(xs[..|xs| - 1], flags, flags');
    }
  }

  /** One level of coalescing: an access with a master is coalesced, and its master is
    * recorded and has no master of its own. */
  ghost predicate OneLevel(flags: map<StackRef, Flags>)
  {
    forall s :: s in flags && flags[s].master.Some? ==>
      flags[s].coalesced && flags[s].master.value in flags && flags[flags[s].master.value].master.None?
  }

  /** The invariant of the index: the lists have no repeats, every recorded access has a
    * nonzero kind, the write list and each bucket hold exactly the stores and the accesses
    * hashing there, in access-list order, and the coalesced count counts the coalesced ones. */
  ghost predicate IndexOk(log: nat, accesses: seq<StackRef>, writes: seq<StackRef>, buckets: seq<seq<StackRef>>,
                          meta: map<StackRef, Meta>, flags: map<StackRef, Flags>, count: int)
  {
    |buckets| == HashTableSize
    && Distinct(accesses)
    && Known(accesses, meta) && Known(accesses, flags)
    && (forall x :: x in accesses ==> meta[x].kind != NoAccess)
    && writes == Filter(accesses, meta, log, IsStore)
    && (forall b :: 0 <= b < HashTableSize ==> buckets[b] == Filter(accesses, meta, log, InBucket(b)))
    && count == CountCoalesced(accesses, flags)
    && OneLevel(flags)
  }

  lemma StartKeepsBucket(log: nat, accesses: seq<StackRef>, bucket: seq<StackRef>,
                         meta: map<StackRef, Meta>, s: StackRef, m: Meta, b: nat)
    requires Known(accesses, meta) && s !in accesses
    requires bucket == Filter(accesses, meta, log, InBucket(b))
    ensures Known(accesses + [s], meta[s := m])
    ensures (if BucketIndex(log, m.addr) == b then bucket + [s] else bucket)
         == Filter(accesses + [s], meta[s := m], log, InBucket(b))
  {
    FilterSameMeta(accesses, meta, meta[s := m], log, InBucket(b));
    FilterAppendOne(accesses, s, meta[s := m], log, InBucket(b));
  }

  lemma StartKeepsBuckets(log: nat, accesses: seq<StackRef>, buckets: seq<seq<StackRef>>,
                          meta: map<StackRef, Meta>, s: StackRef, m: Meta)
    requires Known(accesses, meta) && s !in accesses && |buckets| == HashTableSize
    requires forall b :: 0 <= b < HashTableSize ==> buckets[b] == Filter(accesses, meta, log, InBucket(b))
    ensures Known(accesses + [s], meta[s := m])
    ensures forall b :: 0 <= b < HashTableSize ==>
      buckets[BucketIndex(log, m.addr) := buckets[BucketIndex(log, m.addr)] + [s]][b]
        == Filter(accesses + [s], meta[s := m], log, InBucket(b))
  {
    var bi := BucketIndex(log, m.addr);
    forall b | 0 <= b < HashTableSize
      ensures buckets[bi := buckets[bi] + [s]][b] == Filter(accesses + [s], meta[s := m], log, InBucket(b))
    {
      StartKeepsBucket(log, accesses, buckets[b], meta, s, m, b);
    }
  }

  /** `mod_access_start` on values: a fresh access joins the tail of its lists. */
  lemma StartKeeps(log: nat, accesses: seq<StackRef>, writes: seq<StackRef>, buckets: seq<seq<StackRef>>,
                   meta: map<StackRef, Meta>, flags: map<StackRef, Flags>, count: int, s: StackRef, m: Meta)
    requires IndexOk(log, accesses, writes, buckets, meta, flags, count)
    requires s !in meta && s !in flags && m.kind != NoAccess
    ensures IndexOk(log, accesses + [s], writes + (if m.kind == Store then [s] else []),
                    buckets[BucketIndex(log, m.addr) := buckets[BucketIndex(log, m.addr)] + [s]],
                    meta[s := m], flags[s := Flags(false, None, false)], count)
  {
    var meta', flags' := meta[s := m], flags[s := Flags(false, None, false)];
    DistinctAppend(accesses, s);
    OneLevelAddFresh(flags, s);
    KindsAppend(accesses, meta, s, m);
    FilterSameMeta(accesses, meta, meta', log, IsStore);
    FilterAppendOne(accesses, s, meta', log, IsStore);
    StartKeepsBuckets(log, accesses, buckets, meta, s, m);
    CountCoalescedSameFlags(accesses, flags, flags');
    CountCoalescedAppendOne(accesses, s, flags');
  }

  lemma OneLevelAddFresh(flags: map<StackRef, Flags>, s: StackRef)
    requires OneLevel(flags) && s !in flags
    ensures OneLevel(flags[s := Flags(false, None, false)])
  {
  }

  lemma KindsAppend(accesses: seq<StackRef>, meta: map<StackRef, Meta>, s: StackRef, m: Meta)
    requires Known(accesses, meta) && (forall x :: x in accesses ==> meta[x].kind != NoAccess)
    requires s !in meta && m.kind != NoAccess
    ensures Known(accesses + [s], meta[s := m])
    ensures forall x :: x in accesses + [s] ==> meta[s := m][x].kind != NoAccess
  {
  }

  lemma DistinctAppend(xs: seq<StackRef>, s: StackRef)
    requires Distinct(xs) && s !in xs
    ensures Distinct(xs + [s])
  {
    assert (xs + [s])[..|xs|] == xs;
  }

  lemma FinishKeepsBucket(log: nat, accesses: seq<StackRef>, bucket: seq<StackRef>,
                          meta: map<StackRef, Meta>, s: StackRef, b: nat)
    requires Known(accesses, meta) && s in accesses
    requires bucket == Filter(accesses, meta, log, InBucket(b))
    ensures Known(Without(accesses, s), meta)
    ensures (if BucketIndex(log, meta[s].addr) == b then Without(bucket, s) else bucket)
         == Filter(Without(accesses, s), meta, log, InBucket(b))
  {
    KnownWithout(accesses, s, meta);
    FilterWithout(accesses, s, meta, log, InBucket(b));
    if BucketIndex(log, meta[s].addr) != b {
      FilterMember(accesses, meta, log, InBucket(b), s);
      WithoutAbsent(bucket, s);
    }
  }

  lemma FinishKeepsBuckets(log: nat, accesses: seq<StackRef>, buckets: seq<seq<StackRef>>,
                           meta: map<StackRef, Meta>, s: StackRef)
    requires Known(accesses, meta) && s in accesses && |buckets| == HashTableSize
    requires forall b :: 0 <= b < HashTableSize ==> buckets[b] == Filter(accesses, meta, log, InBucket(b))
    ensures Known(Without(accesses, s), meta)
    ensures forall b :: 0 <= b < HashTableSize ==>
      buckets[BucketIndex(log, meta[s].addr) := Without(buckets[BucketIndex(log, meta[s].addr)], s)][b]
        == Filter(Without(accesses, s), meta, log, InBucket(b))
  {
    var bi := BucketIndex(log, meta[s].addr);
    KnownWithout(accesses, s, meta);
    forall b | 0 <= b < HashTableSize
      ensures buckets[bi := Without(buckets[bi], s)][b] == Filter(Without(accesses, s), meta, log, InBucket(b))
    {
      FinishKeepsBucket(log, accesses, buckets[b], meta, s, b);
    }
  }

  lemma KindsWithout(accesses: seq<StackRef>, meta: map<StackRef, Meta>, flags: map<StackRef, Flags>, s: StackRef)
    requires Known(accesses, meta) && Known(accesses, flags)
    requires forall x :: x in accesses ==> meta[x].kind != NoAccess
    ensures Known(Without(accesses, s), meta) && Known(Without(accesses, s), flags)
    ensures forall x :: x in Without(accesses, s) ==> meta[x].kind != NoAccess
  {
    forall x | x in Without(accesses, s)
      ensures x in accesses
    {
      WithoutMember(accesses, s, x);
    }
  }

  /** `mod_access_finish` on values: the access leaves exactly the lists it was in. */
  lemma FinishKeeps(log: nat, accesses: seq<StackRef>, writes: seq<StackRef>, buckets: seq<seq<StackRef>>,
                    meta: map<StackRef, Meta>, flags: map<StackRef, Flags>, count: int, s: StackRef)
    requires IndexOk(log, accesses, writes, buckets, meta, flags, count)
    requires s in accesses
    ensures IndexOk(log, Without(accesses, s), Without(writes, s),
                    buckets[BucketIndex(log, meta[s].addr) := Without(buckets[BucketIndex(log, meta[s].addr)], s)],
                    meta, flags, count - (if flags[s].coalesced then 1 else 0))
    ensures meta[s].kind != Store ==> Without(writes, s) == writes
    ensures flags[s].coalesced ==> count > 0
  {
    var accesses' := Without(accesses, s);
    DistinctWithout(accesses, s);
    KindsWithout(accesses, meta, flags, s);
    assert Distinct(accesses') && Known(accesses', meta) && Known(accesses', flags);
    FilterWithout(accesses, s, meta, log, IsStore);
    if meta[s].kind != Store {
      FilterMember(accesses, meta, log, IsStore, s);
      WithoutAbsent(writes, s);
    }
    assert Without(writes, s) == Filter(accesses', meta, log, IsStore);
    FinishKeepsBuckets(log, accesses, buckets, meta, s);
    CountCoalescedWithout(accesses, s, flags);
    assert count - (if flags[s].coalesced then 1 else 0) == CountCoalesced(accesses', flags);
  }

  /** `mod_coalesce` on values: the fresh access becomes a slave of a master that has none. */
  lemma CoalesceKeeps(log: nat, accesses: seq<StackRef>, writes: seq<StackRef>, buckets: seq<seq<StackRef>>,
                      meta: map<StackRef, Meta>, flags: map<StackRef, Flags>, count: int, master: StackRef, s: StackRef)
    requires IndexOk(log, accesses, writes, buckets, meta, flags, count)
    requires s in accesses && master in flags && master != s && flags[master].master.None?
    requires !flags[s].coalesced && flags[s].master.None?
    requires forall t :: t in flags ==> flags[t].master != Some(s)
    ensures IndexOk(log, accesses, writes, buckets, meta,
                    flags[s := flags[s].(coalesced := true, master := Some(master))], count + 1)
  {
    CountCoalescedUpdate(accesses, s, flags[s].(coalesced := true, master := Some(master)), flags);
  }

  lemma FilterKnown(xs: seq<StackRef>, meta: map<StackRef, Meta>, log: nat, c: Criterion)
    requires Known(xs, meta)
    ensures Known(Filter(xs, meta, log, c), meta)
  {
    forall x | x in Filter(xs, meta, log, c)
      ensures x in meta
    {
      FilterMember(xs, meta, log, c, x);
    }
  }

  /** `access_list_coalesced_count` lies between 0 and `access_list_count`. */
  lemma CoalescedCountBounded(log: nat, accesses: seq<StackRef>, writes: seq<StackRef>, buckets: seq<seq<StackRef>>,
                              meta: map<StackRef, Meta>, flags: map<StackRef, Flags>, count: int)
    requires IndexOk(log, accesses, writes, buckets, meta, flags, count)
    ensures 0 <= count <= |accesses|
  {
  }

  /** The access is older than the reference id, or there is no reference. */
  predicate OlderThan(m: Meta, olderId: Option<int>)
  {
    olderId.None? || m.id < olderId.value
  }

  /** The position of the first access of a bucket, in bucket order, that is older than the
    * reference and to the block of `addr`. */
  function FirstOlderSameBlock(xs: seq<StackRef>, meta: map<StackRef, Meta>, log: nat, addr: nat, olderId: Option<int>): (r: Option<nat>)
    requires Known(xs, meta)
    ensures r.Some? ==>
      (r.value < |xs| && OlderThan(meta[xs[r.value]], olderId) && SameBlock(log, meta[xs[r.value]].addr, addr)
       && forall j :: 0 <= j < r.value ==> !(OlderThan(meta[xs[j]], olderId) && SameBlock(log, meta[xs[j]].addr, addr)))
    ensures r.None? <==>
      forall j :: 0 <= j < |xs| ==> !(OlderThan(meta[xs[j]], olderId) && SameBlock(log, meta[xs[j]].addr, addr))
  {
    if |xs| == 0 then None
    else if OlderThan(meta[xs[0]], olderId) && SameBlock(log, meta[xs[0]].addr, addr) then Some(0)
    else
      assert Known(xs[1..], meta);
      match FirstOlderSameBlock(xs[1..], meta, log, addr, olderId)
      case None => None
      case Some(j) => Some(j + 1)
  }

  /** The position of the last access of a list meeting a criterion. */
  function LastWhere(xs: seq<StackRef>, meta: map<StackRef, Meta>, log: nat, c: Criterion): (r: Option<nat>)
    requires Known(xs, meta)
    ensures r.Some? ==>
      (r.value < |xs| && Meets(meta[xs[r.value]], log, c)
       && forall j :: r.value < j < |xs| ==> !Meets(meta[xs[j]], log, c))
    ensures r.None? <==> forall j :: 0 <= j < |xs| ==> !Meets(meta[xs[j]], log, c)
  {
    if |xs| == 0 then None
    else if Meets(meta[xs[|xs| - 1]], log, c) then Some(|xs| - 1)
    else
      assert Known(xs[..|xs| - 1], meta);
      LastWhere(xs[..|xs| - 1], meta, log, c)
  }

  /** The last access meeting a criterion is the tail of the list of those accesses. */
  lemma {:induction false} LastWhereIsFilterTail(xs: seq<StackRef>, meta: map<StackRef, Meta>, log: nat, c: Criterion)
    requires Known(xs, meta)
    ensures var f := Filter(xs, meta, log, c);
      (LastWhere(xs, meta, log, c).None? <==> |f| == 0)
      && (|f| > 0 ==> xs[LastWhere(xs, meta, log, c).value] == f[|f| - 1])
    decreases |xs|
  {
    if |xs| > 0 {
      var init := xs[..|xs| - 1];
      assert Known(init, meta);
      LastWhereIsFilterTail(init, meta, log, c);
      if !Meets(meta[xs[|xs| - 1]], log, c) {
        var r := LastWhere(init, meta, log, c);
        if r.Some? {
          assert xs[r.value] == init[r.value];
        }
      }
    }
  }

  predicate LoadLike(m: Meta)
  {
    m.kind == Load || m.kind == Prefetch
  }

  /** The walk of `mod_can_coalesce` for a load, from the tail backwards: it gives up at the
    * first access that is neither a load nor a prefetch and stops at the first one to the same
    * block. The result is the position it stops at. */
  function LoadRun(xs: seq<StackRef>, meta: map<StackRef, Meta>, log: nat, addr: nat): (r: Option<nat>)
    requires Known(xs, meta)
    ensures r.Some? ==>
      (r.value < |xs| && SameBlock(log, meta[xs[r.value]].addr, addr)
       && (forall j :: r.value <= j < |xs| ==> LoadLike(meta[xs[j]]))
       && (forall j :: r.value < j < |xs| ==> !SameBlock(log, meta[xs[j]].addr, addr)))
    ensures r.None? ==>
      forall k :: 0 <= k < |xs| && SameBlock(log, meta[xs[k]].addr, addr) ==>
        exists j :: k <= j < |xs| && !LoadLike(meta[xs[j]])
  {
    if |xs| == 0 then None
    else
      var last := xs[|xs| - 1];
      if !LoadLike(meta[last]) then None
      else if SameBlock(log, meta[last].addr, addr) then Some(|xs| - 1)
      else
        assert Known(xs[..|xs| - 1], meta);
        LoadRun(xs[..|xs| - 1], meta, log, addr)
  }

  /** `stack->master_stack ? stack->master_stack : stack`. */
  function MasterOr(flags: map<StackRef, Flags>, x: StackRef): StackRef
    requires x in flags
  {
    if flags[x].master.Some? then flags[x].master.value else x
  }

  /** A store (or non-coherent store) coalesces only with the access right before it, when
    * that is of the same kind, to the same block, and has not locked a port yet. */
  function TailTarget(xs: seq<StackRef>, meta: map<StackRef, Meta>, flags: map<StackRef, Flags>, log: nat,
                      addr: nat, want: AccessKind): Option<StackRef>
    requires Known(xs, meta) && Known(xs, flags)
  {
    if |xs| == 0 then None
    else
      var x := xs[|xs| - 1];
      if meta[x].kind == want && SameBlock(log, meta[x].addr, addr) && !flags[x].portLocked
      then Some(MasterOr(flags, x))
      else None
  }

  function IndexOf(xs: seq<StackRef>, x: StackRef): (i: nat)
    requires x in xs
    ensures i < |xs| && xs[i] == x && x !in xs[..i]
  {
    if xs[0] == x then 0
    else
      assert xs == [xs[0]] + xs[1..];
      var j := IndexOf(xs[1..], x);
      assert xs[..j + 1] == [xs[0]] + xs[1..][..j];
      j + 1
  }

  /** The accesses before `older` in the access list (`older->access_list_prev` and back), or
    * the whole list when there is no reference. */
  function Before(accesses: seq<StackRef>, older: Option<StackRef>): (p: seq<StackRef>)
    requires older.Some? ==> older.value in accesses
    ensures |p| <= |accesses| && p == accesses[..|p|]
  {
    if older.None? then accesses else accesses[..IndexOf(accesses, older.value)]
  }

  function OlderId(meta: map<StackRef, Meta>, older: Option<StackRef>): Option<int>
    requires older.Some? ==> older.value in meta
  {
    if older.Some? then Some(meta[older.value].id) else None
  }

  /** The search of `mod_can_coalesce` once the hash table has reported an overlapping older
    * access: over the accesses `p` before the reference, for each kind of access. */
  function KindTarget(p: seq<StackRef>, meta: map<StackRef, Meta>, flags: map<StackRef, Flags>, log: nat,
                      addr: nat, kind: AccessKind): Option<StackRef>
    requires Known(p, meta) && Known(p, flags)
  {
    match kind
    case Load => (match LoadRun(p, meta, log, addr)
                  case None => None
                  case Some(k) => Some(MasterOr(flags, p[k])))
    case Store => TailTarget(p, meta, flags, log, addr, Store)
    case NCStore => TailTarget(p, meta, flags, log, addr, NCStore)
    case Prefetch => (match LastWhere(p, meta, log, SameBlockAs(addr))
                      case None => None
                      case Some(k) => Some(p[k]))
    case NoAccess => None
  }

  /** What `mod_can_coalesce` answers for an access of `kind` to `addr`. */
  function CoalesceSpec(log: nat, accesses: seq<StackRef>, bucket: seq<StackRef>,
                        meta: map<StackRef, Meta>, flags: map<StackRef, Flags>,
                        kind: AccessKind, addr: nat, older: Option<StackRef>): Option<StackRef>
    requires Known(accesses, meta) && Known(accesses, flags) && Known(bucket, meta)
    requires older.Some? ==> older.value in accesses
  {
    if FirstOlderSameBlock(bucket, meta, log, addr, OlderId(meta, older)).None? then None
    else
      var p := Before(accesses, older);
      assert Known(p, meta) && Known(p, flags);
      KindTarget(p, meta, flags, log, addr, kind)
  }

  /** Skipping loads to other blocks at the tail does not change where the load walk stops. */
  lemma {:induction false} LoadRunSkip(p: seq<StackRef>, meta: map<StackRef, Meta>, log: nat, addr: nat, i: nat)
    requires Known(p, meta) && i <= |p|
    requires forall j :: i <= j < |p| ==> LoadLike(meta[p[j]]) && !SameBlock(log, meta[p[j]].addr, addr)
    ensures Known(p[..i], meta)
    ensures LoadRun(p[..i], meta, log, addr) == LoadRun(p, meta, log, addr)
    decreases |p| - i
  {
    if i == |p| {
      assert p[..i] == p;
    } else {
      LoadRunSkip(p, meta, log, addr, i + 1);
      assert p[..i + 1][..i] == p[..i];
    }
  }

  /** The load walk of `mod_can_coalesce`. */
  method SearchLoadRun(p: seq<StackRef>, meta: map<StackRef, Meta>, log: nat, addr: nat) returns (k: Option<nat>)
    requires Known(p, meta)
    ensures k == LoadRun(p, meta, log, addr)
  {
    var i := |p|;
    while i > 0
      invariant 0 <= i <= |p|
      invariant forall j :: i <= j < |p| ==> LoadLike(meta[p[j]]) && !SameBlock(log, meta[p[j]].addr, addr)
    {
      var x := p[i - 1];
      if !LoadLike(meta[x]) || SameBlock(log, meta[x].addr, addr) {
        LoadRunSkip(p, meta, log, addr, i);
        assert p[..i][i - 1] == x;
        return if !LoadLike(meta[x]) then None else Some(i - 1);
      }
      i := i - 1;
    }
    LoadRunSkip(p, meta, log, addr, 0);
    return None;
  }

  /** The bucket walk of `mod_in_flight_address`, head first. */
  method SearchOlderSameBlock(xs: seq<StackRef>, meta: map<StackRef, Meta>, log: nat, addr: nat, olderId: Option<int>)
    returns (k: Option<nat>)
    requires Known(xs, meta)
    ensures k == FirstOlderSameBlock(xs, meta, log, addr, olderId)
  {
    var i := 0;
    while i < |xs|
      invariant 0 <= i <= |xs|
      invariant forall j :: 0 <= j < i ==> !(OlderThan(meta[xs[j]], olderId) && SameBlock(log, meta[xs[j]].addr, addr))
    {
      if OlderThan(meta[xs[i]], olderId) && SameBlock(log, meta[xs[i]].addr, addr) {
        assert FirstOlderSameBlock(xs, meta, log, addr, olderId) == Some(i);
        return Some(i);
      }
      i := i + 1;
    }
    return None;
  }

  /** The prefetch walk of `mod_can_coalesce`: the nearest access to the block. */
  method SearchSameBlock(p: seq<StackRef>, meta: map<StackRef, Meta>, log: nat, addr: nat) returns (k: Option<nat>)
    requires Known(p, meta)
    ensures k == LastWhere(p, meta, log, SameBlockAs(addr))
  {
    var i := |p|;
    while i > 0
      invariant 0 <= i <= |p|
      invariant forall j :: i <= j < |p| ==> !SameBlock(log, meta[p[j]].addr, addr)
    {
      if SameBlock(log, meta[p[i - 1]].addr, addr) {
        assert LastWhere(p, meta, log, SameBlockAs(addr)) == Some(i - 1);
        return Some(i - 1);
      }
      i := i - 1;
    }
    return None;
  }

  /** The kind-specific search of `mod_can_coalesce`, walking back from the access before the
    * reference. */
  method SearchTarget(p: seq<StackRef>, meta: map<StackRef, Meta>, flags: map<StackRef, Flags>, log: nat,
                      addr: nat, kind: AccessKind) returns (r: Option<StackRef>)
    requires Known(p, meta) && Known(p, flags)
    ensures r == KindTarget(p, meta, flags, log, addr, kind)
  {
    match kind {
      case Load =>
        var k := SearchLoadRun(p, meta, log, addr);
        r := if k.None? then None else Some(MasterOr(flags, p[k.value]));
      case Store =>
        r := TailTarget(p, meta, flags, log, addr, Store);
      case NCStore =>
        r := TailTarget(p, meta, flags, log, addr, NCStore);
      case Prefetch =>
        var k := SearchSameBlock(p, meta, log, addr);
        r := if k.None? then None else Some(p[k.value]);
      case NoAccess =>
        r := None;
    }
  }

  /** An access just started is never its own coalescing target: the search looks only at
    * the accesses before it, and no access has it as master yet. */
  lemma CoalesceTargetNotSelf(log: nat, accesses: seq<StackRef>, bucket: seq<StackRef>,
                              meta: map<StackRef, Meta>, flags: map<StackRef, Flags>,
                              kind: AccessKind, addr: nat, s: StackRef)
    requires Known(accesses, meta) && Known(accesses, flags) && Known(bucket, meta) && s in accesses
    requires forall t :: t in flags ==> flags[t].master != Some(s)
    ensures CoalesceSpec(log, accesses, bucket, meta, flags, kind, addr, Some(s)) != Some(s)
  {
    var p := Before(accesses, Some(s));
    assert s !in p;
    assert Known(p, meta) && Known(p, flags);
    if kind == Load {
      var k := LoadRun(p, meta, log, addr);
      if k.Some? {
        assert p[k.value] in p;
      }
    } else if kind == Prefetch {
      var k := LastWhere(p, meta, log, SameBlockAs(addr));
      if k.Some? {
        assert p[k.value] in p;
      }
    }
  }

  lemma UpdateTwice(m: map<StackRef, Flags>, k: StackRef, a: Flags, b: Flags)
    ensures m[k := a][k := b] == m[k := b]
  {
  }

  lemma BucketsKnown(log: nat, accesses: seq<StackRef>, writes: seq<StackRef>, buckets: seq<seq<StackRef>>,
                     meta: map<StackRef, Meta>, flags: map<StackRef, Flags>, count: int)
    requires IndexOk(log, accesses, writes, buckets, meta, flags, count)
    ensures forall b :: 0 <= b < HashTableSize ==> Known(buckets[b], meta)
  {
    forall b | 0 <= b < HashTableSize
      ensures Known(buckets[b], meta)
    {
      FilterKnown(accesses, meta, log, InBucket(b));
    }
  }

  /** `mod_in_flight_address` finds nothing exactly when no in-flight access to the block is
    * older than the reference, and what it finds is such an access. */
  lemma InFlightAddressMeaning(log: nat, accesses: seq<StackRef>, writes: seq<StackRef>, buckets: seq<seq<StackRef>>,
                               meta: map<StackRef, Meta>, flags: map<StackRef, Flags>, count: int,
                               addr: nat, olderId: Option<int>)
    requires IndexOk(log, accesses, writes, buckets, meta, flags, count)
    ensures Known(buckets[BucketIndex(log, addr)], meta)
    ensures var bucket := buckets[BucketIndex(log, addr)];
      var r := FirstOlderSameBlock(bucket, meta, log, addr, olderId);
      (r.None? <==> forall x :: x in accesses ==> !(OlderThan(meta[x], olderId) && SameBlock(log, meta[x].addr, addr)))
      && (r.Some? ==> bucket[r.value] in accesses)
  {
    var bi := BucketIndex(log, addr);
    var bucket := buckets[bi];
    FilterKnown(accesses, meta, log, InBucket(bi));
    var r := FirstOlderSameBlock(bucket, meta, log, addr, olderId);
    if r.Some? {
      FilterMember(accesses, meta, log, InBucket(bi), bucket[r.value]);
    } else {
      forall x | x in accesses && OlderThan(meta[x], olderId) && SameBlock(log, meta[x].addr, addr)
        ensures false
      {
        SameBlockSameBucket(log, meta[x].addr, addr);
        FilterMember(accesses, meta, log, InBucket(bi), x);
      }
    }
  }

  /** What `mod_coalesce` is handed by a load, store or non-coherent store is an access with
    * no master: coalescing never goes more than one level deep. */
  lemma CoalesceTargetIsMaster(p: seq<StackRef>, meta: map<StackRef, Meta>, flags: map<StackRef, Flags>, log: nat,
                               addr: nat, kind: AccessKind)
    requires Known(p, meta) && Known(p, flags) && OneLevel(flags)
    requires kind == Load || kind == Store || kind == NCStore
    ensures var r := KindTarget(p, meta, flags, log, addr, kind);
      r.Some? ==> r.value in flags && flags[r.value].master.None?
  {
  }

  /** The access ids of a list increase from head to tail. */
  ghost predicate IdsIncreasing(xs: seq<StackRef>, meta: map<StackRef, Meta>)
    requires Known(xs, meta)
  {
    forall i, j :: 0 <= i < j < |xs| ==> meta[xs[i]].id < meta[xs[j]].id
  }

  lemma IdsOrder(xs: seq<StackRef>, meta: map<StackRef, Meta>, a: nat, b: nat)
    requires Known(xs, meta) && IdsIncreasing(xs, meta)
    requires a < |xs| && b < |xs| && meta[xs[a]].id < meta[xs[b]].id
    ensures a < b
  {
  }

  /** An access older than the reference lies before the reference when ids increase along
    * the access list. */
  lemma OlderIsBefore(accesses: seq<StackRef>, meta: map<StackRef, Meta>, older: Option<StackRef>, j: nat)
    requires Known(accesses, meta) && IdsIncreasing(accesses, meta)
    requires older.Some? ==> older.value in accesses
    requires j < |accesses| && OlderThan(meta[accesses[j]], OlderId(meta, older))
    ensures j < |Before(accesses, older)|
  {
    if older.Some? {
      IdsOrder(accesses, meta, j, IndexOf(accesses, older.value));
    }
  }

  /** A prefetch search over the accesses before the reference finds something as soon as
    * one of them is to the block and older than the reference. */
  lemma PrefetchFindsOlder(log: nat, accesses: seq<StackRef>, meta: map<StackRef, Meta>, flags: map<StackRef, Flags>,
                           addr: nat, older: Option<StackRef>, y: StackRef)
    requires Known(accesses, meta) && Known(accesses, flags) && IdsIncreasing(accesses, meta)
    requires older.Some? ==> older.value in accesses
    requires y in accesses && OlderThan(meta[y], OlderId(meta, older)) && SameBlock(log, meta[y].addr, addr)
    ensures KindTarget(Before(accesses, older), meta, flags, log, addr, Prefetch).Some?
  {
    var j :| 0 <= j < |accesses| && accesses[j] == y;
    OlderIsBefore(accesses, meta, older, j);
    var p := Before(accesses, older);
    assert Meets(meta[p[j]], log, SameBlockAs(addr));
  }

  /** When ids increase along the access list, a prefetch that the hash table reports as
    * overlapping an older access always finds one in the access list: the failing assertion
    * at the end of its search cannot be reached. */
  lemma PrefetchAlwaysFinds(log: nat, accesses: seq<StackRef>, writes: seq<StackRef>, buckets: seq<seq<StackRef>>,
                            meta: map<StackRef, Meta>, flags: map<StackRef, Flags>, count: int,
                            addr: nat, older: Option<StackRef>)
    requires IndexOk(log, accesses, writes, buckets, meta, flags, count)
    requires older.Some? ==> older.value in accesses
    requires IdsIncreasing(accesses, meta)
    ensures Known(buckets[BucketIndex(log, addr)], meta)
    ensures CoalesceSpec(log, accesses, buckets[BucketIndex(log, addr)], meta, flags, Prefetch, addr, older).Some?
      <==> FirstOlderSameBlock(buckets[BucketIndex(log, addr)], meta, log, addr, OlderId(meta, older)).Some?
  {
    InFlightAddressMeaning(log, accesses, writes, buckets, meta, flags, count, addr, OlderId(meta, older));
    var bucket := buckets[BucketIndex(log, addr)];
    var f := FirstOlderSameBlock(bucket, meta, log, addr, OlderId(meta, older));
    if f.Some? {
      PrefetchFindsOlder(log, accesses, meta, flags, addr, older, bucket[f.value]);
    }
  }

  /** The IS-store search of `mod_in_flight_write` without a reference returns the write-list
    * tail: the write list really is the list of in-flight stores. */
  lemma WriteTailIsLastStore(log: nat, accesses: seq<StackRef>, writes: seq<StackRef>, buckets: seq<seq<StackRef>>,
                             meta: map<StackRef, Meta>, flags: map<StackRef, Flags>, count: int)
    requires IndexOk(log, accesses, writes, buckets, meta, flags, count)
    ensures (LastWhere(accesses, meta, log, IsStore).None? <==> |writes| == 0)
    ensures |writes| > 0 ==> accesses[LastWhere(accesses, meta, log, IsStore).value] == writes[|writes| - 1]
  {
    LastWhereIsFilterTail(accesses, meta, log, IsStore);
  }

  class InFlightIndex {
    const logBlockSize: nat
    /** The access list, oldest first. */
    var accesses: seq<StackRef>
    /** The write access list. */
    var writes: seq<StackRef>
    /** `access_hash_table`: one list per bucket. */
    const buckets: array<seq<StackRef>>
    var meta: map<StackRef, Meta>
    var flags: map<StackRef, Flags>
    /** `access_list_coalesced_count`. */
    var coalescedCount: int

    ghost predicate Valid()
      reads this, buckets
    {
      buckets.Length == HashTableSize
      && IndexOk(logBlockSize, accesses, writes, buckets[..], meta, flags, coalescedCount)
    }

    constructor (logBlockSize: nat)
      ensures Valid() && fresh(buckets)
      ensures this.logBlockSize == logBlockSize && accesses == [] && writes == [] && coalescedCount == 0
      ensures meta == map[] && flags == map[]
    {
      this.logBlockSize := logBlockSize;
      accesses := [];
      writes := [];
      buckets := new seq<StackRef>[HashTableSize](_ => []);
      meta := map[];
      flags := map[];
      coalescedCount := 0;
      new;
      assert forall b :: 0 <= b < HashTableSize ==> buckets[..][b] == [];
    }

    /** `mod_access_start`: record the kind and append a fresh access to the access list, to
      * the write list if it is a store, and to its bucket. */
    method Start(s: StackRef, id: int, kind: AccessKind, addr: nat)
      requires Valid() && s !in meta && s !in flags && kind != NoAccess
      modifies this, buckets
      ensures Valid()
      ensures accesses == old(accesses) + [s]
      ensures writes == old(writes) + (if kind == Store then [s] else [])
      ensures buckets[..] == old(buckets[..])[BucketIndex(logBlockSize, addr) :=
                               old(buckets[BucketIndex(logBlockSize, addr)]) + [s]]
      ensures meta == old(meta)[s := Meta(id, kind, addr)]
      ensures flags == old(flags)[s := Flags(false, None, false)]
      ensures coalescedCount == old(coalescedCount)
    {
      var m := Meta(id, kind, addr);
      var bi := BucketIndex(logBlockSize, addr);
      StartKeeps(logBlockSize, accesses, writes, buckets[..], meta, flags, coalescedCount, s, m);
      ghost var before := buckets[..];
      accesses := accesses + [s];
      if kind == Store {
        writes := writes + [s];
      }
      buckets[bi] := buckets[bi] + [s];
      meta := meta[s := m];
      flags := flags[s := Flags(false, None, false)];
      assert buckets[..] == before[bi := before[bi] + [s]];
    }

    /** `mod_access_finish`: remove the access from exactly the lists it is in, and count one
      * coalesced access less if it was coalesced. */
    method Finish(s: StackRef)
      requires Valid() && s in accesses
      modifies this, buckets
      ensures Valid()
      ensures accesses == Without(old(accesses), s)
      ensures writes == Without(old(writes), s)
      ensures old(meta)[s].kind != Store ==> writes == old(writes)
      ensures buckets[..] == old(buckets[..])[BucketIndex(logBlockSize, old(meta)[s].addr) :=
                               Without(old(buckets[BucketIndex(logBlockSize, meta[s].addr)]), s)]
      ensures coalescedCount == old(coalescedCount) - (if old(flags)[s].coalesced then 1 else 0)
      ensures meta == old(meta) && flags == old(flags)
    {
      var bi := BucketIndex(logBlockSize, meta[s].addr);
      FinishKeeps(logBlockSize, accesses, writes, buckets[..], meta, flags, coalescedCount, s);
      ghost var before := buckets[..];
      var accesses' := Without(accesses, s);
      var writes' := if meta[s].kind == Store then Without(writes, s) else writes;
      var count' := if flags[s].coalesced then coalescedCount - 1 else coalescedCount;
      buckets[bi] := Without(buckets[bi], s);
      assert buckets[..] == before[bi := Without(before[bi], s)];
      accesses, writes, coalescedCount := accesses', writes', count';
    }

    /** `mod_in_flight_access`: whether the bucket of `addr` holds an access with this id. */
    method InFlightAccess(id: int, addr: nat) returns (found: bool)
      requires Valid()
      ensures Known(buckets[BucketIndex(logBlockSize, addr)], meta)
      ensures found <==> exists j :: 0 <= j < |buckets[BucketIndex(logBlockSize, addr)]|
                                     && meta[buckets[BucketIndex(logBlockSize, addr)][j]].id == id
      ensures found <==> exists x :: x in accesses && meta[x].id == id
                                     && BucketIndex(logBlockSize, meta[x].addr) == BucketIndex(logBlockSize, addr)
    {
      var bi := BucketIndex(logBlockSize, addr);
      var bucket := buckets[bi];
      BucketsKnown(logBlockSize, accesses, writes, buckets[..], meta, flags, coalescedCount);
      assert bucket == buckets[..][bi];
      var i := 0;
      found := false;
      while i < |bucket|
        invariant 0 <= i <= |bucket|
        invariant forall j :: 0 <= j < i ==> meta[bucket[j]].id != id
      {
        if meta[bucket[i]].id == id {
          found := true;
          break;
        }
        i := i + 1;
      }
      forall x | x in accesses
        ensures (x in bucket) <==> BucketIndex(logBlockSize, meta[x].addr) == bi
      {
        FilterMember(accesses, meta, logBlockSize, InBucket(bi), x);
      }
      forall x | x in bucket
        ensures x in accesses
      {
        FilterMember(accesses, meta, logBlockSize, InBucket(bi), x);
      }
    }

    /** `mod_in_flight_address`: the first access of the bucket, in bucket order, that is to the
      * block of `addr` and older than `older` (any access when there is none). */
    method InFlightAddress(addr: nat, older: Option<StackRef>) returns (r: Option<StackRef>)
      requires Valid() && (older.Some? ==> older.value in meta)
      ensures Known(buckets[BucketIndex(logBlockSize, addr)], meta)
      ensures var bucket := buckets[BucketIndex(logBlockSize, addr)];
        var f := FirstOlderSameBlock(bucket, meta, logBlockSize, addr, OlderId(meta, older));
        r == (if f.None? then None else Some(bucket[f.value]))
      ensures r.Some? ==>
        r.value in accesses && SameBlock(logBlockSize, meta[r.value].addr, addr) && OlderThan(meta[r.value], OlderId(meta, older))
      ensures r.None? <==> forall x :: x in accesses ==>
        !(OlderThan(meta[x], OlderId(meta, older)) && SameBlock(logBlockSize, meta[x].addr, addr))
    {
      var bi := BucketIndex(logBlockSize, addr);
      var bucket := buckets[bi];
      var olderId := OlderId(meta, older);
      InFlightAddressMeaning(logBlockSize, accesses, writes, buckets[..], meta, flags, coalescedCount, addr, olderId);
      assert bucket == buckets[..][bi];
      var k := SearchOlderSameBlock(bucket, meta, logBlockSize, addr, olderId);
      r := if k.None? then None else Some(bucket[k.value]);
    }

    /** `mod_in_flight_write`: the write-list tail without a reference, otherwise the nearest
      * store before `older` in the access list. */
    method InFlightWrite(older: Option<StackRef>) returns (r: Option<StackRef>)
      requires Valid() && (older.Some? ==> older.value in accesses)
      ensures var p := Before(accesses, older);
        var k := LastWhere(p, meta, logBlockSize, IsStore);
        r == (if k.None? then None else Some(p[k.value]))
      ensures older.None? ==> r == (if |writes| == 0 then None else Some(writes[|writes| - 1]))
    {
      var p := Before(accesses, older);
      if older.None? {
        WriteTailIsLastStore(logBlockSize, accesses, writes, buckets[..], meta, flags, coalescedCount);
        if |writes| == 0 {
          return None;
        }
        return Some(writes[|writes| - 1]);
      }
      var i := |p|;
      while i > 0
        invariant 0 <= i <= |p|
        invariant forall j :: i <= j < |p| ==> meta[p[j]].kind != Store
      {
        if meta[p[i - 1]].kind == Store {
          assert LastWhere(p, meta, logBlockSize, IsStore) == Some(i - 1);
          return Some(p[i - 1]);
        }
        i := i - 1;
      }
      return None;
    }

    /** `stack->access_list_prev`: the access right before `s` in the access list, if any. */
    function Previous(s: StackRef): (r: Option<StackRef>)
      requires Valid() && s in accesses
      reads this, buckets
      ensures r.None? <==> accesses[0] == s
      ensures r.Some? ==> r.value in accesses && r.value != s
      ensures r.Some? ==> 0 < IndexOf(accesses, s) && accesses[IndexOf(accesses, s) - 1] == r.value
    {
      var i := IndexOf(accesses, s);
      if i == 0 then None else Some(accesses[i - 1])
    }

    /** `mod_can_coalesce`: the access an access of `kind` to `addr`, younger than everything
      * before `older`, would be coalesced with, if any. */
    method CanCoalesce(kind: AccessKind, addr: nat, older: Option<StackRef>) returns (r: Option<StackRef>)
      requires Valid() && kind != NoAccess && (older.Some? ==> older.value in accesses)
      ensures Known(buckets[BucketIndex(logBlockSize, addr)], meta)
      ensures r == CoalesceSpec(logBlockSize, accesses, buckets[BucketIndex(logBlockSize, addr)], meta, flags, kind, addr, older)
      ensures kind != Prefetch && r.Some? ==> r.value in flags && flags[r.value].master.None?
    {
      var hit := InFlightAddress(addr, older);
      if hit.None? {
        return None;
      }
      var p := Before(accesses, older);
      if kind != Prefetch {
        CoalesceTargetIsMaster(p, meta, flags, logBlockSize, addr, kind);
      }
      r := SearchTarget(p, meta, flags, logBlockSize, addr, kind);
    }

    /** `mod_coalesce`: the access just started becomes a slave of `master`, which must have
      * no master itself; the coalesced count goes up by one. */
    method Coalesce(master: StackRef, s: StackRef)
      requires Valid() && s in accesses && master in flags && master != s
      requires flags[master].master.None?
      requires !flags[s].coalesced && flags[s].master.None?
      requires forall t :: t in flags ==> flags[t].master != Some(s)
      modifies this
      ensures Valid()
      ensures flags == old(flags)[s := old(flags)[s].(coalesced := true, master := Some(master))]
      ensures coalescedCount == old(coalescedCount) + 1 && coalescedCount <= |accesses|
      ensures accesses == old(accesses) && writes == old(writes) && meta == old(meta)
    {
      CoalesceKeeps(logBlockSize, accesses, writes, buckets[..], meta, flags, coalescedCount, master, s);
      flags := flags[s := flags[s].(coalesced := true, master := Some(master))];
      coalescedCount := coalescedCount + 1;
    }

    /** `ret->port_locked`: set when the access takes a port, cleared when it gives it up. */
    method SetPortLocked(s: StackRef, locked: bool)
      requires Valid() && s in flags
      modifies this
      ensures Valid()
      ensures flags == old(flags)[s := old(flags)[s].(portLocked := locked)]
      ensures accesses == old(accesses) && writes == old(writes) && meta == old(meta)
      ensures coalescedCount == old(coalescedCount)
    {
      PortLockedKeeps(logBlockSize, accesses, writes, buckets[..], meta, flags, coalescedCount, s, locked);
      flags := flags[s := flags[s].(portLocked := locked)];
    }

    /** `mod_can_access`: a port must be free, and without an MSHR limit that is enough;
      * otherwise the non-coalesced in-flight accesses must be fewer than the MSHR entries. */
    function CanAccess(numLocked: int, numPorts: int, mshrSize: int): (ok: bool)
      requires Valid() && numLocked <= numPorts
      reads this, buckets
      ensures ok ==> numLocked < numPorts
      ensures ok <==> numLocked != numPorts && (mshrSize == 0 || |accesses| - coalescedCount < mshrSize)
      ensures mshrSize > 0 && ok ==> |accesses| - coalescedCount < mshrSize
    {
      if numLocked == numPorts then false
      else if mshrSize == 0 then true
      else |accesses| - coalescedCount < mshrSize
    }
  }

  /** Setting `port_locked` changes no list and no count. */
  lemma PortLockedKeeps(log: nat, accesses: seq<StackRef>, writes: seq<StackRef>, buckets: seq<seq<StackRef>>,
                        meta: map<StackRef, Meta>, flags: map<StackRef, Flags>, count: int, s: StackRef, locked: bool)
    requires IndexOk(log, accesses, writes, buckets, meta, flags, count) && s in flags
    ensures IndexOk(log, accesses, writes, buckets, meta, flags[s := flags[s].(portLocked := locked)], count)
  {
    var flags' := flags[s := flags[s].(portLocked := locked)];
    CountCoalescedSameCoalesced(accesses, flags, flags');
  }

  lemma {:induction false} CountCoalescedSameCoalesced(xs: seq<StackRef>, flags: map<StackRef, Flags>, flags': map<StackRef, Flags>)
    requires Known(xs, flags) && forall x :: x in xs ==> x in flags' && flags'[x].coalesced == flags[x].coalesced
    ensures Known(xs, flags')
    ensures CountCoalesced(xs, flags') == CountCoalesced(xs, flags)
    decreases |xs|
  {
    if |xs| > 0 {
      CountCoalescedSameCoalesced(xs[..|xs| - 1], flags, flags');
    }
  }
}
