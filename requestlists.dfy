/** The snoop protocol's three request queues of a module: the down-up list, the read/write
  * request list and the evict list. Each is an ordered list of stacks with a hash table of 17
  * buckets keyed by block, a queue count and its high-water mark. */
module RequestLists {
  import opened Wrappers
  import opened States
  import opened Addressing
  import opened AccessIndex

  /** The flags of a stack that decide whether a down-up request must wait for it. */
  datatype ReqStatus = ReqStatus(read: bool, write: bool, readInProgress: bool)

  /** The invariant of one queue: no repeats, every entry known, each bucket holds the
    * entries hashing there in list order, and the queue count is the list length. */
  ghost predicate ListOk(log: nat, entries: seq<StackRef>, buckets: seq<seq<StackRef>>,
                         meta: map<StackRef, Meta>, count: int)
  {
    |buckets| == HashTableSize
    && Distinct(entries)
    && Known(entries, meta)
    && (forall b :: 0 <= b < HashTableSize ==> buckets[b] == Filter(entries, meta, log, InBucket(b)))
    && count == |entries|
  }

  lemma {:induction false} WithoutLength(xs: seq<StackRef>, s: StackRef)
    requires Distinct(xs) && s in xs
    ensures |Without(xs, s)| == |xs| - 1
    decreases |xs|
  {
    var init, last := xs[..|xs| - 1], xs[|xs| - 1];
    assert xs == init + [last];
    if last == s {
      WithoutAbsent(init, s);
    } else {
      WithoutLength(init, s);
    }
  }

  lemma ListStartKeeps(log: nat, entries: seq<StackRef>, buckets: seq<seq<StackRef>>,
                       meta: map<StackRef, Meta>, count: int, s: StackRef, m: Meta)
    requires ListOk(log, entries, buckets, meta, count) && s !in entries
    ensures ListOk(log, entries + [s],
                   buckets[BucketIndex(log, m.addr) := buckets[BucketIndex(log, m.addr)] + [s]],
                   meta[s := m], count + 1)
  {
    DistinctAppend(entries, s);
    StartKeepsBuckets(log, entries, buckets, meta, s, m);
  }

  lemma ListFinishKeeps(log: nat, entries: seq<StackRef>, buckets: seq<seq<StackRef>>,
                        meta: map<StackRef, Meta>, count: int, s: StackRef)
    requires ListOk(log, entries, buckets, meta, count) && s in entries
    ensures ListOk(log, Without(entries, s),
                   buckets[BucketIndex(log, meta[s].addr) := Without(buckets[BucketIndex(log, meta[s].addr)], s)],
                   meta, count - 1)
  {
    DistinctWithout(entries, s);
    WithoutLength(entries, s);
    FinishKeepsBuckets(log, entries, buckets, meta, s);
  }

  /** An entry to the block of `addr` is in the bucket of `addr`, and every entry of that
    * bucket is in the list. */
  lemma InBucketOf(log: nat, entries: seq<StackRef>, meta: map<StackRef, Meta>, addr: nat, x: StackRef)
    requires Known(entries, meta)
    ensures Known(Filter(entries, meta, log, InBucket(BucketIndex(log, addr))), meta)
    ensures x in entries && SameBlock(log, meta[x].addr, addr) ==>
      x in Filter(entries, meta, log, InBucket(BucketIndex(log, addr)))
    ensures x in Filter(entries, meta, log, InBucket(BucketIndex(log, addr))) ==> x in entries
  {
    FilterKnown(entries, meta, log, InBucket(BucketIndex(log, addr)));
    FilterMember(entries, meta, log, InBucket(BucketIndex(log, addr)), x);
    if x in entries && SameBlock(log, meta[x].addr, addr) {
      SameBlockSameBucket(log, meta[x].addr, addr);
    }
  }

  /** The entry before `s` in a list, if any. */
  function PrevOf(xs: seq<StackRef>, s: StackRef): (r: Option<StackRef>)
    requires s in xs
    ensures r.None? <==> xs[0] == s
    ensures r.Some? ==> exists k :: 1 <= k < |xs| && xs[k] == s && xs[k - 1] == r.value
  {
    var k := IndexOf(xs, s);
    if k == 0 then None else Some(xs[k - 1])
  }

  function Tail(xs: seq<StackRef>): (r: Option<StackRef>)
    ensures r.None? <==> |xs| == 0
    ensures r.Some? ==> r.value == xs[|xs| - 1]
  {
    if |xs| == 0 then None else Some(xs[|xs| - 1])
  }

  /** `mod_in_flight_evict_address`: walking the bucket from its tail, the first entry with
    * another id whose key is in the block of `addr`. */
  function EvictSearch(bucket: seq<StackRef>, meta: map<StackRef, Meta>, log: nat, addr: nat, id: int): Option<StackRef>
    requires Known(bucket, meta)
  {
    match LastWhere(bucket, meta, log, OtherSameBlock(addr, id))
    case None => None
    case Some(k) => Some(bucket[k])
  }

  /** `mod_in_flight_read_write_req_address`: walking the bucket from its tail, find the last
    * entry with this id, then the nearest entry before it with another id in the block of
    * `addr`; nothing when the id is not in the bucket. */
  function ReadWriteSearch(bucket: seq<StackRef>, meta: map<StackRef, Meta>, log: nat, addr: nat, id: int): Option<StackRef>
    requires Known(bucket, meta)
  {
    match LastWhere(bucket, meta, log, HasId(id))
    case None => None
    case Some(k) =>
      assert Known(bucket[..k], meta);
      (match LastWhere(bucket[..k], meta, log, OtherSameBlock(addr, id))
       case None => None
       case Some(j) => Some(bucket[j]))
  }

  /** A read/write request a down-up request must wait for: a read whose read request is in
    * progress, or a write. */
  predicate Blocks(st: ReqStatus)
  {
    if st.read then st.readInProgress else st.write
  }

  /** `mod_check_in_flight_address_dependency_for_downup_request`: walking the read/write
    * bucket from its head, the first entry with another id in the block of `addr` that blocks. */
  function FirstDependency(xs: seq<StackRef>, meta: map<StackRef, Meta>, status: map<StackRef, ReqStatus>,
                           log: nat, addr: nat, id: int): (r: Option<nat>)
    requires Known(xs, meta) && Known(xs, status)
    ensures r.Some? ==> r.value < |xs| && Meets(meta[xs[r.value]], log, OtherSameBlock(addr, id)) && Blocks(status[xs[r.value]])
    ensures r.Some? ==> forall j :: 0 <= j < r.value ==> !(Meets(meta[xs[j]], log, OtherSameBlock(addr, id)) && Blocks(status[xs[j]]))
    ensures r.None? <==> forall j :: 0 <= j < |xs| ==> !(Meets(meta[xs[j]], log, OtherSameBlock(addr, id)) && Blocks(status[xs[j]]))
  {
    if |xs| == 0 then None
    else if Meets(meta[xs[0]], log, OtherSameBlock(addr, id)) && Blocks(status[xs[0]]) then Some(0)
    else
      assert Known(xs[1..], meta) && Known(xs[1..], status);
      match FirstDependency(xs[1..], meta, status, log, addr, id)
      case None => None
      case Some(j) => Some(j + 1)
  }

  /** The evict search finds nothing exactly when no queued eviction with another id is to the
    * block of `addr`, and what it finds is such an eviction. */
  lemma EvictSearchMeaning(log: nat, entries: seq<StackRef>, buckets: seq<seq<StackRef>>,
                           meta: map<StackRef, Meta>, count: int, addr: nat, id: int)
    requires ListOk(log, entries, buckets, meta, count)
    ensures Known(buckets[BucketIndex(log, addr)], meta)
    ensures var r := EvictSearch(buckets[BucketIndex(log, addr)], meta, log, addr, id);
      (r.None? <==> forall x :: x in entries ==> !(meta[x].id != id && SameBlock(log, meta[x].addr, addr)))
      && (r.Some? ==> r.value in entries && meta[r.value].id != id && SameBlock(log, meta[r.value].addr, addr))
  {
    var bucket := buckets[BucketIndex(log, addr)];
    FilterKnown(entries, meta, log, InBucket(BucketIndex(log, addr)));
    var r := EvictSearch(bucket, meta, log, addr, id);
    if r.Some? {
      InBucketOf(log, entries, meta, addr, r.value);
    } else {
      forall x | x in entries && meta[x].id != id && SameBlock(log, meta[x].addr, addr)
        ensures false
      {
        InBucketOf(log, entries, meta, addr, x);
      }
    }
  }

  /** The read/write search finds only queued requests with another id to the block of
    * `addr`, and nothing when the request with the given id is not queued. */
  lemma ReadWriteSearchMeaning(log: nat, entries: seq<StackRef>, buckets: seq<seq<StackRef>>,
                               meta: map<StackRef, Meta>, count: int, addr: nat, id: int)
    requires ListOk(log, entries, buckets, meta, count)
    ensures Known(buckets[BucketIndex(log, addr)], meta)
    ensures var r := ReadWriteSearch(buckets[BucketIndex(log, addr)], meta, log, addr, id);
      (r.Some? ==> r.value in entries && meta[r.value].id != id && SameBlock(log, meta[r.value].addr, addr))
      && ((forall x :: x in entries ==> meta[x].id != id) ==> r.None?)
  {
    var bucket := buckets[BucketIndex(log, addr)];
    FilterKnown(entries, meta, log, InBucket(BucketIndex(log, addr)));
    var r := ReadWriteSearch(bucket, meta, log, addr, id);
    if r.Some? {
      InBucketOf(log, entries, meta, addr, r.value);
      var k := LastWhere(bucket, meta, log, HasId(id)).value;
      InBucketOf(log, entries, meta, addr, bucket[k]);
    }
  }

  /** A list's selection splits at any position into the selections of the two parts. */
  lemma FilterSplit(xs: seq<StackRef>, meta: map<StackRef, Meta>, log: nat, c: Criterion, n: nat)
    requires Known(xs, meta) && n <= |xs|
    ensures Known(xs[..n], meta) && Known(xs[n..], meta)
    ensures Filter(xs, meta, log, c) == Filter(xs[..n], meta, log, c) + Filter(xs[n..], meta, log, c)
  {
    assert xs == xs[..n] + xs[n..];
    FilterConcat(xs[..n], xs[n..], meta, log, c);
  }

  /** Entry `t` of a selection sits at a position `p` of the list, and the selection of the
    * list before `p` is exactly the first `t` entries of the selection. */
  lemma {:induction false} FilterPos(xs: seq<StackRef>, meta: map<StackRef, Meta>, log: nat, c: Criterion, t: nat)
    returns (p: nat)
    requires Known(xs, meta) && t < |Filter(xs, meta, log, c)|
    ensures p < |xs| && xs[p] == Filter(xs, meta, log, c)[t] && Meets(meta[xs[p]], log, c)
    ensures Known(xs[..p], meta) && Filter(xs[..p], meta, log, c) == Filter(xs, meta, log, c)[..t]
    decreases |xs|
  {
    var init, last := xs[..|xs| - 1], xs[|xs| - 1];
    assert Known(init, meta);
    var f, fi := Filter(xs, meta, log, c), Filter(init, meta, log, c);
    assert f == fi + (if Meets(meta[last], log, c) then [last] else []);
    if t < |fi| {
      p := FilterPos(init, meta, log, c, t);
      assert xs[..p] == init[..p];
      assert f[..t] == fi[..t];
    } else {
      p := |xs| - 1;
      assert xs[..p] == init;
      assert f[..t] == fi;
    }
  }

  /** Extending a prefix of the list by one entry that meets the criterion extends its
    * selection by that entry. */
  lemma FilterStep(xs: seq<StackRef>, meta: map<StackRef, Meta>, log: nat, c: Criterion, n: nat)
    requires Known(xs, meta) && n < |xs| && Meets(meta[xs[n]], log, c)
    ensures Known(xs[..n], meta) && Known(xs[..n + 1], meta)
    ensures Filter(xs[..n + 1], meta, log, c) == Filter(xs[..n], meta, log, c) + [xs[n]]
  {
    assert xs[..n + 1] == xs[..n] + [xs[n]];
    assert Known(xs[..n], meta);
    FilterAppendOne(xs[..n], xs[n], meta, log, c);
  }

  /** An entry meeting the criterion at position `m` of the list comes after the first
    * `|Filter(xs[..n])|` entries of the selection, for any `n <= m`. */
  lemma SelectedAfter(xs: seq<StackRef>, meta: map<StackRef, Meta>, log: nat, c: Criterion, n: nat, m: nat)
    returns (u: nat)
    requires Known(xs, meta) && n <= m < |xs| && Meets(meta[xs[m]], log, c)
    ensures Known(xs[..n], meta)
    ensures |Filter(xs[..n], meta, log, c)| <= u < |Filter(xs, meta, log, c)|
    ensures Filter(xs, meta, log, c)[u] == xs[m]
  {
    FilterSplit(xs, meta, log, c, n);
    var rest := xs[n..];
    assert rest[m - n] == xs[m];
    FilterMember(rest, meta, log, c, xs[m]);
    var fr := Filter(rest, meta, log, c);
    var v :| 0 <= v < |fr| && fr[v] == xs[m];
    u := |Filter(xs[..n], meta, log, c)| + v;
  }

  /** A longer prefix of the list selects at least as many entries. */
  lemma PrefixSelectionGrows(xs: seq<StackRef>, meta: map<StackRef, Meta>, log: nat, c: Criterion, a: nat, b: nat)
    requires Known(xs, meta) && a <= b <= |xs|
    ensures Known(xs[..a], meta) && Known(xs[..b], meta)
    ensures |Filter(xs[..a], meta, log, c)| <= |Filter(xs[..b], meta, log, c)|
  {
    assert Known(xs[..b], meta);
    FilterSplit(xs[..b], meta, log, c, a);
    assert xs[..b][..a] == xs[..a];
  }

  /** Between two selected positions `p < m` of the list, before `q`, the entry at `m` is
    * selected after the entry at `p` and before the selection of the prefix up to `q` ends. */
  lemma SelectedBetween(xs: seq<StackRef>, meta: map<StackRef, Meta>, log: nat, c: Criterion, p: nat, m: nat, q: nat)
    returns (u: nat)
    requires Known(xs, meta) && p < m < q <= |xs|
    requires Meets(meta[xs[p]], log, c) && Meets(meta[xs[m]], log, c)
    ensures Known(xs[..p], meta) && Known(xs[..q], meta)
    ensures |Filter(xs[..p], meta, log, c)| < u < |Filter(xs[..q], meta, log, c)| <= |Filter(xs, meta, log, c)|
    ensures Filter(xs[..q], meta, log, c)[u] == xs[m] && Filter(xs, meta, log, c)[u] == xs[m]
  {
    assert Known(xs[..q], meta);
    u := SelectedAfter(xs[..q], meta, log, c, p + 1, m);
    assert xs[..q][..p + 1] == xs[..p + 1];
    FilterStep(xs, meta, log, c, p);
    FilterSplit(xs, meta, log, c, q);
  }

  /** The converse of the soundness half above: when a queued request to the block of `addr`
    * carries the id and some request to that block with another id is queued before it, the
    * read/write search finds one. */
  lemma ReadWriteSearchFinds(log: nat, entries: seq<StackRef>, buckets: seq<seq<StackRef>>,
                             meta: map<StackRef, Meta>, count: int, addr: nat, id: int, i: nat, j: nat)
    requires ListOk(log, entries, buckets, meta, count)
    requires i < j < |entries|
    requires meta[entries[j]].id == id && SameBlock(log, meta[entries[j]].addr, addr)
    requires meta[entries[i]].id != id && SameBlock(log, meta[entries[i]].addr, addr)
    ensures Known(buckets[BucketIndex(log, addr)], meta)
    ensures ReadWriteSearch(buckets[BucketIndex(log, addr)], meta, log, addr, id).Some?
  {
    var c := InBucket(BucketIndex(log, addr));
    var bucket := buckets[BucketIndex(log, addr)];
    FilterKnown(entries, meta, log, c);
    SameBlockSameBucket(log, meta[entries[j]].addr, addr);
    SameBlockSameBucket(log, meta[entries[i]].addr, addr);
    // the own request sits in the bucket at or after the end of the part before it
    var q0 := SelectedAfter(entries, meta, log, c, j, j);
    var k := LastWhere(bucket, meta, log, HasId(id)).value;
    assert k >= q0;
    // the other request sits in the bucket before that part ends
    var u := SelectedAfter(entries[..j], meta, log, c, 0, i);
    FilterSplit(entries, meta, log, c, j);
    assert bucket[u] == entries[i] && u < k;
    var before := bucket[..k];
    assert Known(before, meta);
    assert Meets(meta[before[u]], log, OtherSameBlock(addr, id));
  }

  /** What the read/write search finds, over the queue: `q` is the last queued request of the
    * bucket that carries the id, and the find `p` is the nearest request before it with
    * another id to the block of `addr`. */
  lemma ReadWriteSearchNearest(log: nat, entries: seq<StackRef>, buckets: seq<seq<StackRef>>,
                               meta: map<StackRef, Meta>, count: int, addr: nat, id: int)
    returns (p: nat, q: nat)
    requires ListOk(log, entries, buckets, meta, count)
    requires Known(buckets[BucketIndex(log, addr)], meta)
    requires ReadWriteSearch(buckets[BucketIndex(log, addr)], meta, log, addr, id).Some?
    ensures p < q < |entries|
    ensures entries[p] == ReadWriteSearch(buckets[BucketIndex(log, addr)], meta, log, addr, id).value
    ensures meta[entries[p]].id != id && SameBlock(log, meta[entries[p]].addr, addr)
    ensures meta[entries[q]].id == id && BucketIndex(log, meta[entries[q]].addr) == BucketIndex(log, addr)
    ensures forall m :: p < m < q ==> !(meta[entries[m]].id != id && SameBlock(log, meta[entries[m]].addr, addr))
    ensures forall m :: q < m < |entries| ==>
      !(meta[entries[m]].id == id && BucketIndex(log, meta[entries[m]].addr) == BucketIndex(log, addr))
  {
    var c := InBucket(BucketIndex(log, addr));
    var bucket := buckets[BucketIndex(log, addr)];
    var k := LastWhere(bucket, meta, log, HasId(id)).value;
    assert Known(bucket[..k], meta);
    var jb := LastWhere(bucket[..k], meta, log, OtherSameBlock(addr, id)).value;
    q := FilterPos(entries, meta, log, c, k);
    p := FilterPos(entries, meta, log, c, jb);
    if q <= p {
      PrefixSelectionGrows(entries, meta, log, c, q, p);
    }
    forall m | p < m < q
      ensures !(meta[entries[m]].id != id && SameBlock(log, meta[entries[m]].addr, addr))
    {
      if meta[entries[m]].id != id && SameBlock(log, meta[entries[m]].addr, addr) {
        SameBlockSameBucket(log, meta[entries[m]].addr, addr);
        var u := SelectedBetween(entries, meta, log, c, p, m, q);
      }
    }
    forall m | q < m < |entries|
      ensures !(meta[entries[m]].id == id && BucketIndex(log, meta[entries[m]].addr) == BucketIndex(log, addr))
    {
      if meta[entries[m]].id == id && BucketIndex(log, meta[entries[m]].addr) == BucketIndex(log, addr) {
        var u := SelectedBetween(entries, meta, log, c, q, m, |entries|);
      }
    }
  }

  /** The dependency search finds nothing exactly when no queued read/write request with
    * another id to the block of `addr` blocks, and what it finds is one that does. */
  lemma DependencyMeaning(log: nat, entries: seq<StackRef>, buckets: seq<seq<StackRef>>,
                          meta: map<StackRef, Meta>, count: int, status: map<StackRef, ReqStatus>, addr: nat, id: int)
    requires ListOk(log, entries, buckets, meta, count) && Known(entries, status)
    ensures Known(buckets[BucketIndex(log, addr)], meta) && Known(buckets[BucketIndex(log, addr)], status)
    ensures var bucket := buckets[BucketIndex(log, addr)];
      var r := FirstDependency(bucket, meta, status, log, addr, id);
      (r.None? <==> forall x :: x in entries ==>
         !(meta[x].id != id && SameBlock(log, meta[x].addr, addr) && Blocks(status[x])))
      && (r.Some? ==> bucket[r.value] in entries)
  {
    var bucket := buckets[BucketIndex(log, addr)];
    FilterKnown(entries, meta, log, InBucket(BucketIndex(log, addr)));
    forall x | x in bucket
      ensures x in entries
    {
      InBucketOf(log, entries, meta, addr, x);
    }
    var r := FirstDependency(bucket, meta, status, log, addr, id);
    if r.None? {
      forall x | x in entries && meta[x].id != id && SameBlock(log, meta[x].addr, addr) && Blocks(status[x])
        ensures false
      {
        InBucketOf(log, entries, meta, addr, x);
      }
    }
  }

  /** The down-up search (`mod_in_flight_downup_address`) finds nothing exactly when no
    * queued down-up request older than the reference is to the block of `addr`. */
  lemma DownUpSearchMeaning(log: nat, entries: seq<StackRef>, buckets: seq<seq<StackRef>>,
                            meta: map<StackRef, Meta>, count: int, addr: nat, olderId: Option<int>)
    requires ListOk(log, entries, buckets, meta, count)
    ensures Known(buckets[BucketIndex(log, addr)], meta)
    ensures var bucket := buckets[BucketIndex(log, addr)];
      var r := FirstOlderSameBlock(bucket, meta, log, addr, olderId);
      (r.None? <==> forall x :: x in entries ==> !(OlderThan(meta[x], olderId) && SameBlock(log, meta[x].addr, addr)))
      && (r.Some? ==> bucket[r.value] in entries)
  {
    var bucket := buckets[BucketIndex(log, addr)];
    FilterKnown(entries, meta, log, InBucket(BucketIndex(log, addr)));
    var r := FirstOlderSameBlock(bucket, meta, log, addr, olderId);
    if r.Some? {
      InBucketOf(log, entries, meta, addr, bucket[r.value]);
    } else {
      forall x | x in entries && OlderThan(meta[x], olderId) && SameBlock(log, meta[x].addr, addr)
        ensures false
      {
        InBucketOf(log, entries, meta, addr, x);
      }
    }
  }

  class RequestList {
    const logBlockSize: nat
    var entries: seq<StackRef>
    const buckets: array<seq<StackRef>>
    /** Id, recorded access kind and hash key (`addr`, or `src_tag` on the evict list). */
    var meta: map<StackRef, Meta>
    /** `*_req_queue_count` and `max_*_req_queue_count`. */
    var queueCount: int
    var maxQueueCount: int

    ghost predicate Valid()
      reads this, buckets
    {
      buckets.Length == HashTableSize
      && ListOk(logBlockSize, entries, buckets[..], meta, queueCount)
      && queueCount <= maxQueueCount
    }

    /** What `EvictInFlightAddress` finds for a request with id `id` to the block of `addr`. */
    ghost function EvictConflict(addr: nat, id: int): Option<StackRef>
      requires Valid()
      reads this, buckets
    {
      EvictSearchMeaning(logBlockSize, entries, buckets[..], meta, queueCount, addr, id);
      EvictSearch(buckets[..][BucketIndex(logBlockSize, addr)], meta, logBlockSize, addr, id)
    }

    /** What `ReadWriteInFlightAddress` finds. */
    ghost function ReadWriteConflict(addr: nat, id: int): Option<StackRef>
      requires Valid()
      reads this, buckets
    {
      ReadWriteSearchMeaning(logBlockSize, entries, buckets[..], meta, queueCount, addr, id);
      ReadWriteSearch(buckets[..][BucketIndex(logBlockSize, addr)], meta, logBlockSize, addr, id)
    }

    /** What `DependencyForDownUp` finds. */
    ghost function DependencyConflict(addr: nat, id: int, status: map<StackRef, ReqStatus>): Option<StackRef>
      requires Valid() && Known(entries, status)
      reads this, buckets
    {
      DependencyMeaning(logBlockSize, entries, buckets[..], meta, queueCount, status, addr, id);
      var bucket := buckets[..][BucketIndex(logBlockSize, addr)];
      match FirstDependency(bucket, meta, status, logBlockSize, addr, id)
      case None => None
      case Some(k) => Some(bucket[k])
    }

    /** What the searches find: nothing exactly when no conflicting request is queued. */
    lemma ConflictMeaning(addr: nat, id: int, status: map<StackRef, ReqStatus>)
      requires Valid()
      ensures EvictConflict(addr, id).None? <==>
        forall x :: x in entries ==> !(meta[x].id != id && SameBlock(logBlockSize, meta[x].addr, addr))
      ensures Known(entries, status) ==>
        (DependencyConflict(addr, id, status).None? <==> forall x :: x in entries ==>
           !(meta[x].id != id && SameBlock(logBlockSize, meta[x].addr, addr) && Blocks(status[x])))
    {
      EvictSearchMeaning(logBlockSize, entries, buckets[..], meta, queueCount, addr, id);
      if Known(entries, status) {
        DependencyMeaning(logBlockSize, entries, buckets[..], meta, queueCount, status, addr, id);
      }
    }

    constructor (logBlockSize: nat)
      ensures Valid() && fresh(buckets)
      ensures this.logBlockSize == logBlockSize && entries == [] && queueCount == 0 && maxQueueCount == 0
    {
      this.logBlockSize := logBlockSize;
      entries := [];
      buckets := new seq<StackRef>[HashTableSize](_ => []);
      meta := map[];
      queueCount := 0;
      maxQueueCount := 0;
      new;
      assert forall b :: 0 <= b < HashTableSize ==> buckets[..][b] == [];
    }

    /** `mod_downup_access_start`, `mod_read_write_req_access_start`, `mod_evict_start`:
      * register the stack at the tail of the list and of the bucket of `key`, and count it.
      * A stack is registered exactly while it is in the list. */
    method Start(s: StackRef, id: int, kind: AccessKind, key: nat)
      requires Valid() && s !in entries
      modifies this, buckets
      ensures Valid()
      ensures entries == old(entries) + [s]
      ensures buckets[..] == old(buckets[..])[BucketIndex(logBlockSize, key) :=
                               old(buckets[BucketIndex(logBlockSize, key)]) + [s]]
      ensures meta == old(meta)[s := Meta(id, kind, key)]
      ensures queueCount == old(queueCount) + 1
      ensures maxQueueCount == (if old(maxQueueCount) < queueCount then queueCount else old(maxQueueCount))
    {
      var m := Meta(id, kind, key);
      var bi := BucketIndex(logBlockSize, key);
      ListStartKeeps(logBlockSize, entries, buckets[..], meta, queueCount, s, m);
      ghost var before := buckets[..];
      entries := entries + [s];
      buckets[bi] := buckets[bi] + [s];
      meta := meta[s := m];
      queueCount := queueCount + 1;
      if maxQueueCount < queueCount {
        maxQueueCount := queueCount;
      }
      assert buckets[..] == before[bi := before[bi] + [s]];
    }

    /** `mod_downup_access_finish`, `mod_read_write_req_access_finish`, `mod_evict_finish`. */
    method Finish(s: StackRef)
      requires Valid() && s in entries
      modifies this, buckets
      ensures Valid()
      ensures entries == Without(old(entries), s) && s !in entries
      ensures buckets[..] == old(buckets[..])[BucketIndex(logBlockSize, old(meta)[s].addr) :=
                               Without(old(buckets[BucketIndex(logBlockSize, meta[s].addr)]), s)]
      ensures queueCount == old(queueCount) - 1
      ensures meta == old(meta) && maxQueueCount == old(maxQueueCount)
    {
      var bi := BucketIndex(logBlockSize, meta[s].addr);
      ListFinishKeeps(logBlockSize, entries, buckets[..], meta, queueCount, s);
      WithoutMember(entries, s, s);
      ghost var before := buckets[..];
      entries := Without(entries, s);
      buckets[bi] := Without(buckets[bi], s);
      queueCount := queueCount - 1;
      assert buckets[..] == before[bi := Without(before[bi], s)];
    }

    /** `mod_in_flight_downup_access` and `mod_in_flight_evict_access`: the list tail without a
      * reference, otherwise the entry before it in the list. */
    method InFlightPrevious(older: Option<StackRef>) returns (r: Option<StackRef>)
      requires Valid() && (older.Some? ==> older.value in entries)
      ensures older.None? ==> r == Tail(entries)
      ensures older.Some? ==> r == PrevOf(entries, older.value)
    {
      if older.None? {
        return Tail(entries);
      }
      r := PrevOf(entries, older.value);
    }

    /** `mod_in_flight_read_write_req_access`: the list tail without a reference, otherwise the
      * entry before it in its hash bucket. */
    method InFlightBucketPrevious(older: Option<StackRef>) returns (r: Option<StackRef>)
      requires Valid() && (older.Some? ==> older.value in entries)
      ensures older.None? ==> r == Tail(entries)
      ensures older.Some? ==>
        older.value in buckets[BucketIndex(logBlockSize, meta[older.value].addr)]
        && r == PrevOf(buckets[BucketIndex(logBlockSize, meta[older.value].addr)], older.value)
    {
      if older.None? {
        return Tail(entries);
      }
      var o := older.value;
      var bi := BucketIndex(logBlockSize, meta[o].addr);
      FilterMember(entries, meta, logBlockSize, InBucket(bi), o);
      assert buckets[bi] == buckets[..][bi];
      r := PrevOf(buckets[bi], o);
    }

    /** `mod_in_flight_downup_address`: the first entry of the bucket, in bucket order, older
      * than the reference and to the block of `addr`. */
    method InFlightAddress(addr: nat, olderId: Option<int>) returns (r: Option<StackRef>)
      requires Valid()
      ensures Known(buckets[BucketIndex(logBlockSize, addr)], meta)
      ensures var bucket := buckets[BucketIndex(logBlockSize, addr)];
        var f := FirstOlderSameBlock(bucket, meta, logBlockSize, addr, olderId);
        r == (if f.None? then None else Some(bucket[f.value]))
      ensures r.None? <==> forall x :: x in entries ==>
        !(OlderThan(meta[x], olderId) && SameBlock(logBlockSize, meta[x].addr, addr))
    {
      var bi := BucketIndex(logBlockSize, addr);
      var bucket := buckets[bi];
      DownUpSearchMeaning(logBlockSize, entries, buckets[..], meta, queueCount, addr, olderId);
      assert bucket == buckets[..][bi];
      var i := 0;
      while i < |bucket|
        invariant 0 <= i <= |bucket|
        invariant forall j :: 0 <= j < i ==>
          !(OlderThan(meta[bucket[j]], olderId) && SameBlock(logBlockSize, meta[bucket[j]].addr, addr))
      {
        var x := bucket[i];
        if OlderThan(meta[x], olderId) && SameBlock(logBlockSize, meta[x].addr, addr) {
          assert FirstOlderSameBlock(bucket, meta, logBlockSize, addr, olderId) == Some(i);
          return Some(x);
        }
        i := i + 1;
      }
      return None;
    }

    /** `mod_in_flight_evict_address`, from the bucket tail, skipping the reference's id. */
    method EvictInFlightAddress(addr: nat, id: int) returns (r: Option<StackRef>)
      requires Valid()
      ensures Known(buckets[BucketIndex(logBlockSize, addr)], meta)
      ensures r == EvictSearch(buckets[BucketIndex(logBlockSize, addr)], meta, logBlockSize, addr, id)
      ensures r == EvictConflict(addr, id)
      ensures r.None? <==> forall x :: x in entries ==> !(meta[x].id != id && SameBlock(logBlockSize, meta[x].addr, addr))
    {
      var bi := BucketIndex(logBlockSize, addr);
      var bucket := buckets[bi];
      EvictSearchMeaning(logBlockSize, entries, buckets[..], meta, queueCount, addr, id);
      assert bucket == buckets[..][bi];
      var k := SearchLast(bucket, meta, logBlockSize, OtherSameBlock(addr, id));
      r := if k.None? then None else Some(bucket[k.value]);
    }

    /** `mod_in_flight_read_write_req_address`. */
    method ReadWriteInFlightAddress(addr: nat, id: int) returns (r: Option<StackRef>)
      requires Valid()
      ensures Known(buckets[BucketIndex(logBlockSize, addr)], meta)
      ensures r == ReadWriteSearch(buckets[BucketIndex(logBlockSize, addr)], meta, logBlockSize, addr, id)
      ensures r == ReadWriteConflict(addr, id)
      ensures r.Some? ==> r.value in entries && meta[r.value].id != id && SameBlock(logBlockSize, meta[r.value].addr, addr)
    {
      var bi := BucketIndex(logBlockSize, addr);
      var bucket := buckets[bi];
      ReadWriteSearchMeaning(logBlockSize, entries, buckets[..], meta, queueCount, addr, id);
      assert bucket == buckets[..][bi];
      var k := SearchLast(bucket, meta, logBlockSize, HasId(id));
      if k.None? {
        return None;
      }
      var before := bucket[..k.value];
      var j := SearchLast(before, meta, logBlockSize, OtherSameBlock(addr, id));
      r := if j.None? then None else Some(bucket[j.value]);
    }

    /** `mod_check_in_flight_address_dependency_for_downup_request`, on the read/write list. */
    method DependencyForDownUp(addr: nat, id: int, status: map<StackRef, ReqStatus>) returns (r: Option<StackRef>)
      requires Valid() && Known(entries, status)
      ensures Known(buckets[BucketIndex(logBlockSize, addr)], meta) && Known(buckets[BucketIndex(logBlockSize, addr)], status)
      ensures var bucket := buckets[BucketIndex(logBlockSize, addr)];
        var f := FirstDependency(bucket, meta, status, logBlockSize, addr, id);
        r == (if f.None? then None else Some(bucket[f.value]))
      ensures r == DependencyConflict(addr, id, status)
      ensures r.Some? ==> r.value in entries && meta[r.value].id != id
                          && SameBlock(logBlockSize, meta[r.value].addr, addr) && Blocks(status[r.value])
      ensures r.None? <==> forall x :: x in entries ==>
        !(meta[x].id != id && SameBlock(logBlockSize, meta[x].addr, addr) && Blocks(status[x]))
    {
      var bi := BucketIndex(logBlockSize, addr);
      var bucket := buckets[bi];
      DependencyMeaning(logBlockSize, entries, buckets[..], meta, queueCount, status, addr, id);
      assert bucket == buckets[..][bi];
      var k := SearchDependency(bucket, meta, status, logBlockSize, addr, id);
      r := if k.None? then None else Some(bucket[k.value]);
    }
  }

  /** A forward walk of a read/write bucket for the first entry a down-up request depends on. */
  method SearchDependency(xs: seq<StackRef>, meta: map<StackRef, Meta>, status: map<StackRef, ReqStatus>,
                          log: nat, addr: nat, id: int) returns (k: Option<nat>)
    requires Known(xs, meta) && Known(xs, status)
    ensures k == FirstDependency(xs, meta, status, log, addr, id)
  {
    var i := 0;
    while i < |xs|
      invariant 0 <= i <= |xs|
      invariant forall j :: 0 <= j < i ==>
        !(Meets(meta[xs[j]], log, OtherSameBlock(addr, id)) && Blocks(status[xs[j]]))
    {
      var x := xs[i];
      if meta[x].id != id && SameBlock(log, meta[x].addr, addr) && Blocks(status[x]) {
        assert Meets(meta[x], log, OtherSameBlock(addr, id));
        assert FirstDependency(xs, meta, status, log, addr, id) == Some(i);
        return Some(i);
      }
      i := i + 1;
    }
    return None;
  }

  /** A backward walk of a list for the last entry meeting a criterion. */
  method SearchLast(xs: seq<StackRef>, meta: map<StackRef, Meta>, log: nat, c: Criterion) returns (k: Option<nat>)
    requires Known(xs, meta)
    ensures k == LastWhere(xs, meta, log, c)
  {
    var i := |xs|;
    while i > 0
      invariant 0 <= i <= |xs|
      invariant forall j :: i <= j < |xs| ==> !Meets(meta[xs[j]], log, c)
    {
      if Meets(meta[xs[i - 1]], log, c) {
        assert LastWhere(xs, meta, log, c) == Some(i - 1);
        return Some(i - 1);
      }
      i := i - 1;
    }
    return None;
  }
}
