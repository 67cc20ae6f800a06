/** Address arithmetic and routing of a memory module (module.h, module.c): block tags, set
  * indices, the address range a module serves, the choice of the lower module, and the small
  * numeric helpers `mod_get_retry_latency`, `pow_2` and `req_variable_in_range`. */
module Addressing {
  import opened Wrappers

  /** `MOD_ACCESS_HASH_TABLE_SIZE`: every in-flight table has this many buckets. */
  const HashTableSize: nat := 17

  /** Addresses are C `unsigned int`. */
  const AddressSpace: nat := 0x1_0000_0000

  /** Two to the power `n`, by doubling. */
  function Exp2(n: nat): (r: nat)
    ensures r >= 1
  {
    if n == 0 then 1 else 2 * Exp2(n - 1)
  }

  lemma {:induction false} Exp2Below(n: nat, m: nat)
    requires n < m
    ensures Exp2(n) < Exp2(m)
  {
    if m != n + 1 {
      Exp2Below(n, m - 1);
    }
  }

  lemma {:induction false} Exp2Add(a: nat, b: nat)
    ensures Exp2(a + b) == Exp2(a) * Exp2(b)
  {
    if a > 0 {
      Exp2Add(a - 1, b);
      assert Exp2(a + b) == 2 * Exp2(a - 1 + b);
    }
  }

  lemma Exp2ThirtyOne()
    ensures Exp2(31) == 0x8000_0000
  {
    assert Exp2(10) == 1024;
    Exp2Add(10, 10);
    Exp2Add(20, 10);
    Exp2Add(30, 1);
  }

  /** `pow_2`: 0 for a negative exponent, otherwise `1 << i`, which fits a 32-bit int. */
  function Pow2(i: int): (r: int)
    requires i < 31
    ensures i < 0 ==> r == 0
    ensures 0 <= i ==> r == Exp2(i) && r < 0x8000_0000
  {
    if i < 0 then 0
    else
      Exp2ThirtyOne();
      Exp2Below(i, 31);
      Exp2(i)
  }

  /** `req_variable_in_range`: the caller must give `lb <= ub`; both bounds are inclusive. */
  function InRange(v: int, lb: int, ub: int): (r: bool)
    requires lb <= ub
    ensures r <==> lb <= v && v <= ub
  {
    !(v < lb) && !(ub < v)
  }

  /** `mod_get_retry_latency`: `random() % latency + latency`, with the random value given. */
  function RetryLatency(random: nat, latency: int): (r: int)
    requires latency > 0
    ensures latency <= r < 2 * latency
  {
    random % latency + latency
  }

  /** The shape of a cache: `num_sets`, `assoc` and `log_block_size` (block size 2^log). */
  datatype Geometry = Geometry(numSets: nat, assoc: nat, logBlockSize: nat)

  predicate GeometryOk(g: Geometry)
  {
    g.numSets > 0 && g.assoc > 0 && g.logBlockSize < 32
  }

  function BlockSize(g: Geometry): nat
  {
    Exp2(g.logBlockSize)
  }

  /** `addr & ~block_mask`: the address of the first byte of the block holding `addr`. */
  function BlockTag(g: Geometry, addr: nat): (t: nat)
    ensures t <= addr < t + BlockSize(g)
    ensures t % BlockSize(g) == 0
    ensures t / BlockSize(g) == addr / BlockSize(g)
  {
    AlignedDown(addr, BlockSize(g))
  }

  /** `addr` rounded down to a multiple of `bs`. */
  function AlignedDown(addr: nat, bs: nat): (t: nat)
    requires bs > 0
    ensures t <= addr < t + bs && t % bs == 0 && t / bs == addr / bs
  {
    DivOfAligned(addr, bs);
    addr - addr % bs
  }

  lemma MulAtLeast(x: int, b: int)
    requires x >= 1 && b > 0
    ensures x * b >= b
  {
  }

  /** Euclidean division is unique: quotient and remainder are determined by the dividend. */
  lemma DivModUnique(a: int, b: int, q: int, r: int)
    requires b > 0 && 0 <= r < b && a == q * b + r
    ensures a / b == q && a % b == r
  {
    var q', r' := a / b, a % b;
    assert (q - q') * b == r' - r;
    if q - q' >= 1 {
      MulAtLeast(q - q', b);
    } else if q' - q >= 1 {
      MulAtLeast(q' - q, b);
    }
  }

  lemma DivOfAligned(addr: nat, bs: nat)
    requires bs > 0
    ensures addr - addr % bs <= addr < addr - addr % bs + bs
    ensures (addr - addr % bs) % bs == 0
    ensures (addr - addr % bs) / bs == addr / bs
  {
    DivModUnique(addr - addr % bs, bs, addr / bs, 0);
  }

  /** `(a >> log) == (b >> log)`: both addresses fall in the same block. */
  predicate SameBlock(logBlockSize: nat, a: nat, b: nat)
  {
    a / Exp2(logBlockSize) == b / Exp2(logBlockSize)
  }

  /** `(addr >> log_block_size) % MOD_ACCESS_HASH_TABLE_SIZE`. */
  function BucketIndex(logBlockSize: nat, addr: nat): (b: nat)
    ensures b < HashTableSize
  {
    (addr / Exp2(logBlockSize)) % HashTableSize
  }

  /** Two addresses of the same block hash to the same bucket. */
  lemma SameBlockSameBucket(logBlockSize: nat, a: nat, b: nat)
    requires SameBlock(logBlockSize, a, b)
    ensures BucketIndex(logBlockSize, a) == BucketIndex(logBlockSize, b)
  {
  }

  /** `mod_range_kind_t` with its union: `NoRange` is `mod_range_invalid`. */
  datatype Range =
    | Bounds(low: nat, high: nat)
    | Interleaved(modulus: nat, div: nat, eq: nat)
    | NoRange

  /** An interleaved range divides by `div` and `mod`, so both are nonzero. */
  predicate RangeOk(r: Range)
  {
    r.Interleaved? ==> r.modulus > 0 && r.div > 0
  }

  /** `mod_serves_address`; an invalid range kind panics. */
  function Serves(r: Range, addr: nat): (res: Result<bool>)
    requires RangeOk(r)
    ensures res.Fatal? <==> r.NoRange?
  {
    match r
    case Bounds(low, high) => Ok(addr >= low && addr <= high)
    case Interleaved(m, d, e) => Ok((addr / d) % m == e)
    case NoRange => Fatal("invalid range kind")
  }

  predicate ServesAddr(r: Range, addr: nat)
    requires RangeOk(r)
  {
    Serves(r, addr) == Ok(true)
  }

  /** The set computed by `mod_find_block` from a tag: the block number, first divided by the
    * interleaving factor for an interleaved module, modulo the number of sets. */
  function SetIndex(g: Geometry, r: Range, tag: nat): (res: Result<nat>)
    requires GeometryOk(g) && RangeOk(r)
    ensures res.Fatal? <==> r.NoRange?
    ensures res.Ok? ==> res.value < g.numSets
  {
    match r
    case Interleaved(m, _, _) => Ok((tag / BlockSize(g) / m) % g.numSets)
    case Bounds(_, _) => Ok((tag / BlockSize(g)) % g.numSets)
    case NoRange => Fatal("invalid range kind")
  }

  /** The set depends only on the block, not on the offset inside it. */
  lemma SetIndexOfTag(g: Geometry, r: Range, addr: nat)
    requires GeometryOk(g) && RangeOk(r)
    ensures SetIndex(g, r, BlockTag(g, addr)) == SetIndex(g, r, addr)
  {
  }

  predicate RangesOk(rs: seq<Range>)
  {
    forall i :: 0 <= i < |rs| ==> RangeOk(rs[i])
  }

  /** `mod_get_low_mod`: the module must serve the address itself; main memory has no low
    * module; otherwise exactly one low module may serve the address (the index into `lows`). */
  function LowModSpec(isMainMemory: bool, self: Range, lows: seq<Range>, addr: nat): Result<Option<nat>>
    requires RangeOk(self) && RangesOk(lows)
  {
    match Serves(self, addr)
    case Fatal(m) => Fatal(m)
    case Ok(b) =>
      if !b then Fatal("assertion: module does not serve address")
      else if isMainMemory then
        (if |lows| == 0 then Ok(None) else Fatal("assertion: main memory has low modules"))
      else ScanLows(lows, addr, 0, None)
  }

  /** The scan over the low-module list from position `i`, with the server found so far. */
  function ScanLows(lows: seq<Range>, addr: nat, i: nat, found: Option<nat>): Result<Option<nat>>
    requires RangesOk(lows) && i <= |lows|
    decreases |lows| - i
  {
    if i == |lows| then
      (if found.None? then Fatal("no lower module serves address") else Ok(found))
    else
      match Serves(lows[i], addr)
      case Fatal(m) => Fatal(m)
      case Ok(b) =>
        if !b then ScanLows(lows, addr, i + 1, found)
        else if found.Some? then Fatal("two low modules serve address")
        else ScanLows(lows, addr, i + 1, Some(i))
  }

  method GetLowMod(isMainMemory: bool, self: Range, lows: seq<Range>, addr: nat) returns (r: Result<Option<nat>>)
    requires RangeOk(self) && RangesOk(lows)
    ensures r == LowModSpec(isMainMemory, self, lows, addr)
  {
    var s := Serves(self, addr);
    if s.Fatal? {
      return Fatal(s.reason);
    }
    if !s.value {
      return Fatal("assertion: module does not serve address");
    }
    if isMainMemory {
      if |lows| == 0 {
        return Ok(None);
      }
      return Fatal("assertion: main memory has low modules");
    }
    var server: Option<nat> := None;
    var i := 0;
    while i < |lows|
      invariant 0 <= i <= |lows|
      invariant ScanLows(lows, addr, i, server) == LowModSpec(isMainMemory, self, lows, addr)
    {
      var t := Serves(lows[i], addr);
      if t.Fatal? {
        return Fatal(t.reason);
      }
      if t.value {
        if server.Some? {
          return Fatal("two low modules serve address");
        }
        server := Some(i);
      }
      i := i + 1;
    }
    if server.None? {
      return Fatal("no lower module serves address");
    }
    return Ok(server);
  }

  ghost predicate RangesKnown(rs: seq<Range>)
  {
    forall i :: 0 <= i < |rs| ==> !rs[i].NoRange? && RangeOk(rs[i])
  }

  /** `k` is the one low module serving `addr`. */
  ghost predicate UniqueServer(lows: seq<Range>, addr: nat, k: nat)
    requires RangesKnown(lows)
  {
    k < |lows| && ServesAddr(lows[k], addr)
    && forall j :: 0 <= j < |lows| && j != k ==> !ServesAddr(lows[j], addr)
  }

  lemma {:induction false} ScanLowsUnique(lows: seq<Range>, addr: nat, i: nat, found: Option<nat>, k: nat)
    requires RangesKnown(lows) && i <= |lows|
    requires found.None? ==> forall j :: 0 <= j < i ==> !ServesAddr(lows[j], addr)
    requires found.Some? ==>
      (found.value < i && ServesAddr(lows[found.value], addr)
       && forall j :: 0 <= j < i && j != found.value ==> !ServesAddr(lows[j], addr))
    ensures ScanLows(lows, addr, i, found) == Ok(Some(k)) <==> UniqueServer(lows, addr, k)
    decreases |lows| - i
  {
    if i == |lows| {
    } else {
      var b := ServesAddr(lows[i], addr);
      if !b {
        ScanLowsUnique(lows, addr, i + 1, found, k);
      } else if found.Some? {
        // Modules `i` and `found.value` both serve the address, so no module is the only one.
        assert ServesAddr(lows[i], addr) && ServesAddr(lows[found.value], addr) && found.value != i;
      } else {
        ScanLowsUnique(lows, addr, i + 1, Some(i), k);
      }
    }
  }

  /** For a cache that serves the address and whose low modules all have a valid range kind,
    * `mod_get_low_mod` returns module `k` exactly when `k` is the only low module serving it. */
  lemma LowModIsUniqueServer(self: Range, lows: seq<Range>, addr: nat, k: nat)
    requires RangeOk(self) && RangesKnown(lows)
    requires ServesAddr(self, addr)
    ensures LowModSpec(false, self, lows, addr) == Ok(Some(k)) <==> UniqueServer(lows, addr, k)
  {
    ScanLowsUnique(lows, addr, 0, None, k);
  }

  /** A cache never gets "no low module" back: the answer is a module or a fatal error. */
  lemma {:induction false} ScanLowsNeverNone(lows: seq<Range>, addr: nat, i: nat, found: Option<nat>)
    requires RangesOk(lows) && i <= |lows|
    ensures ScanLows(lows, addr, i, found) != Ok(None)
    decreases |lows| - i
  {
    if i < |lows| {
      ScanLowsNeverNone(lows, addr, i + 1, found);
      ScanLowsNeverNone(lows, addr, i + 1, Some(i));
    }
  }

  /** The low modules of an `m`-way interleaved configuration, module `e` taking remainder `e`. */
  function InterleavedFamily(m: nat, d: nat): (rs: seq<Range>)
    ensures |rs| == m
    ensures forall e :: 0 <= e < m ==> rs[e] == Interleaved(m, d, e)
  {
    seq(m, e requires 0 <= e < m => Interleaved(m, d, e))
  }

  /** The usual interleaved configuration: low module `e` serves the addresses whose
    * `(addr / div) % m` is `e`. Routing then always succeeds and picks that module. */
  lemma InterleavedLowMod(self: Range, m: nat, d: nat, addr: nat)
    requires RangeOk(self) && ServesAddr(self, addr)
    requires m > 0 && d > 0
    ensures RangesKnown(InterleavedFamily(m, d))
    ensures LowModSpec(false, self, InterleavedFamily(m, d), addr) == Ok(Some((addr / d) % m))
  {
    var lows := InterleavedFamily(m, d);
    var k := (addr / d) % m;
    assert UniqueServer(lows, addr, k);
    LowModIsUniqueServer(self, lows, addr, k);
  }

  /** The smallest block size among the high modules, or the module's own block size when it
    * has none (`sub_block_size`, module.h). */
  function SubBlockSize(blockSize: nat, highBlockSizes: seq<nat>): (r: nat)
    ensures |highBlockSizes| == 0 ==> r == blockSize
    ensures |highBlockSizes| > 0 ==> r in highBlockSizes
    ensures forall i :: 0 <= i < |highBlockSizes| ==> r <= highBlockSizes[i]
    decreases |highBlockSizes|
  {
    if |highBlockSizes| == 0 then blockSize
    else if |highBlockSizes| == 1 then highBlockSizes[0]
    else
      var rest := SubBlockSize(blockSize, highBlockSizes[1..]);
      if highBlockSizes[0] <= rest then highBlockSizes[0] else rest
  }

  /** `num_sub_blocks = block_size / sub_block_size`. */
  function NumSubBlocks(blockSize: nat, highBlockSizes: seq<nat>): nat
    requires SubBlockSize(blockSize, highBlockSizes) > 0
  {
    blockSize / SubBlockSize(blockSize, highBlockSizes)
  }
}
