/** `mod_check_coherency_status` of module.c: after a cache fills a line in a new state, the
  * simulator walks the module graph from the cache's low module and checks every other copy
  * of the block against the single-writer / sharer rules, stopping the run at the first
  * violation. The check only reads the caches, so the model works on a snapshot of them. */
module Coherence {
  import opened Wrappers
  import opened States
  import opened Addressing
  import opened CacheStore
  import opened FanOut

  /** What the check reads of one module (`struct mod_t`): its kind, address range, cache
    * geometry and blocks, the nodes of its high network (none when it has no high network),
    * whether it has a low network, and the ranges and ids of its low modules. */
  datatype ModView = ModView(isMainMemory: bool, range: Range, geometry: Geometry, sets: seq<seq<Block>>,
                             highNodes: seq<Node>, hasLowNet: bool, lows: seq<Range>, lowIds: seq<int>)

  predicate ViewOk(m: ModView)
  {
    GeometryOk(m.geometry) && RangeOk(m.range) && RangesOk(m.lows) && |m.lows| == |m.lowIds|
    && |m.sets| == m.geometry.numSets
    && forall s :: 0 <= s < |m.sets| ==> |m.sets[s]| == m.geometry.assoc
  }

  /** Every module of the graph, by `mod_id`. */
  type Graph = map<int, ModView>

  /** Every end node of `nodes` names a module of the graph. */
  predicate EndsIn(g: Graph, nodes: seq<Node>)
  {
    forall k :: 0 <= k < |nodes| && nodes[k].isEnd ==> nodes[k].modId in g
  }

  /** Every module is well formed and every module it links to is in the graph. */
  predicate GraphOk(g: Graph)
  {
    forall id :: id in g ==>
      ViewOk(g[id]) && EndsIn(g, g[id].highNodes)
      && forall k :: 0 <= k < |g[id].lowIds| ==> g[id].lowIds[k] in g
  }

  /** The blocks of a cache, set by set. */
  function Snapshot(c: Cache): (sets: seq<seq<Block>>)
    requires c.Valid()
    reads c, c.blocks
    ensures |sets| == c.numSets && forall s :: 0 <= s < c.numSets ==> sets[s] == c.Row(s)
  {
    seq(c.numSets, s requires 0 <= s < c.numSets reads c, c.blocks => c.Row(s))
  }

  /** `mod_find_block` (snooping variant) on a snapshot of the module's cache. */
  function ViewLookup(m: ModView, addr: nat): Result<Lookup>
    requires ViewOk(m)
  {
    var tag := BlockTag(m.geometry, addr);
    match SetIndex(m.geometry, m.range, tag)
    case Fatal(r) => Fatal(r)
    case Ok(si) =>
      match FirstHit(m.sets[si], NoLocks(|m.sets[si]|), tag)
      case None => Ok(Miss(si, tag))
      case Some(w) => Ok(Hit(si, tag, w, m.sets[si][w].state))
  }

  /** The lookup on a snapshot is the lookup on the cache itself. */
  lemma ViewLookupIsFindBlock(c: Cache, r: Range, addr: nat, m: ModView)
    requires c.Valid() && RangeOk(r)
    requires m.range == r && m.geometry == c.Shape() && m.sets == Snapshot(c)
    requires RangesOk(m.lows) && |m.lows| == |m.lowIds|
    ensures ViewOk(m)
    ensures ViewLookup(m, addr) == c.LookupSpec(r, addr, seq(c.numSets, _ => NoLocks(c.assoc)))
  {
  }

  /** The rule for one module of the walk, given the issuer's new state, whether it is a peer
    * (down-up) or a lower (up-down) module, and the lower module's kind. `state` is the state
    * the lookup found; a miss reads as Invalid. True when the module's copy is allowed. */
  predicate LocalRule(downUp: bool, issueState: BlockState, isMainMemory: bool, hit: bool, state: BlockState)
  {
    if downUp then
      match issueState
      case Exclusive => !(state != Invalid && hit)
      case Modified => !(state != Invalid && hit)
      case Shared => !(hit && (state == Exclusive || state == Modified))
      case Owned => !(hit && state != Shared && state != Invalid)
      case _ => true
    else
      match issueState
      case Modified => !(state != Exclusive && state != Modified && state != NonCoherent && hit)
      case Exclusive => !(state != Exclusive && state != Modified && state != NonCoherent && hit)
      case Shared => if !isMainMemory then state == Shared || state == Owned else state != Invalid
      case Owned => if !isMainMemory then state == Shared || state == Owned else state != Invalid
      case _ => true
  }

  /** The state the rule compares: the block's on a hit, Invalid on a miss. */
  function StateRead(look: Lookup): (s: BlockState)
    ensures look.Miss? ==> s == Invalid
  {
    if look.Hit? then look.state else Invalid
  }

  /** The verdict of the walk. `Broken` is a fatal error of the walk itself (a range or routing
    * error); `OutOfFuel` means the graph was deeper than the bound given. */
  datatype Verdict = Coherent | Incoherent(modId: int, state: BlockState) | Broken(reason: string) | OutOfFuel

  /** A node of the high network the walk visits: a module other than the current one, the
    * one the walk came from and the issuer. */
  predicate Visited(n: Node, target: int, prev: int, issue: int)
  {
    n.isEnd && n.modId != target && n.modId != prev && n.modId != issue
  }

  lemma LowModInBounds(isMainMemory: bool, self: Range, lows: seq<Range>, addr: nat)
    requires RangeOk(self) && RangesOk(lows)
    ensures LowModSpec(isMainMemory, self, lows, addr).Ok? && LowModSpec(isMainMemory, self, lows, addr).value.Some? ==>
      LowModSpec(isMainMemory, self, lows, addr).value.value < |lows|
  {
    if !isMainMemory && Serves(self, addr) == Ok(true) {
      ScanLowsInBounds(lows, addr, 0, None);
    }
  }

  lemma {:induction false} ScanLowsInBounds(lows: seq<Range>, addr: nat, i: nat, found: Option<nat>)
    requires RangesOk(lows) && i <= |lows|
    requires found.Some? ==> found.value < |lows|
    ensures ScanLows(lows, addr, i, found).Ok? && ScanLows(lows, addr, i, found).value.Some? ==>
      ScanLows(lows, addr, i, found).value.value < |lows|
    decreases |lows| - i
  {
    if i < |lows| {
      ScanLowsInBounds(lows, addr, i + 1, found);
      ScanLowsInBounds(lows, addr, i + 1, Some(i));
    }
  }

  /** `mod_check_coherency_status(target, prev, issue, addr, issue_state, down_up)`: check the
    * target against the rule, then every visited module of its high network as a peer, then,
    * for an up-down check of a module with a low network, its low module. The first violation
    * or error ends the walk. `fuel` bounds the depth of the recursion. */
  function Check(g: Graph, target: int, prev: int, issue: int, addr: nat, issueState: BlockState,
                 downUp: bool, fuel: nat): Verdict
    requires GraphOk(g) && target in g
    decreases fuel, 0
  {
    if fuel == 0 then OutOfFuel
    else
      var m := g[target];
      var here := TargetVerdict(m, target, addr, issueState, downUp);
      if here != Coherent then here
      else
        var up := CheckHigh(g, m.highNodes, target, prev, issue, addr, issueState, fuel - 1);
        if up != Coherent then up
        else if downUp || !m.hasLowNet then Coherent
        else CheckLow(g, target, issue, addr, issueState, fuel - 1)
  }

  /** The target's own part of the check: its lookup, then the rule for the state found. */
  function TargetVerdict(m: ModView, target: int, addr: nat, issueState: BlockState, downUp: bool): (v: Verdict)
    requires ViewOk(m)
    ensures v == Coherent <==>
      ViewLookup(m, addr).Ok?
      && LocalRule(downUp, issueState, m.isMainMemory, ViewLookup(m, addr).value.Hit?, StateRead(ViewLookup(m, addr).value))
    ensures v != OutOfFuel
  {
    match ViewLookup(m, addr)
    case Fatal(r) => Broken(r)
    case Ok(look) =>
      if !LocalRule(downUp, issueState, m.isMainMemory, look.Hit?, StateRead(look)) then
        Incoherent(target, StateRead(look))
      else Coherent
  }

  /** The loop over the high network of `target`, from its first remaining node. */
  function CheckHigh(g: Graph, nodes: seq<Node>, target: int, prev: int, issue: int, addr: nat,
                     issueState: BlockState, fuel: nat): Verdict
    requires GraphOk(g) && EndsIn(g, nodes)
    decreases fuel, |nodes| + 1
  {
    if |nodes| == 0 then Coherent
    else
      var v := if Visited(nodes[0], target, prev, issue)
               then Check(g, nodes[0].modId, target, issue, addr, issueState, true, fuel)
               else Coherent;
      if v != Coherent then v
      else CheckHigh(g, nodes[1..], target, prev, issue, addr, issueState, fuel)
  }

  /** The up-down step to the low module of `from` (`mod_get_low_mod(from, addr)`), checked with
    * `from` as the previous module. A routing error, or no low module at all (main memory),
    * ends the walk. The calls after a fill (LOAD_MISS, STORE_UNLOCK and PREFETCH_MISS at
    * nmoesi-protocol.c:347-348, 603-604 and 1073-1074) are this step with `from` and `issue`
    * both the cache that filled the line. */
  function CheckLow(g: Graph, from: int, issue: int, addr: nat, issueState: BlockState, fuel: nat): (v: Verdict)
    requires GraphOk(g) && from in g
    ensures var low := LowModSpec(g[from].isMainMemory, g[from].range, g[from].lows, addr);
      (low.Fatal? || low == Ok(None) ==> v.Broken?)
      && (low.Ok? && low.value.Some? ==>
            (low.value.value < |g[from].lowIds|
             && v == Check(g, g[from].lowIds[low.value.value], from, issue, addr, issueState, false, fuel)))
    decreases fuel, 1
  {
    var m := g[from];
    LowModInBounds(m.isMainMemory, m.range, m.lows, addr);
    match LowModSpec(m.isMainMemory, m.range, m.lows, addr)
    case Fatal(r) => Broken(r)
    case Ok(None) => Broken("no low module")
    case Ok(Some(k)) => Check(g, m.lowIds[k], from, issue, addr, issueState, false, fuel)
  }

  /** The walk as the simulator runs it: the lookup, the rule, a loop over the high network
    * with a recursive call per visited module, then the low module. */
  method CheckCoherencyStatus(g: Graph, target: int, prev: int, issue: int, addr: nat, issueState: BlockState,
                              downUp: bool, fuel: nat) returns (v: Verdict)
    requires GraphOk(g) && target in g
    ensures v == Check(g, target, prev, issue, addr, issueState, downUp, fuel)
    decreases fuel, 0
  {
    if fuel == 0 {
      return OutOfFuel;
    }
    var m := g[target];
    v := CheckTarget(m, target, addr, issueState, downUp);
    if v != Coherent {
      return v;
    }
    v := CheckPeers(g, m.highNodes, target, prev, issue, addr, issueState, fuel - 1);
    if v != Coherent {
      return v;
    }
    if downUp || !m.hasLowNet {
      return Coherent;
    }
    v := CheckLowMod(g, target, issue, addr, issueState, fuel - 1);
  }

  /** `mod_find_block` on the target, then the rule; a violation is `fatal`. */
  method CheckTarget(m: ModView, target: int, addr: nat, issueState: BlockState, downUp: bool) returns (v: Verdict)
    requires ViewOk(m)
    ensures v == TargetVerdict(m, target, addr, issueState, downUp)
  {
    var res := ViewLookup(m, addr);
    if res.Fatal? {
      return Broken(res.reason);
    }
    var look := res.value;
    if !LocalRule(downUp, issueState, m.isMainMemory, look.Hit?, StateRead(look)) {
      return Incoherent(target, StateRead(look));
    }
    return Coherent;
  }

  /** The loop over the nodes of the high network (`for (i = 0; i < num_nodes; i++)`), skipping
    * switches, the module itself, the previous module and the issuer. */
  method CheckPeers(g: Graph, nodes: seq<Node>, target: int, prev: int, issue: int, addr: nat,
                    issueState: BlockState, fuel: nat) returns (v: Verdict)
    requires GraphOk(g) && EndsIn(g, nodes)
    ensures v == CheckHigh(g, nodes, target, prev, issue, addr, issueState, fuel)
    decreases fuel, |nodes| + 1
  {
    var k := 0;
    while k < |nodes|
      invariant 0 <= k <= |nodes|
      invariant CheckHigh(g, nodes, target, prev, issue, addr, issueState, fuel)
             == CheckHigh(g, nodes[k..], target, prev, issue, addr, issueState, fuel)
    {
      var n := nodes[k];
      assert nodes[k..][0] == n && nodes[k..][1..] == nodes[k + 1..];
      if Visited(n, target, prev, issue) {
        var w := CheckCoherencyStatus(g, n.modId, target, issue, addr, issueState, true, fuel);
        if w != Coherent {
          return w;
        }
      }
      k := k + 1;
    }
    return Coherent;
  }

  /** The descent to the low module, routed by `mod_get_low_mod`. */
  method CheckLowMod(g: Graph, from: int, issue: int, addr: nat, issueState: BlockState, fuel: nat) returns (v: Verdict)
    requires GraphOk(g) && from in g
    ensures v == CheckLow(g, from, issue, addr, issueState, fuel)
    decreases fuel, 1
  {
    var m := g[from];
    var low := GetLowMod(m.isMainMemory, m.range, m.lows, addr);
    LowModInBounds(m.isMainMemory, m.range, m.lows, addr);
    if low.Fatal? {
      return Broken(low.reason);
    }
    if low.value.None? {
      return Broken("no low module");
    }
    v := CheckCoherencyStatus(g, m.lowIds[low.value.value], from, issue, addr, issueState, false, fuel);
  }

  /** The loop over a high network is coherent exactly when every module it visits is. */
  lemma {:induction false} CheckHighMeaning(g: Graph, nodes: seq<Node>, target: int, prev: int, issue: int,
                                            addr: nat, issueState: BlockState, fuel: nat)
    requires GraphOk(g) && EndsIn(g, nodes)
    ensures CheckHigh(g, nodes, target, prev, issue, addr, issueState, fuel) == Coherent <==>
      forall k :: 0 <= k < |nodes| && Visited(nodes[k], target, prev, issue) ==>
        Check(g, nodes[k].modId, target, issue, addr, issueState, true, fuel) == Coherent
    decreases |nodes|
  {
    if |nodes| > 0 {
      CheckHighMeaning(g, nodes[1..], target, prev, issue, addr, issueState, fuel);
      assert forall k :: 1 <= k < |nodes| ==> nodes[1..][k - 1] == nodes[k];
    }
  }

  /** A check is coherent exactly when the target passes its own lookup and rule, every module
    * of its high network it visits passes as a peer, and, for an up-down check of a module
    * with a low network, its low module passes as the next lower module. */
  lemma CheckMeaning(g: Graph, target: int, prev: int, issue: int, addr: nat, issueState: BlockState,
                     downUp: bool, fuel: nat)
    requires GraphOk(g) && target in g && fuel > 0
    ensures var m := g[target];
      Check(g, target, prev, issue, addr, issueState, downUp, fuel) == Coherent <==>
        TargetVerdict(m, target, addr, issueState, downUp) == Coherent
        && (forall k :: 0 <= k < |m.highNodes| && Visited(m.highNodes[k], target, prev, issue) ==>
              Check(g, m.highNodes[k].modId, target, issue, addr, issueState, true, fuel - 1) == Coherent)
        && (!downUp && m.hasLowNet ==> CheckLow(g, target, issue, addr, issueState, fuel - 1) == Coherent)
  {
    CheckHighMeaning(g, g[target].highNodes, target, prev, issue, addr, issueState, fuel - 1);
  }

  /** More fuel never changes a verdict the walk reached. */
  lemma {:induction false} CheckFuel(g: Graph, target: int, prev: int, issue: int, addr: nat,
                                     issueState: BlockState, downUp: bool, fuel: nat)
    requires GraphOk(g) && target in g
    requires Check(g, target, prev, issue, addr, issueState, downUp, fuel) != OutOfFuel
    ensures Check(g, target, prev, issue, addr, issueState, downUp, fuel + 1)
         == Check(g, target, prev, issue, addr, issueState, downUp, fuel)
    decreases fuel, 0
  {
    var m := g[target];
    if TargetVerdict(m, target, addr, issueState, downUp) == Coherent {
      CheckHighFuel(g, m.highNodes, target, prev, issue, addr, issueState, fuel - 1);
      if CheckHigh(g, m.highNodes, target, prev, issue, addr, issueState, fuel - 1) == Coherent
         && !downUp && m.hasLowNet {
        CheckLowFuel(g, target, issue, addr, issueState, fuel - 1);
      }
    }
  }

  lemma {:induction false} CheckLowFuel(g: Graph, from: int, issue: int, addr: nat, issueState: BlockState, fuel: nat)
    requires GraphOk(g) && from in g
    requires CheckLow(g, from, issue, addr, issueState, fuel) != OutOfFuel
    ensures CheckLow(g, from, issue, addr, issueState, fuel + 1) == CheckLow(g, from, issue, addr, issueState, fuel)
    decreases fuel, 1
  {
    var m := g[from];
    var low := LowModSpec(m.isMainMemory, m.range, m.lows, addr);
    if low.Ok? && low.value.Some? {
      CheckFuel(g, m.lowIds[low.value.value], from, issue, addr, issueState, false, fuel);
    }
  }

  lemma {:induction false} CheckHighFuel(g: Graph, nodes: seq<Node>, target: int, prev: int, issue: int,
                                         addr: nat, issueState: BlockState, fuel: nat)
    requires GraphOk(g) && EndsIn(g, nodes)
    requires CheckHigh(g, nodes, target, prev, issue, addr, issueState, fuel) != OutOfFuel
    ensures CheckHigh(g, nodes, target, prev, issue, addr, issueState, fuel + 1)
         == CheckHigh(g, nodes, target, prev, issue, addr, issueState, fuel)
    decreases fuel, |nodes| + 1
  {
    if |nodes| > 0 {
      if Visited(nodes[0], target, prev, issue) {
        CheckFuel(g, nodes[0].modId, target, issue, addr, issueState, true, fuel);
      }
      var v := if Visited(nodes[0], target, prev, issue)
               then Check(g, nodes[0].modId, target, issue, addr, issueState, true, fuel)
               else Coherent;
      if v == Coherent {
        CheckHighFuel(g, nodes[1..], target, prev, issue, addr, issueState, fuel);
      }
    }
  }

  /** Any larger bound gives the same verdict. */
  lemma {:induction false} CheckFuelMonotone(g: Graph, target: int, prev: int, issue: int, addr: nat,
                                             issueState: BlockState, downUp: bool, fuel: nat, more: nat)
    requires GraphOk(g) && target in g && fuel <= more
    requires Check(g, target, prev, issue, addr, issueState, downUp, fuel) != OutOfFuel
    ensures Check(g, target, prev, issue, addr, issueState, downUp, more)
         == Check(g, target, prev, issue, addr, issueState, downUp, fuel)
    decreases more - fuel
  {
    if fuel < more {
      CheckFuel(g, target, prev, issue, addr, issueState, downUp, fuel);
      CheckFuelMonotone(g, target, prev, issue, addr, issueState, downUp, fuel + 1, more);
    }
  }

  /** The peer rule is the single-writer rule of MOESI: two valid copies of a block coexist
    * only when both are Shared or Owned and at most one is Owned. So the rule is symmetric. */
  lemma PeerRuleIsSingleWriter(issuer: BlockState, peer: BlockState, isMainMemory: bool)
    requires issuer != NonCoherent && peer != NonCoherent
    ensures LocalRule(true, issuer, isMainMemory, true, peer) <==>
      issuer == Invalid || peer == Invalid
      || (SharedOrOwned(issuer) && SharedOrOwned(peer) && !(issuer == Owned && peer == Owned))
    ensures LocalRule(true, issuer, isMainMemory, true, peer) == LocalRule(true, peer, isMainMemory, true, issuer)
  {
  }

  predicate SharedOrOwned(s: BlockState)
  {
    s == Shared || s == Owned
  }

  /** The up-down rule: below an exclusive copy any copy must itself be exclusive, dirty or
    * non-coherent; below a shared or owned copy a cache must hold the block shared or owned
    * and main memory must hold it at all. A peer that misses is never a violation. */
  lemma LowerRuleMeaning(issuer: BlockState, isMainMemory: bool, look: Lookup)
    ensures (issuer == Modified || issuer == Exclusive) ==>
      (LocalRule(false, issuer, isMainMemory, look.Hit?, StateRead(look)) <==>
         look.Miss? || look.state in {Exclusive, Modified, NonCoherent})
    ensures SharedOrOwned(issuer) && !isMainMemory ==>
      (LocalRule(false, issuer, isMainMemory, look.Hit?, StateRead(look)) <==> look.Hit? && SharedOrOwned(look.state))
    ensures SharedOrOwned(issuer) && isMainMemory ==>
      (LocalRule(false, issuer, isMainMemory, look.Hit?, StateRead(look)) <==> look.Hit? && look.state != Invalid)
    ensures look.Miss? ==> LocalRule(true, issuer, isMainMemory, look.Hit?, StateRead(look))
  {
  }

  // The rule as the source evaluates it: on a miss `mod_find_block` leaves the state output
  // unset, so the up-down Shared/Owned rule compares whatever the local held (`stale`).

  /** The rule of module.c:2221-2279 over the state variable as written. */
  predicate LocalRuleAsWritten(downUp: bool, issueState: BlockState, isMainMemory: bool, look: Lookup, stale: BlockState)
  {
    LocalRule(downUp, issueState, isMainMemory, look.Hit?, if look.Hit? then look.state else stale)
  }

  /** A cache below a Shared copy that does not hold the block passes or fails the check
    * depending on the uninitialised value it reads. */
  lemma MissReadsStaleState(si: nat, tag: nat)
    ensures LocalRuleAsWritten(false, Shared, false, Miss(si, tag), Shared)
    ensures !LocalRuleAsWritten(false, Shared, false, Miss(si, tag), Invalid)
  {
  }

  /** The corrected rule agrees with the source on every hit, reads a miss as Invalid, and so
    * always reports a cache below a Shared or Owned copy that does not hold the block. */
  lemma LocalRuleCorrected(downUp: bool, issueState: BlockState, isMainMemory: bool, look: Lookup, stale: BlockState)
    ensures look.Hit? ==>
      LocalRule(downUp, issueState, isMainMemory, look.Hit?, StateRead(look))
      == LocalRuleAsWritten(downUp, issueState, isMainMemory, look, stale)
    ensures look.Miss? ==>
      LocalRule(downUp, issueState, isMainMemory, look.Hit?, StateRead(look))
      == LocalRuleAsWritten(downUp, issueState, isMainMemory, look, Invalid)
    ensures look.Miss? && !downUp && SharedOrOwned(issueState) ==>
      !LocalRule(downUp, issueState, isMainMemory, look.Hit?, StateRead(look))
  {
  }
}
