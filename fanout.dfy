/** The snoop fan-out of nmoesi-protocol.c: a module that must reach the caches above it
  * (READ_REQUEST_UPDOWN, READ_REQUEST_DOWNUP, INVALIDATE) walks its sub-blocks and the nodes
  * of its high network and sends one child request per (sub-block, module) pair that
  * qualifies, counting each in `pending`. */
module FanOut {
  import opened Wrappers
  import opened States
  import opened Transitions
  import opened ModStack

  /** A node of a module's high network: whether it is an end node (a module rather than a
    * switch), and that module's id and block size. */
  datatype Node = Node(isEnd: bool, modId: int, blockSize: nat)

  /** Every module of the network has a positive block size. */
  predicate NodesOk(nodes: seq<Node>)
  {
    forall i :: 0 <= i < |nodes| ==> (nodes[i].isEnd ==> nodes[i].blockSize > 0)
  }

  /** The sub-block at `entryTag` is sent to node `n` when `n` is a module other than the
    * one fanning out (`selfId`), the one the request came from (`origId`) and the excepted
    * one, and the sub-block is the first of one of that module's blocks. */
  predicate Snooped(n: Node, selfId: int, origId: int, except: Option<int>, entryTag: nat)
  {
    n.isEnd && n.blockSize > 0 && n.modId != selfId && n.modId != origId && except != Some(n.modId)
    && entryTag % n.blockSize == 0
  }

  /** One child request: the sub-block's tag and the index of the node it goes to. */
  datatype Probe = Probe(tag: nat, node: nat)

  /** `tag + z * sub_block_size`: the tag of sub-block `z`. */
  function SubTag(tag: nat, subBlockSize: nat, z: nat): nat
  {
    tag + z * subBlockSize
  }

  /** The requests for one sub-block, over the first `|nodes|` nodes in order. */
  function RowProbes(entryTag: nat, nodes: seq<Node>, selfId: int, origId: int, except: Option<int>): (r: seq<Probe>)
    decreases |nodes|
  {
    if |nodes| == 0 then []
    else
      var i := |nodes| - 1;
      RowProbes(entryTag, nodes[..i], selfId, origId, except)
      + (if Snooped(nodes[i], selfId, origId, except, entryTag) then [Probe(entryTag, i)] else [])
  }

  /** The requests for the first `z` sub-blocks, sub-block by sub-block. */
  function Probes(tag: nat, subBlockSize: nat, z: nat, nodes: seq<Node>, selfId: int, origId: int,
                  except: Option<int>): (r: seq<Probe>)
    decreases z
  {
    if z == 0 then []
    else Probes(tag, subBlockSize, z - 1, nodes, selfId, origId, except)
         + RowProbes(SubTag(tag, subBlockSize, z - 1), nodes, selfId, origId, except)
  }

  /** A request of one row goes to a qualifying node, and every qualifying node gets one. */
  lemma {:induction false} RowProbesMeaning(entryTag: nat, nodes: seq<Node>, selfId: int, origId: int, except: Option<int>)
    ensures forall p :: p in RowProbes(entryTag, nodes, selfId, origId, except) ==>
      p.tag == entryTag && p.node < |nodes| && Snooped(nodes[p.node], selfId, origId, except, entryTag)
    ensures forall i :: 0 <= i < |nodes| && Snooped(nodes[i], selfId, origId, except, entryTag) ==>
      Probe(entryTag, i) in RowProbes(entryTag, nodes, selfId, origId, except)
    decreases |nodes|
  {
    if |nodes| > 0 {
      var k := |nodes| - 1;
      RowProbesMeaning(entryTag, nodes[..k], selfId, origId, except);
      forall i | 0 <= i < k
        ensures nodes[..k][i] == nodes[i]
      {
      }
    }
  }

  /** The fan-out sends exactly one request per qualifying (sub-block, node) pair: each request
    * is for one of the first `n` sub-blocks and a node that qualifies for it, and each
    * qualifying pair gets a request. */
  lemma {:induction false} ProbesMeaning(tag: nat, subBlockSize: nat, n: nat, nodes: seq<Node>, selfId: int,
                                         origId: int, except: Option<int>)
    ensures forall p :: p in Probes(tag, subBlockSize, n, nodes, selfId, origId, except) ==>
      p.node < |nodes| && Snooped(nodes[p.node], selfId, origId, except, p.tag)
      && exists z :: 0 <= z < n && p.tag == SubTag(tag, subBlockSize, z)
    ensures forall z, i ::
      0 <= z < n && 0 <= i < |nodes| && Snooped(nodes[i], selfId, origId, except, SubTag(tag, subBlockSize, z)) ==>
      Probe(SubTag(tag, subBlockSize, z), i) in Probes(tag, subBlockSize, n, nodes, selfId, origId, except)
    decreases n
  {
    if n > 0 {
      ProbesMeaning(tag, subBlockSize, n - 1, nodes, selfId, origId, except);
      RowProbesMeaning(SubTag(tag, subBlockSize, n - 1), nodes, selfId, origId, except);
    }
  }

  /** The loop of the fan-out steps (nmoesi-protocol.c:2344-2400, 2557-2602, 3723-3772):
    * `pending` starts at 1 for the step's own call and goes up by one per request. */
  method FanOutProbes(tag: nat, subBlockSize: nat, numSubBlocks: nat, nodes: seq<Node>, selfId: int,
                      origId: int, except: Option<int>) returns (probes: seq<Probe>, pending: nat)
    requires NodesOk(nodes)
    ensures probes == Probes(tag, subBlockSize, numSubBlocks, nodes, selfId, origId, except)
    ensures pending == 1 + |probes|
  {
    pending := 1;
    probes := [];
    var z := 0;
    while z < numSubBlocks
      invariant 0 <= z <= numSubBlocks
      invariant probes == Probes(tag, subBlockSize, z, nodes, selfId, origId, except)
      invariant pending == 1 + |probes|
    {
      var entryTag := SubTag(tag, subBlockSize, z);
      ghost var before := probes;
      var i := 0;
      while i < |nodes|
        invariant 0 <= i <= |nodes|
        invariant probes == before + RowProbes(entryTag, nodes[..i], selfId, origId, except)
        invariant pending == 1 + |probes|
      {
        assert nodes[..i + 1][..i] == nodes[..i];
        if Snooped(nodes[i], selfId, origId, except, entryTag) {
          pending := pending + 1;
          probes := probes + [Probe(entryTag, i)];
        }
        i := i + 1;
      }
      assert nodes[..|nodes|] == nodes;
      z := z + 1;
    }
  }

  /** The down-up child a probe starts: a write request (an invalidation) or a read request
    * to the probed module. */
  function ProbeChild(p: Probe, write: bool): (c: Child)
    ensures c.WriteChild? <==> write
    ensures c.WriteChild? ==> c.tag == p.tag && c.toward == Above(p.node)
    ensures c.ReadChild? ==> c.tag == p.tag && c.toward == Above(p.node) && !c.ncWrite && !c.prefetch
  {
    if write then WriteChild(p.tag, Above(p.node)) else ReadChild(p.tag, Above(p.node), false, false)
  }

  function ProbeChildren(probes: seq<Probe>, write: bool): (cs: seq<Child>)
    ensures |cs| == |probes|
    ensures forall i :: 0 <= i < |probes| ==> cs[i] == ProbeChild(probes[i], write)
  {
    seq(|probes|, i requires 0 <= i < |probes| => ProbeChild(probes[i], write))
  }

  /** Sub-block `z` lies inside the requester's block `[addr, addr + blockSize)`. */
  predicate InRequest(tag: nat, subBlockSize: nat, z: nat, addr: nat, blockSize: nat)
  {
    addr <= SubTag(tag, subBlockSize, z) < addr + blockSize
  }

  /** Some sub-block of the line lies inside the requester's block. */
  predicate AnyInRequest(tag: nat, subBlockSize: nat, numSubBlocks: nat, addr: nat, blockSize: nat)
  {
    exists z :: 0 <= z < numSubBlocks && InRequest(tag, subBlockSize, z, addr, blockSize)
  }

  /** The sub-block loop of READ_REQUEST_UPDOWN_FINISH (nmoesi-protocol.c:2500-2518): whether
    * the requester must take the line shared. */
  method RequesterShared(tag: nat, subBlockSize: nat, numSubBlocks: nat, addr: nat, blockSize: nat,
                         ncWrite: bool, shared: bool, state: BlockState) returns (r: bool)
    ensures r == UpDownShared(AnyInRequest(tag, subBlockSize, numSubBlocks, addr, blockSize), ncWrite, shared, state)
  {
    r := false;
    ghost var any := false;
    var z := 0;
    while z < numSubBlocks
      invariant 0 <= z <= numSubBlocks
      invariant any <==> exists k :: 0 <= k < z && InRequest(tag, subBlockSize, k, addr, blockSize)
      invariant r == UpDownShared(any, ncWrite, shared, state)
    {
      var entryTag := SubTag(tag, subBlockSize, z);
      if !(entryTag < addr || entryTag >= addr + blockSize) {
        assert InRequest(tag, subBlockSize, z, addr, blockSize);
        any := true;
        if ncWrite || shared {
          r := true;
        }
        if state == Owned || state == NonCoherent || state == Shared {
          r := true;
        }
      }
      z := z + 1;
    }
  }
}
