/** The invalidation handler of nmoesi-protocol.c: a module about to drop or overwrite a line
  * first takes it away from every cache above, by a down-up write request per (sub-block,
  * module) pair, and collects their replies. A cache above that held dirty data answers with
  * it, and the line then holds that data as Modified. */
module Invalidate {
  import opened Wrappers
  import opened States
  import opened CacheStore
  import opened ModStack
  import opened FanOut

  /** INVALIDATE (nmoesi-protocol.c:3700-3776): read the line; when it is valid and the module
    * has caches above, send a down-up write to every module that may share a sub-block of it
    * (not itself, not the one the request came from, not `except`); each reply, and this
    * step's own call, is counted in `pending`. `selfId` is the module's id, `origId` the
    * stack's `orig_mod_id`. */
  method InvalidateStart(st: Stack, cache: Cache, nodes: seq<Node>, subBlockSize: nat, numSubBlocks: nat,
                         selfId: int, origId: int, except: Option<int>) returns (next: Next)
    requires cache.Valid() && st.si < cache.numSets && 0 <= st.way < cache.assoc
    requires NodesOk(nodes)
    modifies st`tag, st`state, st`pending, st`prevState
    ensures st.tag == cache.blocks[st.si, st.way].tag && st.state == cache.blocks[st.si, st.way].state
    ensures st.prevState == st.state
    ensures var probes := if |nodes| > 0 && st.state != Invalid
                          then Probes(st.tag, subBlockSize, numSubBlocks, nodes, selfId, origId, except)
                          else [];
      st.pending == 1 + |probes| && next == Fork(ProbeChildren(probes, true), EvInvalidateFinish)
  {
    var b := cache.blocks[st.si, st.way];
    st.tag := b.tag;
    st.state := b.state;
    st.pending := 1;
    st.prevState := st.state;
    var probes: seq<Probe> := [];
    if |nodes| > 0 && st.state != Invalid {
      var pending;
      probes, pending := FanOutProbes(st.tag, subBlockSize, numSubBlocks, nodes, selfId, origId, except);
      st.pending := pending;
    }
    next := Fork(ProbeChildren(probes, true), EvInvalidateFinish);
  }

  /** INVALIDATE_FINISH (nmoesi-protocol.c:3778-3809): run once per pending reply. When the
    * replies so far brought data, the line becomes Modified; the stack returns to its parent
    * with the last reply. */
  method InvalidateFinish(st: Stack, cache: Cache) returns (next: Next)
    requires st.pending > 0
    requires cache.Valid() && st.si < cache.numSets && 0 <= st.way < cache.assoc
    modifies st`pending, cache.blocks
    ensures st.pending == old(st.pending) - 1
    ensures st.reply == AckData ==>
      cache.blocks[st.si, st.way] == old(cache.blocks[st.si, st.way]).(tag := st.tag, state := Modified)
    ensures st.reply != AckData ==> unchanged(cache.blocks)
    ensures forall s, w :: 0 <= s < cache.numSets && 0 <= w < cache.assoc && (s != st.si || w != st.way) ==>
      cache.blocks[s, w] == old(cache.blocks[s, w])
    ensures next == (if st.pending == 0 then Return else Hold)
  {
    if st.reply == AckData {
      cache.SetBlock(st.si, st.way, st.tag, Modified);
    }
    var proceed := st.Join();
    next := if proceed then Return else Hold;
  }
}
