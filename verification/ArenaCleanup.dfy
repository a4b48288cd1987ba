/**
 SerialArena::CleanupList: which registered cleanups it calls, and in which order.
 */
module ArenaCleanup {
  import opened ArenaArithmetic
  import opened Sequences
  import opened SerialModel

  /** C++ subtraction of CleanupNode pointers: the distance in nodes, truncated toward zero. */
  function NodeDistance(hi: Address, lo: Address): int {
    if hi >= lo then (hi - lo) / CLEANUP_SIZE else -((lo - hi) / CLEANUP_SIZE)
  }

  /** The end of the node stack as CleanupList computes it: rounded down to 8 for every block, while only the oldest
      block's stack really starts there. */
  function CallLimit(blocks: seq<Block>, i: nat): Address
    requires i < |blocks|
  {
    blocks[i].base + RoundDown(blocks[i].size, 8)
  }

  function CallsUp(mem: Memory, it: Address, limit: Address): seq<Cleanup>
    decreases limit - it
  {
    if it < limit then [NodeAt(mem, it)] + CallsUp(mem, it + CLEANUP_SIZE, limit) else []
  }

  function BlockCalls(mem: Memory, it: Address, limit: Address): seq<Cleanup> {
    if NodeDistance(limit, it) > 0 then CallsUp(mem, it, limit) else []
  }

  /** The calls made for the k oldest blocks; the newest block comes first. */
  function CallsTo(blocks: seq<Block>, limit: Address, mem: Memory, k: nat): seq<Cleanup>
    requires k <= |blocks|
  {
    if k == 0 then []
    else BlockCalls(mem, Bottom(blocks, limit, k - 1), CallLimit(blocks, k - 1)) + CallsTo(blocks, limit, mem, k - 1)
  }

  function Calls(s: Serial): seq<Cleanup> {
    CallsTo(s.blocks, s.limit, s.mem, |s.blocks|)
  }

  /** A block CleanupList passes over although it holds a node: not the oldest, of a size that is no multiple of 8,
      with exactly one node. */
  predicate PassedOver(s: Serial, i: nat)
    requires i < |s.blocks|
  {
    i > 0 && s.blocks[i].size % 8 != 0 && InitialLimit(s.blocks, i) - Bottom(s.blocks, s.limit, i) == CLEANUP_SIZE
  }

  predicate PassesOver(s: Serial, k: nat)
    requires k <= |s.blocks|
  {
    exists i :: 0 <= i < k && PassedOver(s, i)
  }

  /** Stopping up to 8 bytes short of the end of the stack makes no difference to the loop. */
  lemma {:induction false} CallsReachAllNodes(mem: Memory, lo: Address, hi: Address, short: nat)
    requires lo <= hi && (hi - lo) % CLEANUP_SIZE == 0 && short < 8 && short <= hi
    ensures CallsUp(mem, lo, hi - short) == NodesUp(mem, lo, hi)
    ensures |NodesUp(mem, lo, hi)| == (hi - lo) / CLEANUP_SIZE
    decreases hi - lo
  {
    if lo < hi {
      CallsReachAllNodes(mem, lo + CLEANUP_SIZE, hi, short);
    }
  }

  lemma BlockCallsExactly(s: Serial, i: nat)
    requires i < |s.blocks| && BlockOk(s, i)
    ensures var lo, hi := Bottom(s.blocks, s.limit, i), InitialLimit(s.blocks, i);
            && BlockCalls(s.mem, lo, CallLimit(s.blocks, i)) ==
              (if PassedOver(s, i) then [] else NodesUp(s.mem, lo, hi))
            && (PassedOver(s, i) ==> |NodesUp(s.mem, lo, hi)| == 1)
  {
    var lo, hi, size := Bottom(s.blocks, s.limit, i), InitialLimit(s.blocks, i), s.blocks[i].size;
    RoundDownFacts(size, 8);
    var short := hi - CallLimit(s.blocks, i);
    assert short == if i == 0 then 0 else size % 8;
    CallsReachAllNodes(s.mem, lo, hi, short);
    if lo < hi {
      assert hi - lo >= CLEANUP_SIZE;
    }
  }

  /** CleanupList never calls more than was registered, and calls all of it exactly when it passes over no block. */
  lemma {:induction false} CallsExactly(s: Serial, k: nat)
    requires k <= |s.blocks| && BlocksOk(s)
    ensures !PassesOver(s, k) ==> CallsTo(s.blocks, s.limit, s.mem, k) == NodesTo(s.blocks, s.limit, s.mem, k)
    ensures PassesOver(s, k) ==> |CallsTo(s.blocks, s.limit, s.mem, k)| < |NodesTo(s.blocks, s.limit, s.mem, k)|
  {
    if k > 0 {
      CallsExactly(s, k - 1);
      BlockCallsExactly(s, k - 1);
    }
  }

  /** Every registered cleanup is called exactly once, in reverse order of registration and across all blocks, if and
      only if no block is passed over. */
  lemma CleanupRunsAllExactly(a: Arena)
    requires BlocksOk(a.s) && CleanupOk(a.s, a.l)
    ensures Calls(a.s) == Reversed(a.l.registered) <==> !PassesOver(a.s, |a.s.blocks|)
  {
    CallsExactly(a.s, |a.s.blocks|);
  }

  // ---------------------------------------------------------------- sizes that are multiples of 8

  predicate RoundSizes(s: Serial) {
    forall i :: 0 <= i < |s.blocks| ==> s.blocks[i].size % 8 == 0
  }

  /** With start, maximum and initial size multiples of 8, AllocateMemory keeps every size a multiple of 8. */
  lemma NewBlockKeepsRoundSizes(s: Serial, n: nat, policy: Policy, base: Address)
    requires s.blocks != [] && HeadUsed(s) >= 0 && RoundSizes(s) && n % 8 == 0
    requires policy.startBlockSize % 8 == 0 && policy.maxBlockSize % 8 == 0
    ensures RoundSizes(AllocateNewBlock(s, n, policy, base))
  {
    BlockSizeFacts(policy, s.blocks[|s.blocks| - 1].size, n);
  }

  /** The nodes of a block are aligned exactly if it is the oldest or its size is a multiple of 8. */
  lemma NodesAlignedExactly(s: Serial, i: nat)
    requires i < |s.blocks| && BlockOk(s, i)
    ensures Bottom(s.blocks, s.limit, i) % 8 == 0 <==> i == 0 || s.blocks[i].size % 8 == 0
  {
    RoundDownFacts(s.blocks[i].size, 8);
    var nodes := InitialLimit(s.blocks, i) - Bottom(s.blocks, s.limit, i);
    assert nodes == 8 * (2 * (nodes / CLEANUP_SIZE));
  }

  lemma RoundSizesPassOverNothing(s: Serial)
    requires RoundSizes(s)
    ensures !PassesOver(s, |s.blocks|)
  {
  }
}
