/**
 How the blocks of a SerialArena grow: each new block has twice the size of the last one up to the maximum of the
 policy, or just what the request needs if that is more; and there is a new block only if the request does not fit.
 */
module BlockGrowth {
  import opened Wrappers
  import opened ArenaArithmetic
  import opened SerialModel
  import opened BumpSafety
  import opened ArrayCache
  import opened ArenaRuns
  import ArenaTeardown
  import BlockLists

  function Smaller(a: nat, b: nat): nat { if a < b then a else b }

  function Larger(a: nat, b: nat): nat { if a < b then b else a }

  /** The bytes the operation needs in one block, if it asks for memory. */
  function Needs(op: Op): Option<nat> {
    match op
    case Allocate(_, n, _) => Some(n)
    case AllocateWithCleanup(n, _, _, _) => Some(n + 16)
    case _ => None
  }

  /** A new block has at least the smaller of twice the last size and the maximum, and just what the request needs with
      the header if it has more. */
  lemma NextSize(policy: Policy, last: nat, n: nat)
    requires 0 < last < SIZE_RANGE
    ensures 2 * last < SIZE_RANGE ==>
              BlockSize(policy, last, n) == Larger(Smaller(2 * last, policy.maxBlockSize), 24 + n)
    ensures 2 * last >= SIZE_RANGE ==>
              BlockSize(policy, last, n) == Larger(Smaller(2 * last - SIZE_RANGE, policy.maxBlockSize), 24 + n)
  {
  }

  /** The first block of a list that starts empty. */
  lemma FirstSize(policy: Policy, n: nat)
    ensures BlockSize(policy, 0, n) == Larger(policy.startBlockSize, 24 + n)
  {
  }

  /** The block after number i follows the law, and if it is longer one of these operations needs it so. */
  predicate FollowsLaw(blocks: seq<Block>, policy: Policy, ops: seq<Op>, i: nat)
    requires i + 1 < |blocks|
  {
    var law := Smaller(2 * blocks[i].size, policy.maxBlockSize);
    && blocks[i + 1].size >= law
    && (blocks[i + 1].size > law ==>
          exists op :: op in ops && Needs(op).Some? && blocks[i + 1].size == 24 + Needs(op).value)
  }

  predicate Grew(blocks: seq<Block>, policy: Policy, ops: seq<Op>) {
    forall i :: 0 <= i && i + 1 < |blocks| && 0 < 2 * blocks[i].size < SIZE_RANGE ==> FollowsLaw(blocks, policy, ops, i)
  }

  /** An operation adds a block exactly if it asks for memory, is not served from a free list, and does not fit what is
      left of the head block; and then it adds one of the size AllocateMemory gives. */
  lemma StepAddsBlock(a: Arena, policy: Policy, op: Op)
    requires Inv(a) && Legal(a, policy, op)
    ensures var before, now := a.s.blocks, Step(a, policy, op).s.blocks;
            && before != []
            && (|now| > |before| <==>
                  && Needs(op).Some? && a.s.ptr + Needs(op).value > a.s.limit
                  && !(op.Allocate? && op.forArray && CacheHit(a.s, op.n)))
            && (|now| > |before| ==>
                  && |now| == |before| + 1
                  && now[|before|].size == BlockSize(policy, before[|before| - 1].size, Needs(op).value))
  {
    hide Inv, CacheHit, MayReturn, MayStore, MayAdopt, BlockSize, FreshBlock;
    match op {
      case Allocate(forArray, n, base) =>
        ProvideKeepsInv(a, n, policy, base);
        NeedIsSpace(a.s, n, policy, base);
        if forArray && CacheHit(a.s, n) { PopKeepsInv(a, n); }
      case AllocateWithCleanup(n, _, _, base) =>
        ProvideKeepsInv(a, n + CLEANUP_SIZE, policy, base);
        NeedIsSpace(a.s, n + CLEANUP_SIZE, policy, base);
      case ReturnArray(p, size) =>
        ProvideNothing(a, policy);
        ReturnKeepsBlocks(a, p, size);
      case _ =>
        ProvideNothing(a, policy);
    }
  }

  lemma NeedIsSpace(s: Serial, n: nat, policy: Policy, base: Address)
    requires s.blocks != [] && HeadUsed(s) >= 0
    ensures !HasSpace(s, n) <==> s.ptr + n > s.limit
    ensures var now := AllocateNewBlock(s, n, policy, base).blocks;
            |now| == |s.blocks| + 1 && now[|s.blocks|].size == BlockSize(policy, s.blocks[|s.blocks| - 1].size, n)
  {
    hide BlockSize;
  }

  lemma ProvideNothing(a: Arena, policy: Policy)
    requires Inv(a)
    ensures a.s.blocks != []
  {
    hide AreasOk, CacheOk, CleanupOk, SpaceOk;
  }

  lemma SameLaw(before: seq<Block>, now: seq<Block>, policy: Policy, ops: seq<Op>, op: Op, i: nat)
    requires i + 1 < |before| <= |now| && FollowsLaw(before, policy, ops, i)
    requires now[i].size == before[i].size && now[i + 1].size == before[i + 1].size
    ensures FollowsLaw(now, policy, ops + [op], i)
  {
    assert forall o :: o in ops ==> o in ops + [op];
  }

  lemma StepGrew(a: Arena, policy: Policy, done: seq<Op>, op: Op)
    requires Inv(a) && Legal(a, policy, op) && Grew(a.s.blocks, policy, done)
    ensures Grew(Step(a, policy, op).s.blocks, policy, done + [op])
  {
    var before, now := a.s.blocks, Step(a, policy, op).s.blocks;
    StepBlocks(a, policy, op);
    StepAddsBlock(a, policy, op);
    hide Inv, Legal, Step, FollowsLaw, BlockSize;
    forall i | 0 <= i && i + 1 < |now| && 0 < 2 * now[i].size < SIZE_RANGE
      ensures FollowsLaw(now, policy, done + [op], i)
    {
      if i + 1 < |before| {
        SameLaw(before, now, policy, done, op, i);
      } else {
        NextSize(policy, before[i].size, Needs(op).value);
        assert op in done + [op];
        NewLaw(now, policy, done + [op], op, i);
      }
    }
  }

  lemma NewLaw(now: seq<Block>, policy: Policy, ops: seq<Op>, op: Op, i: nat)
    requires i + 1 < |now| && op in ops && Needs(op).Some?
    requires now[i + 1].size == Larger(Smaller(2 * now[i].size, policy.maxBlockSize), 24 + Needs(op).value)
    ensures FollowsLaw(now, policy, ops, i)
  {
  }

  lemma {:induction false} RunGrew(a: Arena, policy: Policy, done: seq<Op>, ops: seq<Op>)
    requires Inv(a) && LegalRun(a, policy, ops) && Grew(a.s.blocks, policy, done)
    ensures Grew(Run(a, policy, ops).s.blocks, policy, done + ops)
    decreases |ops|
  {
    hide Inv, Legal, Step, Grew;
    if ops == [] {
      assert done + ops == done;
    } else {
      StepGrew(a, policy, done, ops[0]);
      StepKeepsInv(a, policy, ops[0]);
      RunGrew(Step(a, policy, ops[0]), policy, done + [ops[0]], ops[1..]);
      assert done + [ops[0]] + ops[1..] == done + ops;
    }
  }

  /** Over any run, of two consecutive blocks the second has at least twice the size of the first, or the maximum of the
      policy if that is less; and if it has more, it is exactly as long as some request of the run needs. */
  lemma BlocksDouble(base: Address, size: nat, policy: Policy, ops: seq<Op>, i: nat)
    requires base > 0 && base % 8 == 0 && base + size <= SIZE_RANGE
    requires BLOCK_HEADER_SIZE + SERIAL_ARENA_SIZE <= size
    requires Inv(New(base, size)) && LegalRun(New(base, size), policy, ops)
    requires var blocks := Run(New(base, size), policy, ops).s.blocks;
             i + 1 < |blocks| && 0 < 2 * blocks[i].size < SIZE_RANGE
    ensures var blocks := Run(New(base, size), policy, ops).s.blocks;
            var law := Smaller(2 * blocks[i].size, policy.maxBlockSize);
            && blocks[i + 1].size >= law
            && (blocks[i + 1].size > law ==>
                  exists op :: op in ops && Needs(op).Some? && blocks[i + 1].size == 24 + Needs(op).value)
  {
    RunGrew(New(base, size), policy, [], ops);
    assert [] + ops == ops;
    hide Inv, Run, LegalRun;
    assert FollowsLaw(Run(New(base, size), policy, ops).s.blocks, policy, ops, i);
  }

  // ---------------------------------------------------------------- the first blocks

  /** The block of a SerialArena that joins the list, and the first block of an arena with a policy that the user gave
      none: the start size of the policy, or what has to go into it if that is more. */
  lemma FirstBlocks(policy: Option<Policy>, base: Address)
    ensures ArenaTeardown.PushExtent(None, base).size == 256
    ensures policy.Some? ==>
              && ArenaTeardown.PushExtent(policy, base).size == Larger(policy.value.startBlockSize, 24 + 80)
              && BlockLists.FirstBlock(policy, base).size == Larger(policy.value.startBlockSize, 24 + (24 + 80 + 40))
  {
  }

  /** The least block the user can give is one that holds the SerialArena, and the policy, and not a byte more. */
  lemma SmallestBlock(base: Address, policy: Option<Policy>)
    requires base % 8 == 0
    ensures var s := BlockLists.StartArena(BlockLists.Extent(base, BlockLists.MinimumSize(policy)), policy).s;
            s.ptr == s.limit == base + BlockLists.MinimumSize(policy)
  {
  }

  /** What InitializeWithPolicy keeps of the sizes a user asks for: none, if IsDefault takes them for the default. hooks
      says that the user gave functions or a collector of his own. */
  function Stored(requested: Policy, hooks: bool): Option<Policy> {
    if requested.startBlockSize == 8192 && requested.maxBlockSize == 8192 && !hooks then None else Some(requested)
  }

  /** The arena then works with the sizes asked for, except when both are 8192: it starts its lists with blocks of 256
      bytes instead. */
  lemma StoredPolicyExactly(requested: Policy, hooks: bool, base: Address)
    ensures var stored := Stored(requested, hooks);
            && (BlockLists.PolicyOf(stored) == requested <==> hooks || requested != Policy(8192, 8192))
            && (BlockLists.PolicyOf(stored) != requested ==> ArenaTeardown.PushExtent(stored, base).size == 256)
  {
  }

  // ---------------------------------------------------------------- the default policy

  /** Small requests on the default policy: the blocks have 256, 512, 1024 bytes and so on up to 8192. */
  lemma {:induction false} DefaultGrowth(base: Address, ops: seq<Op>, i: nat)
    requires base > 0 && base % 8 == 0 && base + 256 <= SIZE_RANGE
    requires Inv(New(base, 256)) && LegalRun(New(base, 256), BlockLists.PolicyOf(None), ops)
    requires forall op :: op in ops && Needs(op).Some? ==> Needs(op).value <= 232
    requires i < |Run(New(base, 256), BlockLists.PolicyOf(None), ops).s.blocks|
    ensures Run(New(base, 256), BlockLists.PolicyOf(None), ops).s.blocks[i].size ==
            if i < 5 then 256 * Pow2(i) else 8192
    decreases i
  {
    SmallPowers();
    if i == 0 {
      RunKeepsFirst(New(base, 256), BlockLists.PolicyOf(None), ops);
    } else {
      DefaultGrowth(base, ops, i - 1);
      BlocksDouble(base, 256, BlockLists.PolicyOf(None), ops, i - 1);
      hide Inv, Run, LegalRun;
      assert i < 6 ==> Pow2(i) == 2 * Pow2(i - 1) && Pow2(i) <= 32;
    }
  }

  lemma {:induction false} RunKeepsFirst(a: Arena, policy: Policy, ops: seq<Op>)
    requires Inv(a) && LegalRun(a, policy, ops) && a.s.blocks != []
    ensures var now := Run(a, policy, ops).s.blocks; now != [] && now[0].size == a.s.blocks[0].size
    decreases |ops|
  {
    if ops != [] {
      StepBlocks(a, policy, ops[0]);
      StepKeepsInv(a, policy, ops[0]);
      hide Inv, Legal, Step;
      RunKeepsFirst(Step(a, policy, ops[0]), policy, ops[1..]);
    }
  }
}
