/**
 Whole lives of a SerialArena: any sequence of allocations, cleanups, array returns and stores by the program, together
 with memory that arrives from and leaves for the arenas of other threads.
 */
module ArenaRuns {
  import opened ArenaArithmetic
  import opened Sequences
  import opened SerialModel
  import opened BumpSafety
  import opened ArrayCache
  import opened ArenaCleanup

  /** base is where the system would put a new block, should the request need one. */
  datatype Op =
    | Allocate(forArray: bool, n: nat, base: Address)
    | AllocateWithCleanup(n: nat, elem: nat, fn: nat, base: Address)
    | ReturnArray(p: Address, size: nat)
    | ProgramStore(lo: Address, w: Address, v: nat)
    | AdoptForeign(lo: Address, hi: Address)
    | YieldLive(lo: Address)

  predicate Legal(a: Arena, policy: Policy, op: Op) {
    match op
    case Allocate(_, n, base) => Request(n) && CanProvide(a, n, policy, base)
    case AllocateWithCleanup(n, _, _, base) => Request(n) && CanProvide(a, n + CLEANUP_SIZE, policy, base)
    case ReturnArray(p, size) => MayReturn(a, p, size) && size < SIZE_RANGE
    case ProgramStore(lo, w, _) => MayStore(a, lo, w)
    case AdoptForeign(lo, hi) => MayAdopt(a, lo, hi)
    case YieldLive(lo) => MayYield(a, lo)
  }

  function AllocateSpec(a: Arena, forArray: bool, n: nat, policy: Policy, base: Address): Arena
    requires Inv(a) && Request(n) && CanProvide(a, n, policy, base)
  {
    ProvideKeepsInv(a, n, policy, base);
    if forArray && CacheHit(a.s, n) then PopKeepsInv(a, n); Pop(a, n) else Bump(Provide(a, n, policy, base), n)
  }

  function CleanupSpec(a: Arena, n: nat, c: Cleanup, policy: Policy, base: Address): Arena
    requires Inv(a) && Request(n) && CanProvide(a, n + CLEANUP_SIZE, policy, base)
  {
    ProvideKeepsInv(a, n + CLEANUP_SIZE, policy, base);
    BumpWithCleanup(Provide(a, n + CLEANUP_SIZE, policy, base), n, c)
  }

  function ReturnSpec(a: Arena, p: Address, size: nat): Arena
    requires Inv(a) && MayReturn(a, p, size) && size < SIZE_RANGE
  {
    if ReturnClass(size) >= a.s.tableLen then TableGrows(size, a.s.tableLen); Grow(a, p, size) else Push(a, p, size)
  }

  function Step(a: Arena, policy: Policy, op: Op): Arena
    requires Inv(a) && Legal(a, policy, op)
  {
    match op
    case Allocate(forArray, n, base) => AllocateSpec(a, forArray, n, policy, base)
    case AllocateWithCleanup(n, elem, fn, base) => CleanupSpec(a, n, Cleanup(elem, fn), policy, base)
    case ReturnArray(p, size) => ReturnSpec(a, p, size)
    case ProgramStore(_, w, v) => Store(a, w, v)
    case AdoptForeign(lo, hi) => Adopt(a, lo, hi)
    case YieldLive(lo) => Yield(a, lo)
  }

  lemma AllocateKeepsInv(a: Arena, forArray: bool, n: nat, policy: Policy, base: Address)
    requires Inv(a) && Request(n) && CanProvide(a, n, policy, base)
    ensures Inv(AllocateSpec(a, forArray, n, policy, base))
  {
    ProvideKeepsInv(a, n, policy, base);
    if forArray && CacheHit(a.s, n) {
      PopKeepsInv(a, n);
    } else {
      BumpKeepsInv(Provide(a, n, policy, base), n);
    }
  }

  lemma CleanupKeepsInv(a: Arena, n: nat, c: Cleanup, policy: Policy, base: Address)
    requires Inv(a) && Request(n) && CanProvide(a, n + CLEANUP_SIZE, policy, base)
    ensures Inv(CleanupSpec(a, n, c, policy, base))
  {
    ProvideKeepsInv(a, n + CLEANUP_SIZE, policy, base);
    BumpWithCleanupKeepsInv(Provide(a, n + CLEANUP_SIZE, policy, base), n, c);
  }

  lemma ReturnKeepsInv(a: Arena, p: Address, size: nat)
    requires Inv(a) && MayReturn(a, p, size) && size < SIZE_RANGE
    ensures Inv(ReturnSpec(a, p, size))
  {
    if ReturnClass(size) >= a.s.tableLen {
      GrowKeepsInv(a, p, size);
    } else {
      PushKeepsInv(a, p, size);
    }
  }

  lemma StepKeepsInv(a: Arena, policy: Policy, op: Op)
    requires Inv(a) && Legal(a, policy, op)
    ensures Inv(Step(a, policy, op))
  {
    match op
    case Allocate(forArray, n, base) => AllocateKeepsInv(a, forArray, n, policy, base);
    case AllocateWithCleanup(n, elem, fn, base) => CleanupKeepsInv(a, n, Cleanup(elem, fn), policy, base);
    case ReturnArray(p, size) => ReturnKeepsInv(a, p, size);
    case ProgramStore(lo, w, v) => StoreKeepsInv(a, lo, w, v);
    case AdoptForeign(lo, hi) => AdoptKeepsInv(a, lo, hi);
    case YieldLive(lo) => YieldKeepsInv(a, lo);
  }

  /** A sequence of operations each of which is legal when its turn comes. */
  predicate LegalRun(a: Arena, policy: Policy, ops: seq<Op>)
    requires Inv(a)
    decreases |ops|
  {
    ops == [] ||
    (Legal(a, policy, ops[0]) && (StepKeepsInv(a, policy, ops[0]); LegalRun(Step(a, policy, ops[0]), policy, ops[1..])))
  }

  function Run(a: Arena, policy: Policy, ops: seq<Op>): Arena
    requires Inv(a) && LegalRun(a, policy, ops)
    decreases |ops|
  {
    if ops == [] then a
    else StepKeepsInv(a, policy, ops[0]); Run(Step(a, policy, ops[0]), policy, ops[1..])
  }

  lemma {:induction false} RunKeepsInv(a: Arena, policy: Policy, ops: seq<Op>)
    requires Inv(a) && LegalRun(a, policy, ops)
    ensures Inv(Run(a, policy, ops))
    decreases |ops|
  {
    if ops != [] {
      StepKeepsInv(a, policy, ops[0]);
      RunKeepsInv(Step(a, policy, ops[0]), policy, ops[1..]);
    }
  }

  // ---------------------------------------------------------------- what the invariant means

  predicate Live(a: Arena, x: Address) {
    x in a.l.areas && a.l.areas[x].kind.Live?
  }

  function SpaceUsed(s: Serial): int
    requires s.blocks != []
  {
    HeadUsed(s) + s.spaceUsed - SERIAL_ARENA_SIZE
  }

  /** Memory safety over any run, in plain terms. */
  lemma RunIsMemorySafe(base: Address, size: nat, policy: Policy, ops: seq<Op>)
    requires base > 0 && base % 8 == 0 && base + size <= SIZE_RANGE
    requires BLOCK_HEADER_SIZE + SERIAL_ARENA_SIZE <= size
    requires Inv(New(base, size)) && LegalRun(New(base, size), policy, ops)
    ensures var a := Run(New(base, size), policy, ops);
            // live memory is aligned and no two pieces of it share a byte; free blocks and the table are apart from it
            && (forall x :: x in a.l.areas ==> x % 8 == 0 && x < a.l.areas[x].hi)
            && (forall x, y :: x in a.l.areas && y in a.l.areas && x < y ==> a.l.areas[x].hi <= y)
            // it lies inside the handed-out part of a block, above the header and below the nodes, or in no block at
            // all
            && (forall x, i :: x in a.l.areas && 0 <= i < |a.s.blocks| ==>
                  || HeaderEnd(a.s.blocks, i) <= x < a.l.areas[x].hi <= Top(a.s, i)
                  || a.l.areas[x].hi <= a.s.blocks[i].base || a.s.blocks[i].base + a.s.blocks[i].size <= x)
            && (forall i :: 0 <= i < |a.s.blocks| ==>
                  Top(a.s, i) <= Bottom(a.s.blocks, a.s.limit, i) <= InitialLimit(a.s.blocks, i)
                  <= a.s.blocks[i].base + a.s.blocks[i].size)
            // blocks do not overlap
            && (forall i, j :: 0 <= i < j < |a.s.blocks| ==> Apart(a.s.blocks[i], a.s.blocks[j]))
  {
    RunKeepsInv(New(base, size), policy, ops);
    var a := Run(New(base, size), policy, ops);
    assert BlocksOk(a.s) && AreasOk(a.s, a.l.areas);
    hide Inv, Run, LegalRun, New;
    forall i | 0 <= i < |a.s.blocks|
      ensures Top(a.s, i) <= Bottom(a.s.blocks, a.s.limit, i) <= InitialLimit(a.s.blocks, i)
              <= a.s.blocks[i].base + a.s.blocks[i].size
    {
      assert BlockOk(a.s, i);
    }
    forall x, i | x in a.l.areas && 0 <= i < |a.s.blocks|
      ensures || HeaderEnd(a.s.blocks, i) <= x < a.l.areas[x].hi <= Top(a.s, i)
              || a.l.areas[x].hi <= a.s.blocks[i].base || a.s.blocks[i].base + a.s.blocks[i].size <= x
    {
      assert Clear(a.s, i, x, a.l.areas[x].hi);
    }
  }

  // ---------------------------------------------------------------- objects placed by alignment

  /** After any run, an object of any power-of-two alignment is placed, as Arena::AllocateAligned places it, inside an
      area of its own: aligned as asked, and apart from everything else in use. */
  lemma RunPlacesObjects(base: Address, size: nat, policy: Policy, ops: seq<Op>, objectSize: nat, k: nat,
                         newBase: Address)
    requires base > 0 && base % 8 == 0 && base + size <= SIZE_RANGE
    requires BLOCK_HEADER_SIZE + SERIAL_ARENA_SIZE <= size
    requires Inv(New(base, size)) && LegalRun(New(base, size), policy, ops)
    requires 0 < objectSize <= SIZE_RANGE - 8 && (k > 3 ==> objectSize % 8 == 0)
    requires Legal(Run(New(base, size), policy, ops), policy,
        Allocate(false, RequestSize(objectSize, Pow2(k)), newBase))
    ensures var a := Run(New(base, size), policy, ops);
            var n := RequestSize(objectSize, Pow2(k));
            && Inv(a) && HeadUsed(a.s) >= 0
            && var p := Provide(a, n, policy, newBase).s.ptr;
            var a' := Step(a, policy, Allocate(false, n, newBase));
              && Placed(p, Pow2(k)) % Pow2(k) == 0
              && p in a'.l.areas && a'.l.areas[p].kind.Live?
              && p <= Placed(p, Pow2(k)) && Placed(p, Pow2(k)) + objectSize <= a'.l.areas[p].hi
              && (forall x :: x in a'.l.areas && x != p ==>
                    a'.l.areas[x].hi <= Placed(p, Pow2(k)) || Placed(p, Pow2(k)) + objectSize <= x)
  {
    RunKeepsInv(New(base, size), policy, ops);
    var a, n := Run(New(base, size), policy, ops), RequestSize(objectSize, Pow2(k));
    RequestIsPositive(objectSize, k);
    PlacedIsSafe(a, policy, objectSize, k, newBase);
  }

  lemma RequestIsPositive(size: nat, k: nat)
    requires 0 < size <= SIZE_RANGE - 8
    ensures RequestSize(size, Pow2(k)) >= size
  {
    AlignUpTo8Exactly(size);
  }

  lemma LimitInRange(s: Serial)
    requires BlocksOk(s)
    ensures s.limit <= SIZE_RANGE
  {
    assert BlockOk(s, |s.blocks| - 1);
  }

  lemma OverAlignedRequest(size: nat, align: nat)
    requires 0 < size && size % 8 == 0 && align > 8
    ensures RequestSize(size, align) >= align
  {
  }

  lemma RoomForAlignment(a: Arena, size: nat, k: nat)
    requires Inv(a) && HasSpace(a.s, RequestSize(size, Pow2(k))) && 0 < size && (k > 3 ==> size % 8 == 0)
    ensures k > 3 ==> a.s.ptr + Pow2(k) <= SIZE_RANGE
  {
    LimitInRange(a.s);
    hide Inv, RequestSize;
    if k > 3 {
      SmallPowers();
      Pow2Monotone(4, k);
      OverAlignedRequest(size, Pow2(k));
    }
  }

  lemma PlacedIsSafe(a: Arena, policy: Policy, size: nat, k: nat, base: Address)
    requires Inv(a) && 0 < size <= SIZE_RANGE - 8 && (k > 3 ==> size % 8 == 0)
    requires Legal(a, policy, Allocate(false, RequestSize(size, Pow2(k)), base)) && RequestSize(size, Pow2(k)) > 0
    ensures HeadUsed(a.s) >= 0
    ensures var n := RequestSize(size, Pow2(k));
            var p := Provide(a, n, policy, base).s.ptr;
            var a' := Step(a, policy, Allocate(false, n, base));
              && Placed(p, Pow2(k)) % Pow2(k) == 0
              && p in a'.l.areas && a'.l.areas[p].kind.Live?
              && p <= Placed(p, Pow2(k)) && Placed(p, Pow2(k)) + size <= a'.l.areas[p].hi
              && (forall x :: x in a'.l.areas && x != p ==>
                    a'.l.areas[x].hi <= Placed(p, Pow2(k)) || Placed(p, Pow2(k)) + size <= x)
  {
    var n := RequestSize(size, Pow2(k));
    ProvideKeepsInv(a, n, policy, base);
    var room := Provide(a, n, policy, base);
    AllocateKeepsInv(a, false, n, policy, base);
    assert AllocateSpec(a, false, n, policy, base) == Bump(room, n);
    assert AreasOk(Bump(room, n).s, Bump(room, n).l.areas) && room.s.ptr % 8 == 0;
    RoomForAlignment(room, size, k);
    hide Inv, Placed, RequestSize, Pow2, Provide, CanProvide, BlocksOk;
    OverAlignedFits(room.s.ptr, size, k);
  }

  // ---------------------------------------------------------------- space over any run

  /** What one operation takes from a block by bumping: nothing for a recycled array, a return or a cleanup node. */
  function BumpedByOne(a: Arena, op: Op): nat {
    match op
    case Allocate(forArray, n, _) => if forArray && CacheHit(a.s, n) then 0 else n
    case AllocateWithCleanup(n, _, _, _) => n
    case _ => 0
  }

  /** The sizes of all requests of a run that were served by bumping. */
  function BumpedBy(a: Arena, policy: Policy, ops: seq<Op>): nat
    requires Inv(a) && LegalRun(a, policy, ops)
    decreases |ops|
  {
    if ops == [] then 0
    else
      StepKeepsInv(a, policy, ops[0]);
      BumpedByOne(a, ops[0]) + BumpedBy(Step(a, policy, ops[0]), policy, ops[1..])
  }

  lemma StepServes(a: Arena, policy: Policy, op: Op)
    requires Inv(a) && Legal(a, policy, op)
    ensures Step(a, policy, op).l.served == a.l.served + BumpedByOne(a, op)
  {
    hide Inv, CacheHit, CanProvide, MayReturn, MayStore, MayAdopt, FreshBlock;
    match op
    case Allocate(_, n, base) => ProvideKeepsInv(a, n, policy, base);
    case AllocateWithCleanup(n, _, _, base) => ProvideKeepsInv(a, n + CLEANUP_SIZE, policy, base);
    case _ =>
  }

  lemma {:induction false} RunServes(a: Arena, policy: Policy, ops: seq<Op>)
    requires Inv(a) && LegalRun(a, policy, ops)
    ensures Run(a, policy, ops).l.served == a.l.served + BumpedBy(a, policy, ops)
    decreases |ops|
  {
    if ops != [] {
      StepKeepsInv(a, policy, ops[0]);
      StepServes(a, policy, ops[0]);
      hide Inv, Step, Legal;
      RunServes(Step(a, policy, ops[0]), policy, ops[1..]);
    }
  }

  lemma SpaceOkMeans(a: Arena)
    requires BlocksOk(a.s) && SpaceOk(a.s, a.l)
    ensures SpaceUsed(a.s) == a.l.served
    ensures a.s.spaceAllocated == SumSizes(a.s.blocks)
    ensures SpaceUsed(a.s) <= a.s.spaceAllocated
  {
    assert BlockOk(a.s, |a.s.blocks| - 1);
  }

  /** After any run SpaceUsed is the sum of the sizes of all requests served by bumping, over all blocks, without
      cleanup nodes, headers and recycled arrays; it never exceeds SpaceAllocated, which is the sum of the block
      sizes. */
  lemma SpaceIsAccounted(base: Address, size: nat, policy: Policy, ops: seq<Op>)
    requires base > 0 && base % 8 == 0 && base + size <= SIZE_RANGE
    requires BLOCK_HEADER_SIZE + SERIAL_ARENA_SIZE <= size
    requires Inv(New(base, size)) && LegalRun(New(base, size), policy, ops)
    ensures var a := Run(New(base, size), policy, ops);
            && a.s.blocks != []
            && SpaceUsed(a.s) == BumpedBy(New(base, size), policy, ops)
            && SpaceUsed(a.s) <= a.s.spaceAllocated == SumSizes(a.s.blocks)
  {
    RunKeepsInv(New(base, size), policy, ops);
    RunServes(New(base, size), policy, ops);
    hide Run, LegalRun, BumpedBy;
    SpaceOkMeans(Run(New(base, size), policy, ops));
  }

  // ---------------------------------------------------------------- the blocks over one step

  lemma ReturnKeepsBlocks(a: Arena, p: Address, size: nat)
    requires Inv(a) && MayReturn(a, p, size) && size < SIZE_RANGE
    ensures ReturnSpec(a, p, size).s.blocks == a.s.blocks
  {
    hide Inv;
  }

  /** An operation adds at most one block, where the system provides it, and leaves the others where they are. */
  lemma StepBlocks(a: Arena, policy: Policy, op: Op)
    requires Inv(a) && Legal(a, policy, op)
    ensures var before, now := a.s.blocks, Step(a, policy, op).s.blocks;
            && |before| <= |now| <= |before| + 1
            && (forall i :: 0 <= i < |before| ==> now[i].base == before[i].base && now[i].size == before[i].size)
            && (|now| > |before| ==> (op.Allocate? || op.AllocateWithCleanup?) && now[|before|].base == op.base > 0)
  {
    hide Inv, CacheHit, MayReturn, MayStore, MayAdopt;
    match op
    case Allocate(_, n, base) =>
      ProvideKeepsInv(a, n, policy, base);
      if !HasSpace(a.s, n) { NewBlockShape(a.s, n, policy, base); }
    case AllocateWithCleanup(n, _, _, base) =>
      ProvideKeepsInv(a, n + CLEANUP_SIZE, policy, base);
      if !HasSpace(a.s, n + CLEANUP_SIZE) { NewBlockShape(a.s, n + CLEANUP_SIZE, policy, base); }
    case ReturnArray(p, size) => ReturnKeepsBlocks(a, p, size);
    case _ =>
  }

  // ---------------------------------------------------------------- cleanups over any run

  predicate RoundPolicy(policy: Policy) {
    policy.startBlockSize % 8 == 0 && policy.maxBlockSize % 8 == 0
  }

  lemma ProvideKeepsRoundSizes(a: Arena, n: nat, policy: Policy, base: Address)
    requires Inv(a) && n % 8 == 0 && CanProvide(a, n, policy, base) && RoundSizes(a.s) && RoundPolicy(policy)
    ensures a.s.blocks != [] && HeadUsed(a.s) >= 0 && RoundSizes(Provide(a, n, policy, base).s)
  {
    ProvideKeepsInv(a, n, policy, base);
    hide Inv, FreshBlock;
    NewBlockKeepsRoundSizes(a.s, n, policy, base);
  }

  lemma SameBlocksRound(s: Serial, s': Serial)
    requires RoundSizes(s) && s'.blocks == s.blocks
    ensures RoundSizes(s')
  {
  }

  lemma StepKeepsRoundSizes(a: Arena, policy: Policy, op: Op)
    requires Inv(a) && Legal(a, policy, op) && RoundSizes(a.s) && RoundPolicy(policy)
    ensures RoundSizes(Step(a, policy, op).s)
  {
    hide Inv, CanProvide, MayReturn, MayStore, MayAdopt, RoundSizes, Provide, CacheHit, RequestClass, ReturnSpec;
    var s' := Step(a, policy, op).s;
    match op
    case Allocate(_, n, base) =>
      ProvideKeepsRoundSizes(a, n, policy, base);
      var room := Provide(a, n, policy, base).s;
      if s'.blocks == a.s.blocks { SameBlocksRound(a.s, s'); } else { SameBlocksRound(room, s'); }
    case AllocateWithCleanup(n, _, _, base) =>
      ProvideKeepsRoundSizes(a, n + CLEANUP_SIZE, policy, base);
      SameBlocksRound(Provide(a, n + CLEANUP_SIZE, policy, base).s, s');
    case ReturnArray(p, size) =>
      ReturnKeepsBlocks(a, p, size);
      SameBlocksRound(a.s, s');
    case _ =>
      SameBlocksRound(a.s, s');
  }

  lemma {:induction false} RunKeepsRoundSizes(a: Arena, policy: Policy, ops: seq<Op>)
    requires Inv(a) && LegalRun(a, policy, ops) && RoundSizes(a.s) && RoundPolicy(policy)
    ensures RoundSizes(Run(a, policy, ops).s)
    decreases |ops|
  {
    if ops != [] {
      StepKeepsInv(a, policy, ops[0]);
      StepKeepsRoundSizes(a, policy, ops[0]);
      RunKeepsRoundSizes(Step(a, policy, ops[0]), policy, ops[1..]);
    }
  }

  /** After any run, CleanupList calls every registered cleanup once, newest first, if and only if it passes over no
      block. */
  lemma RunCleansUpExactly(base: Address, size: nat, policy: Policy, ops: seq<Op>)
    requires base > 0 && base % 8 == 0 && base + size <= SIZE_RANGE
    requires BLOCK_HEADER_SIZE + SERIAL_ARENA_SIZE <= size
    requires Inv(New(base, size)) && LegalRun(New(base, size), policy, ops)
    ensures var a := Run(New(base, size), policy, ops);
            Calls(a.s) == Reversed(a.l.registered) <==> !PassesOver(a.s, |a.s.blocks|)
  {
    RunKeepsInv(New(base, size), policy, ops);
    var a := Run(New(base, size), policy, ops);
    assert BlocksOk(a.s) && CleanupOk(a.s, a.l);
    hide Inv, Run, LegalRun;
    CleanupRunsAllExactly(a);
  }

  /** With sizes that are multiples of 8, that is always so. */
  lemma RunCleansUp(base: Address, size: nat, policy: Policy, ops: seq<Op>)
    requires base > 0 && base % 8 == 0 && base + size <= SIZE_RANGE
    requires BLOCK_HEADER_SIZE + SERIAL_ARENA_SIZE <= size && size % 8 == 0 && RoundPolicy(policy)
    requires Inv(New(base, size)) && LegalRun(New(base, size), policy, ops)
    ensures var a := Run(New(base, size), policy, ops); Calls(a.s) == Reversed(a.l.registered)
  {
    RunCleansUpExactly(base, size, policy, ops);
    RunKeepsRoundSizes(New(base, size), policy, ops);
    RoundSizesPassOverNothing(Run(New(base, size), policy, ops).s);
  }

  // ---------------------------------------------------------------- a run that loses a cleanup

  const ODD_POLICY := Policy(256, 1001)

  /** From a block of 1024 bytes, one request of 912 bytes with a cleanup makes AllocateMemory double the size up to the
      maximum of 1001 bytes, and the one node of that block is passed over: the cleanup is registered and never
      called. */
  lemma OddBlockLosesCleanup(elem: nat, fn: nat)
    ensures var a, ops := New(0x1000, 1024), [AllocateWithCleanup(912, elem, fn, 0x2000)];
            && Inv(a) && LegalRun(a, ODD_POLICY, ops)
            && Run(a, ODD_POLICY, ops).l.registered == [Cleanup(elem, fn)]
            && Calls(Run(a, ODD_POLICY, ops).s) == []
  {
    var a, op := New(0x1000, 1024), AllocateWithCleanup(912, elem, fn, 0x2000);
    NewKeepsInv(0x1000, 1024);
    OddBlockIsProvided();
    assert [op][1..] == [] && [op][0] == op;
    StepKeepsInv(a, ODD_POLICY, op);
    OddBlockIsPassedOver(elem, fn);
    assert LegalRun(Step(a, ODD_POLICY, op), ODD_POLICY, []);
  }

  lemma OddBlockIsProvided()
    ensures var a := New(0x1000, 1024);
            && Request(912) && CanProvide(a, 912 + CLEANUP_SIZE, ODD_POLICY, 0x2000) &&
              !HasSpace(a.s, 912 + CLEANUP_SIZE)
            && BlockSize(ODD_POLICY, 1024, 912 + CLEANUP_SIZE) == 1001
  {
  }

  lemma OddBlockIsPassedOver(elem: nat, fn: nat)
    requires Inv(New(0x1000, 1024))
    requires Legal(New(0x1000, 1024), ODD_POLICY, AllocateWithCleanup(912, elem, fn, 0x2000))
    ensures var a := Step(New(0x1000, 1024), ODD_POLICY, AllocateWithCleanup(912, elem, fn, 0x2000));
            a.l.registered == [Cleanup(elem, fn)] && Calls(a.s) == []
  {
    OddBlockIsProvided();
    var s := Step(New(0x1000, 1024), ODD_POLICY, AllocateWithCleanup(912, elem, fn, 0x2000)).s;
    assert |s.blocks| == 2 && s.blocks[1] == Block(0x2000, 1001, 0) && s.limit == 0x2000 + 985;
    assert s.blocks[0] == Block(0x1000, 1024, 0x1000 + 1024);
    hide Step, Inv, Legal;
    assert BlockCalls(s.mem, s.limit, CallLimit(s.blocks, 1)) == [];
    assert CallsTo(s.blocks, s.limit, s.mem, 0) == [] && CallsTo(s.blocks, s.limit, s.mem, 1) == [];
  }
}
