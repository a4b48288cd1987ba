/**
 SerialArena as the code has it: one object whose methods move ptr_ and limit_, chain blocks, and relink the free lists.
 Each method is proved to do what SerialModel and ArenaRuns say; the ledger is the bookkeeping that makes it sayable.
 */
module SerialArena {
  import opened ArenaArithmetic
  import opened Sequences
  import opened SerialModel
  import opened BumpSafety
  import opened ArrayCache
  import opened ArenaCleanup
  import opened ArenaRuns

  class SerialArena {
    var blocks: seq<Block>          // head_ and what it links to; head_ is the last
    var ptr: Address
    var limit: Address
    var spaceUsed: nat
    var spaceAllocated: nat
    var cachedBlocks: Address
    var cachedBlockLength: nat
    var mem: Memory
    ghost var ledger: Ledger

    ghost function View(): Serial
      reads this
    {
      Serial(blocks, ptr, limit, spaceUsed, spaceAllocated, cachedBlocks, cachedBlockLength, mem)
    }

    ghost function State(): Arena
      reads this
    {
      Arena(View(), ledger)
    }

    ghost predicate Valid()
      reads this
    {
      Inv(State())
    }

    /** SerialArena::New in memory of size bytes at base. */
    constructor (base: Address, size: nat)
      requires base > 0 && base % 8 == 0 && base + size <= SIZE_RANGE
      requires BLOCK_HEADER_SIZE + SERIAL_ARENA_SIZE <= size
      ensures Valid() && State() == New(base, size)
    {
      blocks := [Block(base, size, 0)];
      ptr := base + BLOCK_HEADER_SIZE + SERIAL_ARENA_SIZE;
      limit := base + RoundDown(size, 8);
      spaceUsed, spaceAllocated := 0, size;
      cachedBlocks, cachedBlockLength := 0, 0;
      mem := map[];
      ledger := Ledger(map[], [], 0, []);
      new;
      NewKeepsInv(base, size);
    }

    // -------------------------------------------------------------- bump allocation

    method AllocateFromExisting(n: nat) returns (ret: Address)
      modifies this
      ensures ret == old(ptr) && State() == Bump(old(State()), n)
    {
      ret := ptr;
      ptr := ptr + n;
      ledger := ledger.(areas := WithLive(ledger.areas, ret, n), served := ledger.served + n);
    }

    method AllocateNewBlock(n: nat, policy: Policy, base: Address)
      requires blocks != [] && HeadUsed(View()) >= 0
      modifies this
      ensures View() == SerialModel.AllocateNewBlock(old(View()), n, policy, base) && ledger == old(ledger)
    {
      var last := |blocks| - 1;
      blocks := blocks[last := blocks[last].(start := limit)];
      var used := ptr - (blocks[last].base + BLOCK_HEADER_SIZE);
      spaceUsed := spaceUsed + used;
      var size := BlockSize(policy, blocks[last].size, n);
      spaceAllocated := spaceAllocated + size;
      blocks := blocks + [Block(base, size, 0)];
      ptr := base + BLOCK_HEADER_SIZE;
      limit := base + size;
    }

    /** The first block of the list for this size, or null. */
    method TryAllocateFromCachedBlock(size: nat) returns (ret: Address)
      requires Valid()
      modifies this
      ensures Valid()
      ensures ret != 0 <==> CacheHit(old(View()), size)
      ensures ret != 0 ==> RequestClass(size) < |old(ledger).free| && old(ledger).free[RequestClass(size)] != []
      ensures ret != 0 ==>
                State() == Pop(old(State()), size) && ret == Load(old(mem), Slot(cachedBlocks, RequestClass(size)))
      ensures ret == 0 ==> State() == old(State())
    {
      hide Inv;
      if size < 16 {
        return 0;
      }
      Log2AtLeast16(size - 1);
      var index := Log2Floor(size - 1) - 3;
      if index >= cachedBlockLength {
        return 0;
      }
      var cachedHead := Load(mem, Slot(cachedBlocks, index));
      if cachedHead == 0 {
        return 0;
      }
      ret := cachedHead;
      PopKeepsInv(State(), size);
      mem := mem[Slot(cachedBlocks, index) := Load(mem, cachedHead)];
      ledger := ledger.(areas := ledger.areas[ret := Area(ret + size, Live)],
                        free := ledger.free[index := ledger.free[index][1..]]);
    }

    method AllocateAlignedFallback(n: nat, policy: Policy, base: Address) returns (ret: Address)
      requires Valid() && n % 8 == 0 && !HasSpace(View(), n) && CanProvide(State(), n, policy, base)
      modifies this
      ensures Valid()
      ensures HeadUsed(old(View())) >= 0
      ensures State() == Bump(Provide(old(State()), n, policy, base), n) &&
          ret == Provide(old(State()), n, policy, base).s.ptr
    {
      hide Inv;
      ProvideKeepsInv(State(), n, policy, base);
      AllocateNewBlock(n, policy, base);
      BumpKeepsInv(State(), n);
      ret := AllocateFromExisting(n);
    }

    /** n bytes of fresh or recycled memory: 8-aligned, live from now on, and no byte of it was live before. */
    method AllocateAligned(forArray: bool, n: nat, policy: Policy, base: Address) returns (ret: Address)
      requires Valid() && Request(n) && CanProvide(State(), n, policy, base)
      modifies this
      ensures Valid() && State() == AllocateSpec(old(State()), forArray, n, policy, base)
      ensures HeadUsed(old(View())) >= 0
      ensures ret == if forArray && CacheHit(old(View()), n)
                     then Load(old(mem), Slot(old(cachedBlocks), RequestClass(n)))
                     else Provide(old(State()), n, policy, base).s.ptr
      ensures ret % 8 == 0
      ensures n > 0 ==> ret in ledger.areas && ledger.areas[ret] == Area(ret + n, Live)
      ensures forall x :: x in old(ledger).areas && old(ledger).areas[x].kind.Live? ==>
                x in ledger.areas && ledger.areas[x] == old(ledger).areas[x] &&
                    (n > 0 ==> ret + n <= x || ledger.areas[x].hi <= ret)
    {
      hide Inv;
      ghost var before := State();
      ProvideKeepsInv(before, n, policy, base);
      ret := 0;
      if forArray {
        ret := TryAllocateFromCachedBlock(n);
        if ret != 0 {
          PopKeepsInv(before, n);
          PopIsFresh(before, n);
          return;
        }
      }
      BumpKeepsInv(Provide(before, n, policy, base), n);
      BumpIsFresh(Provide(before, n, policy, base), n);
      if n > limit - ptr {
        ret := AllocateAlignedFallback(n, policy, base);
      } else {
        ret := AllocateFromExisting(n);
      }
    }

    // -------------------------------------------------------------- cleanups

    /** The region and the node; the caller fills in the node. */
    method AllocateAlignedWithCleanup(n: nat, policy: Policy, base: Address) returns (ret: Address, node: Address)
      requires Valid() && Request(n) && CanProvide(State(), n + CLEANUP_SIZE, policy, base)
      modifies this
      ensures HeadUsed(old(View())) >= 0
      ensures var a := Provide(old(State()), n + CLEANUP_SIZE, policy, base);
              && ret == a.s.ptr && a.s.limit >= CLEANUP_SIZE && node == a.s.limit - CLEANUP_SIZE
              && View() == a.s.(ptr := a.s.ptr + n, limit := node)
              && ledger == old(ledger)
    {
      hide Inv;
      ProvideKeepsInv(State(), n + CLEANUP_SIZE, policy, base);
      if n + CLEANUP_SIZE > limit - ptr {
        AllocateNewBlock(n + CLEANUP_SIZE, policy, base);
      }
      ret := ptr;
      ptr := ptr + n;
      limit := limit - CLEANUP_SIZE;
      node := limit;
    }

    /** Fill in the node an allocation has reserved. */
    method FillNode(ghost before: Arena, n: nat, ret: Address, node: Address, c: Cleanup)
      requires Inv(before) && HasSpace(before.s, n + CLEANUP_SIZE) && n % 8 == 0
      requires ret == before.s.ptr && node + CLEANUP_SIZE == before.s.limit
      requires View() == before.s.(ptr := ret + n, limit := node) && ledger == before.l
      modifies this
      ensures Valid() && State() == BumpWithCleanup(before, n, c)
    {
      hide Inv;
      mem := mem[node := c.elem];
      mem := mem[node + POINTER_SIZE := c.fn];
      ledger := ledger.(areas := WithLive(ledger.areas, ret, n), served := ledger.served + n,
                        registered := ledger.registered + [c]);
      BumpWithCleanupKeepsInv(before, n, c);
    }

    method AddCleanup(elem: nat, fn: nat, policy: Policy, base: Address)
      requires Valid() && CanProvide(State(), CLEANUP_SIZE, policy, base)
      modifies this
      ensures Valid() && State() == CleanupSpec(old(State()), 0, Cleanup(elem, fn), policy, base)
      ensures ledger.registered == old(ledger).registered + [Cleanup(elem, fn)] && ledger.areas == old(ledger).areas
    {
      hide Inv;
      ProvideKeepsInv(State(), CLEANUP_SIZE, policy, base);
      ghost var room := Provide(State(), CLEANUP_SIZE, policy, base);
      var ret, node := AllocateAlignedWithCleanup(0, policy, base);
      FillNode(room, 0, ret, node, Cleanup(elem, fn));
    }

    /** Arena::AllocateInternal for an object with a destructor, whose alignment is 2^k. An over-aligned size must be a
        multiple of 8, as sizeof of an over-aligned type is. The cleanup registered is the one of the returned
        object. */
    method AllocateInternal(size: nat, k: nat, destructor: nat, policy: Policy, base: Address) returns (obj: Address)
      requires Valid() && size <= SIZE_RANGE - 8 && (k > 3 ==> size % 8 == 0)
      requires var n := RequestSize(size, Pow2(k)); Request(n) && CanProvide(State(), n + CLEANUP_SIZE, policy, base)
      modifies this
      ensures Valid()
      ensures HeadUsed(old(View())) >= 0
      ensures var n := RequestSize(size, Pow2(k));
              var room := Provide(old(State()), n + CLEANUP_SIZE, policy, base);
              && State() == BumpWithCleanup(room, n, Cleanup(obj, destructor))
              && obj % Pow2(k) == 0 && obj == Placed(room.s.ptr, Pow2(k))
              && room.s.ptr <= obj && obj + size <= room.s.ptr + n
    {
      hide Inv, Placed, RequestSize, Pow2;
      var n := RequestSize(size, Pow2(k));
      ProvideKeepsInv(State(), n + CLEANUP_SIZE, policy, base);
      ghost var room := Provide(State(), n + CLEANUP_SIZE, policy, base);
      var ret, node := AllocateAlignedWithCleanup(n, policy, base);
      obj := Placed(ret, Pow2(k));
      ObjectFits(room, size, k);
      OverAlignedFits(ret, size, k);
      FillNode(room, n, ret, node, Cleanup(obj, destructor));
    }

    /** Calls every cleanup; calls is the sequence of calls made. */
    method CleanupList() returns (calls: seq<Cleanup>)
      requires Valid()
      modifies this`blocks
      ensures calls == Calls(old(View()))
      ensures old(blocks) != []
      ensures var head := |old(blocks)| - 1; blocks == old(blocks)[head := old(blocks)[head].(start := limit)]
      ensures calls == Reversed(ledger.registered) <==> !PassesOver(old(View()), |old(blocks)|)
    {
      CleanupRunsAllExactly(State());
      assert blocks != [];
      hide Inv, CallsTo;
      var head := |blocks| - 1;
      blocks := blocks[head := blocks[head].(start := limit)];
      calls := CallBlocks(old(View()));
    }

    /** The loop over the blocks, the head first; s is the arena before the head's start was recorded. */
    method CallBlocks(ghost s: Serial) returns (calls: seq<Cleanup>)
      requires |blocks| == |s.blocks| && mem == s.mem
      requires forall i :: 0 <= i < |blocks| ==>
                 && blocks[i].base == s.blocks[i].base && blocks[i].size == s.blocks[i].size
                 && blocks[i].start == Bottom(s.blocks, s.limit, i)
      ensures calls == Calls(s)
    {
      hide CallsUp, BlockCalls, CallsTo;
      calls := [];
      var b := |blocks| - 1;
      while b >= 0
        invariant -1 <= b < |blocks|
        invariant calls + CallsTo(s.blocks, s.limit, s.mem, b + 1) == CallsTo(s.blocks, s.limit, s.mem, |s.blocks|)
      {
        var some := CallNodes(blocks[b].start, blocks[b].base + RoundDown(blocks[b].size, 8));
        CallsStep(s, b);
        Associate(calls, some, CallsTo(s.blocks, s.limit, s.mem, b));
        calls := calls + some;
        b := b - 1;
      }
      NoCallsLeft(s);
    }

    /** The loop over the nodes of one block. */
    method CallNodes(start: Address, end: Address) returns (calls: seq<Cleanup>)
      ensures calls == BlockCalls(mem, start, end)
    {
      calls := [];
      var it := start;
      if NodeDistance(end, it) > 0 {
        while it < end
          invariant calls + CallsUp(mem, it, end) == CallsUp(mem, start, end)
          decreases end - it
        {
          calls := calls + [NodeAt(mem, it)];
          it := it + CLEANUP_SIZE;
        }
      }
    }

    // -------------------------------------------------------------- returned arrays

    /** std::copy of the old table into the array, then std::fill with null of the rest. */
    method MoveTable(newList: Address, newSize: nat)
      requires cachedBlockLength <= newSize
      modifies this`mem
      ensures mem == ClearWords(CopyWords(old(mem), cachedBlocks, newList, cachedBlockLength), newList,
          cachedBlockLength, newSize)
    {
      for i := 0 to cachedBlockLength
        invariant mem == CopyWords(old(mem), cachedBlocks, newList, i)
      {
        mem := mem[Slot(newList, i) := Load(mem, Slot(cachedBlocks, i))];
      }
      ghost var copied := mem;
      for i := cachedBlockLength to newSize
        invariant mem == ClearWords(copied, newList, cachedBlockLength, i)
      {
        mem := mem[Slot(newList, i) := 0];
      }
    }

    /** The array becomes the table. */
    method GrowTable(p: Address, size: nat)
      requires cachedBlockLength <= Entries(size) && cachedBlockLength <= CappedEntries(size)
      modifies this
      ensures State() == Grow(old(State()), p, size)
    {
      hide CopyWords, ClearWords;
      var newSize := size / POINTER_SIZE;
      MoveTable(p, newSize);
      var newLength := if newSize < 64 then newSize else 64;
      ledger := ledger.(areas := (ledger.areas - {cachedBlocks})[p := Area(p + size, Table)],
                        free := ledger.free + seq(newLength - cachedBlockLength, _ => []));
      cachedBlocks := p;
      cachedBlockLength := newLength;
    }

    /** ReturnArrayMemory: the array goes on the list of its size class, or becomes the table of lists itself. */
    method ReturnArrayMemory(p: Address, size: nat)
      requires Valid() && MayReturn(State(), p, size) && size < SIZE_RANGE
      modifies this
      ensures Valid() && State() == ReturnSpec(old(State()), p, size)
    {
      assert |ledger.free| == cachedBlockLength;
      hide Inv, Log2Floor;
      Log2AtLeast16(size);
      var index := Log2Floor(size) - 4;
      ReturnKeepsInv(State(), p, size);
      if index >= cachedBlockLength {
        TableGrows(size, cachedBlockLength);
        GrowTable(p, size);
        return;
      }
      var slot := Slot(cachedBlocks, index);
      mem := mem[p := Load(mem, slot)];
      mem := mem[slot := p];
      ledger := ledger.(areas := ledger.areas[p := Area(p + size, Free(index))],
                        free := ledger.free[index := [p] + ledger.free[index]]);
    }

    // -------------------------------------------------------------- accounting

    method SpaceUsed() returns (used: nat)
      requires Valid()
      ensures used == ledger.served && used <= spaceAllocated == SumSizes(blocks)
    {
      SpaceOkMeans(State());
      var fromHead := ptr - (blocks[|blocks| - 1].base + BLOCK_HEADER_SIZE);
      used := fromHead + spaceUsed - SERIAL_ARENA_SIZE;
    }
  }

  lemma CallsStep(s: Serial, k: nat)
    requires k < |s.blocks|
    ensures CallsTo(s.blocks, s.limit, s.mem, k + 1) ==
            BlockCalls(s.mem, Bottom(s.blocks, s.limit, k), CallLimit(s.blocks, k)) +
                CallsTo(s.blocks, s.limit, s.mem, k)
  {
  }

  lemma NoCallsLeft(s: Serial)
    ensures CallsTo(s.blocks, s.limit, s.mem, 0) == []
  {
  }

  // ---------------------------------------------------------------- what is handed out was not in use

  /** A block from a free list shares no byte with live memory. */
  lemma PopIsFresh(a: Arena, n: nat)
    requires Inv(a) && CacheHit(a.s, n)
    requires RequestClass(n) < |a.l.free| && a.l.free[RequestClass(n)] != []
    ensures var p := Load(a.s.mem, Slot(a.s.tableAddr, RequestClass(n)));
            && p % 8 == 0
            && (forall x :: x in a.l.areas && a.l.areas[x].kind.Live? ==>
                  x != p && (p + n <= x || a.l.areas[x].hi <= p))
  {
    PopKeepsInv(a, n);
    HeadOfList(a, RequestClass(n));
  }

  /** An object with room for its cleanup node does not reach the end of the address space. */
  lemma ObjectFits(a: Arena, size: nat, k: nat)
    requires Inv(a) && size <= SIZE_RANGE - 8 && HasSpace(a.s, RequestSize(size, Pow2(k)) + CLEANUP_SIZE)
    ensures a.s.ptr % 8 == 0 && a.s.ptr + size + Pow2(k) <= SIZE_RANGE
  {
    assert BlockOk(a.s, |a.s.blocks| - 1);
    AlignUpTo8Exactly(size);
  }

  /** Neither does a region from the head block. */
  lemma BumpIsFresh(a: Arena, n: nat)
    requires Inv(a) && HasSpace(a.s, n)
    ensures a.s.ptr % 8 == 0
    ensures n > 0 ==> forall x :: x in a.l.areas ==> x != a.s.ptr && (a.s.ptr + n <= x || a.l.areas[x].hi <= a.s.ptr)
  {
    if n > 0 {
      RegionDisjoint(a, a.s.ptr + n);
    }
  }
}
