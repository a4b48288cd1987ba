/**
 Bump allocation keeps the invariant of the SerialArena: what it hands out is aligned, inside the head block, and
 disjoint from every area in use, from every header and from every cleanup node; nodes and space are accounted for.
 */
module BumpSafety {
  import opened ArenaArithmetic
  import opened Sequences
  import opened SerialModel

  // ---------------------------------------------------------------- frames

  lemma {:induction false} NodesUpFrame(mem: Memory, mem': Memory, lo: Address, hi: Address)
    requires forall w :: lo <= w < hi ==> Load(mem, w) == Load(mem', w)
    ensures NodesUp(mem, lo, hi) == NodesUp(mem', lo, hi)
    decreases hi - lo
  {
    if lo + CLEANUP_SIZE <= hi {
      NodesUpFrame(mem, mem', lo + CLEANUP_SIZE, hi);
    }
  }

  /** The nodes of a block read the same in two memories. */
  predicate SameNodes(blocks: seq<Block>, limit: Address, i: nat, mem: Memory, mem': Memory)
    requires i < |blocks|
  {
    NodesUp(mem, Bottom(blocks, limit, i), InitialLimit(blocks, i)) ==
    NodesUp(mem', Bottom(blocks, limit, i), InitialLimit(blocks, i))
  }

  lemma {:induction false} NodesToFrame(blocks: seq<Block>, limit: Address, blocks': seq<Block>, limit': Address,
                                        mem: Memory, mem': Memory, k: nat)
    requires k <= |blocks| && k <= |blocks'|
    requires forall i :: 0 <= i < k ==>
               Bottom(blocks, limit, i) == Bottom(blocks', limit', i) &&
                   InitialLimit(blocks, i) == InitialLimit(blocks', i)
    requires forall i :: 0 <= i < k ==> SameNodes(blocks, limit, i, mem, mem')
    ensures NodesTo(blocks, limit, mem, k) == NodesTo(blocks', limit', mem', k)
  {
    if k > 0 {
      assert SameNodes(blocks, limit, k - 1, mem, mem');
      NodesToFrame(blocks, limit, blocks', limit', mem, mem', k - 1);
    }
  }

  /** Writing words inside areas touches no cleanup node. */
  lemma AreaWritesKeepCleanups(s: Serial, l: Ledger, mem': Memory)
    requires BlocksOk(s) && AreasOk(s, l.areas) && CleanupOk(s, l)
    requires forall w :: Load(s.mem, w) != Load(mem', w) ==> InSomeArea(l.areas, w)
    ensures CleanupOk(s.(mem := mem'), l)
  {
    forall i | 0 <= i < |s.blocks| ensures SameNodes(s.blocks, s.limit, i, s.mem, mem') {
      assert BlockOk(s, i);
      forall w | Bottom(s.blocks, s.limit, i) <= w < InitialLimit(s.blocks, i) ensures Load(s.mem, w) == Load(mem', w) {
        if InSomeArea(l.areas, w) {
          var x :| x in l.areas && x <= w < l.areas[x].hi;
          assert Clear(s, i, x, l.areas[x].hi);
        }
      }
      NodesUpFrame(s.mem, mem', Bottom(s.blocks, s.limit, i), InitialLimit(s.blocks, i));
    }
    NodesToFrame(s.blocks, s.limit, s.blocks, s.limit, s.mem, mem', |s.blocks|);
  }

  ghost predicate InSomeArea(areas: map<Address, Area>, w: Address) {
    exists x :: x in areas && x <= w < areas[x].hi
  }

  lemma {:induction false} ChainFrame(mem: Memory, mem': Memory, h: Address, list: seq<Address>)
    requires forall x :: x in list ==> Load(mem, x) == Load(mem', x)
    ensures Chain(mem, h, list) <==> Chain(mem', h, list)
    decreases |list|
  {
    if list != [] && h == list[0] {
      ChainFrame(mem, mem', Load(mem, h), list[1..]);
    }
  }

  /** The free lists only depend on the words of free areas and of the table. */
  lemma CacheFrame(tableAddr: Address, tableLen: nat, mem: Memory, mem': Memory, l: Ledger, areas': map<Address, Area>)
    requires CacheOk(tableAddr, tableLen, mem, l)
    requires forall x :: x in l.areas ==> l.areas[x].hi > x
    requires forall x, w :: x in l.areas && !l.areas[x].kind.Live? && x <= w < l.areas[x].hi ==>
        Load(mem, w) == Load(mem', w)
    requires forall x :: x in l.areas && !l.areas[x].kind.Live? ==> x in areas' && areas'[x] == l.areas[x]
    requires forall x :: x in areas' && !areas'[x].kind.Live? ==> x in l.areas && areas'[x] == l.areas[x]
    ensures CacheOk(tableAddr, tableLen, mem', l.(areas := areas'))
  {
    forall i | 0 <= i < |l.free| ensures ClassOk(tableAddr, mem', l.(areas := areas'), i) {
      assert ClassOk(tableAddr, mem, l, i);
      assert Load(mem, Slot(tableAddr, i)) == Load(mem', Slot(tableAddr, i));
      ChainFrame(mem, mem', Load(mem, Slot(tableAddr, i)), l.free[i]);
    }
  }

  // ---------------------------------------------------------------- a new arena

  lemma NewKeepsInv(base: Address, size: nat)
    requires base > 0 && base % 8 == 0 && base + size <= SIZE_RANGE
    requires BLOCK_HEADER_SIZE + SERIAL_ARENA_SIZE <= size
    ensures Inv(New(base, size))
  {
    var a := New(base, size);
    RoundDownFacts(size, 8);
    assert NodesTo(a.s.blocks, a.s.limit, a.s.mem, 0) == [];
    assert a.s.blocks[..0] == [];
    assert SumSizes([]) == 0;
    assert SumSizes(a.s.blocks) == size;
  }

  // ---------------------------------------------------------------- a new block

  /** The list of blocks after AllocateNewBlock: the old head is sealed, the new head is on top, nothing else
      changed. */
  lemma NewBlockShape(s: Serial, n: nat, policy: Policy, base: Address)
    requires s.blocks != [] && HeadUsed(s) >= 0
    ensures var s' := AllocateNewBlock(s, n, policy, base);
            var last := |s.blocks| - 1;
            && |s'.blocks| == last + 2
            && s'.blocks[last + 1] == Block(base, BlockSize(policy, s.blocks[last].size, n), 0)
            && s'.blocks[last] == s.blocks[last].(start := s.limit)
            && (forall i :: 0 <= i < last ==> s'.blocks[i] == s.blocks[i])
  {
  }

  lemma NewBlockApart(a: Arena, n: nat, policy: Policy, base: Address, i: nat, j: nat)
    requires BlocksOk(a.s) && HeadUsed(a.s) >= 0
    requires FreshBlock(a, base, BlockSize(policy, a.s.blocks[|a.s.blocks| - 1].size, n))
    requires i < j <= |a.s.blocks|
    ensures var s' := AllocateNewBlock(a.s, n, policy, base); j < |s'.blocks| && Apart(s'.blocks[i], s'.blocks[j])
  {
    NewBlockShape(a.s, n, policy, base);
    if j < |a.s.blocks| {
      assert Apart(a.s.blocks[i], a.s.blocks[j]);
    } else {
      assert Apart(a.s.blocks[i], Block(base, BlockSize(policy, a.s.blocks[|a.s.blocks| - 1].size, n), 0));
    }
  }

  /** Sealing the head keeps where each old block begins, ends and stacks its nodes. */
  lemma NewBlockBounds(s: Serial, n: nat, policy: Policy, base: Address, i: nat)
    requires BlocksOk(s) && HeadUsed(s) >= 0 && i < |s.blocks|
    ensures var s' := AllocateNewBlock(s, n, policy, base);
            && i < |s'.blocks|
            && Bottom(s'.blocks, s'.limit, i) == Bottom(s.blocks, s.limit, i)
            && InitialLimit(s'.blocks, i) == InitialLimit(s.blocks, i)
            && HeaderEnd(s'.blocks, i) == HeaderEnd(s.blocks, i)
            && Top(s', i) >= Top(s, i)
            && BlockOk(s', i)
  {
    NewBlockShape(s, n, policy, base);
    assert BlockOk(s, i);
  }

  lemma NewHeadOk(s: Serial, n: nat, policy: Policy, base: Address)
    requires BlocksOk(s) && HeadUsed(s) >= 0 && base > 0 && base % 8 == 0
    requires base + BlockSize(policy, s.blocks[|s.blocks| - 1].size, n) <= SIZE_RANGE
    ensures var s' := AllocateNewBlock(s, n, policy, base);
            |s'.blocks| == |s.blocks| + 1 && BlockOk(s', |s.blocks|) && HasSpace(s', n) && s'.ptr % 8 == 0
  {
    NewBlockShape(s, n, policy, base);
  }

  lemma NewBlockBlocks(a: Arena, n: nat, policy: Policy, base: Address)
    requires BlocksOk(a.s) && HeadUsed(a.s) >= 0
    requires FreshBlock(a, base, BlockSize(policy, a.s.blocks[|a.s.blocks| - 1].size, n))
    ensures var s' := AllocateNewBlock(a.s, n, policy, base); BlocksOk(s') && HasSpace(s', n)
  {
    var s' := AllocateNewBlock(a.s, n, policy, base);
    NewHeadOk(a.s, n, policy, base);
    forall i | 0 <= i < |s'.blocks| ensures BlockOk(s', i) {
      if i < |a.s.blocks| {
        NewBlockBounds(a.s, n, policy, base, i);
      }
    }
    forall i, j | 0 <= i < j < |s'.blocks| ensures Apart(s'.blocks[i], s'.blocks[j]) {
      NewBlockApart(a, n, policy, base, i, j);
    }
  }

  lemma NewBlockAreas(a: Arena, n: nat, policy: Policy, base: Address)
    requires BlocksOk(a.s) && AreasOk(a.s, a.l.areas) && HeadUsed(a.s) >= 0
    requires FreshBlock(a, base, BlockSize(policy, a.s.blocks[|a.s.blocks| - 1].size, n))
    ensures AreasOk(AllocateNewBlock(a.s, n, policy, base), a.l.areas)
  {
    var s' := AllocateNewBlock(a.s, n, policy, base);
    NewBlockShape(a.s, n, policy, base);
    forall x | x in a.l.areas ensures ClearOfBlocks(s', x, a.l.areas[x].hi) {
      forall i | 0 <= i < |s'.blocks| ensures Clear(s', i, x, a.l.areas[x].hi) {
        if i < |a.s.blocks| {
          assert Clear(a.s, i, x, a.l.areas[x].hi);
          NewBlockBounds(a.s, n, policy, base, i);
        }
      }
    }
  }

  lemma NewBlockAccounts(a: Arena, n: nat, policy: Policy, base: Address)
    requires BlocksOk(a.s) && CleanupOk(a.s, a.l) && SpaceOk(a.s, a.l) && HeadUsed(a.s) >= 0
    requires FreshBlock(a, base, BlockSize(policy, a.s.blocks[|a.s.blocks| - 1].size, n))
    ensures var s' := AllocateNewBlock(a.s, n, policy, base); CleanupOk(s', a.l) && SpaceOk(s', a.l)
  {
    var s', k := AllocateNewBlock(a.s, n, policy, base), |a.s.blocks|;
    NewBlockShape(a.s, n, policy, base);
    forall i | 0 <= i < k
      ensures Bottom(a.s.blocks, a.s.limit, i) == Bottom(s'.blocks, s'.limit, i)
      ensures InitialLimit(a.s.blocks, i) == InitialLimit(s'.blocks, i)
    {
      NewBlockBounds(a.s, n, policy, base, i);
    }
    NodesToFrame(a.s.blocks, a.s.limit, s'.blocks, s'.limit, a.s.mem, s'.mem, k);
    assert NodesUp(s'.mem, s'.limit, s'.limit) == [];
    assert BlockOk(a.s, k - 1);
    assert s'.blocks[..k][..k - 1] == a.s.blocks[..k - 1];
    assert SumSizes(s'.blocks[..k]) == SumSizes(a.s.blocks);
  }

  /** Making room keeps the invariant, hands nothing out, and always leaves room for the request. */
  lemma ProvideKeepsInv(a: Arena, n: nat, policy: Policy, base: Address)
    requires Inv(a) && n % 8 == 0 && CanProvide(a, n, policy, base)
    ensures HeadUsed(a.s) >= 0
    ensures var a' := Provide(a, n, policy, base); Inv(a') && HasSpace(a'.s, n) && a'.l == a.l && a'.s.mem == a.s.mem
  {
    assert BlockOk(a.s, |a.s.blocks| - 1);
    if !HasSpace(a.s, n) {
      NewBlockBlocks(a, n, policy, base);
      NewBlockAreas(a, n, policy, base);
      NewBlockAccounts(a, n, policy, base);
    }
  }

  // ---------------------------------------------------------------- handing out

  /** The free space at ptr touches no area in use. */
  lemma GapIsFree(a: Arena, x: Address)
    requires BlocksOk(a.s) && AreasOk(a.s, a.l.areas) && x in a.l.areas && a.s.ptr < a.s.limit
    ensures a.l.areas[x].hi <= a.s.ptr || a.s.blocks[|a.s.blocks| - 1].base + a.s.blocks[|a.s.blocks| - 1].size <= x
  {
    var last := |a.s.blocks| - 1;
    assert BlockOk(a.s, last);
    assert Clear(a.s, last, x, a.l.areas[x].hi);
  }

  lemma GrowGap(a: Arena, ptr': Address, limit': Address)
    requires BlocksOk(a.s) && AreasOk(a.s, a.l.areas)
    requires a.s.ptr <= ptr' <= limit' <= a.s.limit && ptr' % 8 == 0
    requires limit' == a.s.limit || limit' == a.s.limit - CLEANUP_SIZE
    ensures BlocksOk(a.s.(ptr := ptr', limit := limit'))
    ensures AreasOk(a.s.(ptr := ptr', limit := limit'), a.l.areas)
  {
    var s' := a.s.(ptr := ptr', limit := limit');
    forall i | 0 <= i < |s'.blocks| ensures BlockOk(s', i) {
      assert BlockOk(a.s, i);
    }
    forall x | x in a.l.areas ensures ClearOfBlocks(s', x, a.l.areas[x].hi) {
      forall i | 0 <= i < |s'.blocks| ensures Clear(s', i, x, a.l.areas[x].hi) {
        assert Clear(a.s, i, x, a.l.areas[x].hi);
      }
    }
  }

  /** The region [lo, hi) at the old ptr is in the handed-out part of the head block and outside the others. */
  lemma RegionClear(s: Serial, s': Serial, hi: Address)
    requires BlocksOk(s) && BlocksOk(s') && s'.blocks == s.blocks && s.ptr < hi <= s'.ptr
    ensures ClearOfBlocks(s', s.ptr, hi)
  {
    var lo, last := s.ptr, |s.blocks| - 1;
    assert BlockOk(s, last) && BlockOk(s', last);
    forall i | 0 <= i < |s'.blocks| ensures Clear(s', i, lo, hi) {
      if i < last {
        assert Apart(s'.blocks[i], s'.blocks[last]);
      }
    }
  }

  lemma RegionDisjoint(a: Arena, hi: Address)
    requires BlocksOk(a.s) && AreasOk(a.s, a.l.areas) && a.s.ptr < hi <= a.s.limit
    ensures a.s.ptr > 0
    ensures forall x :: x in a.l.areas ==> a.l.areas[x].hi <= a.s.ptr || hi <= x
  {
    assert BlockOk(a.s, |a.s.blocks| - 1);
    forall x | x in a.l.areas ensures a.l.areas[x].hi <= a.s.ptr || hi <= x {
      GapIsFree(a, x);
    }
  }

  lemma GapAligned(a: Arena, n: nat)
    requires BlocksOk(a.s) && n % 8 == 0
    ensures a.s.ptr % 8 == 0 && (a.s.ptr + n) % 8 == 0
  {
    assert BlockOk(a.s, |a.s.blocks| - 1);
    SumMod8(n, 0, a.s.ptr);
    assert n + (a.s.ptr + 0) == a.s.ptr + n;
  }

  /** A region at the old ptr can join the areas in use. */
  lemma RegionJoins(a: Arena, n: nat, limit': Address)
    requires BlocksOk(a.s) && AreasOk(a.s, a.l.areas)
    requires a.s.ptr + n <= limit' <= a.s.limit && n % 8 == 0
    requires limit' == a.s.limit || limit' == a.s.limit - CLEANUP_SIZE
    ensures BlocksOk(a.s.(ptr := a.s.ptr + n, limit := limit'))
    ensures AreasOk(a.s.(ptr := a.s.ptr + n, limit := limit'), WithLive(a.l.areas, a.s.ptr, n))
    ensures n > 0 ==> a.s.ptr !in a.l.areas
  {
    var lo, hi := a.s.ptr, a.s.ptr + n;
    var s' := a.s.(ptr := hi, limit := limit');
    GapAligned(a, n);
    hide BlocksOk, AreasOk, ClearOfBlocks;
    GrowGap(a, hi, limit');
    if n > 0 {
      RegionClear(a.s, s', hi);
      RegionDisjoint(a, hi);
      AreaJoins(s', a.l.areas, lo, Area(hi, Live));
    }
  }

  /** An area clear of the blocks and of all other areas can join them. */
  lemma AreaJoins(s: Serial, areas: map<Address, Area>, lo: Address, area: Area)
    requires AreasOk(s, areas) && 0 < lo < area.hi && lo % 8 == 0 && ClearOfBlocks(s, lo, area.hi)
    requires forall x :: x in areas ==> areas[x].hi <= lo || area.hi <= x
    ensures AreasOk(s, areas[lo := area])
    ensures lo !in areas
  {
  }

  lemma LiveRegionKeepsCache(a: Arena, n: nat, mem': Memory, l': Ledger)
    requires AreasOk(a.s, a.l.areas) && CacheOk(a.s.tableAddr, a.s.tableLen, a.s.mem, a.l)
    requires n > 0 ==> a.s.ptr !in a.l.areas
    requires forall x, w :: x in a.l.areas && x <= w < a.l.areas[x].hi ==> Load(a.s.mem, w) == Load(mem', w)
    requires l'.areas == WithLive(a.l.areas, a.s.ptr, n) && l'.free == a.l.free
    ensures CacheOk(a.s.tableAddr, a.s.tableLen, mem', l')
  {
    CacheFrame(a.s.tableAddr, a.s.tableLen, a.s.mem, mem', a.l, l'.areas);
    var l1 := a.l.(areas := l'.areas);
    forall i | 0 <= i < |l'.free| ensures ClassOk(a.s.tableAddr, mem', l', i) {
      assert ClassOk(a.s.tableAddr, mem', l1, i);
    }
  }

  lemma BumpAccounts(a: Arena, n: nat)
    requires BlocksOk(a.s) && CleanupOk(a.s, a.l) && SpaceOk(a.s, a.l)
    ensures var a' := Bump(a, n); CleanupOk(a'.s, a'.l) && SpaceOk(a'.s, a'.l)
  {
  }

  lemma BumpKeepsInv(a: Arena, n: nat)
    requires Inv(a) && HasSpace(a.s, n) && n % 8 == 0
    ensures Inv(Bump(a, n))
  {
    RegionJoins(a, n, a.s.limit);
    LiveRegionKeepsCache(a, n, a.s.mem, Bump(a, n).l);
    BumpAccounts(a, n);
    SameShape(a.s.(ptr := a.s.ptr + n), Bump(a, n).s, Bump(a, n).l.areas);
  }

  lemma {:induction false} ReversedAppend<T>(s: seq<T>, x: T)
    ensures Reversed(s + [x]) == [x] + Reversed(s)
  {
    assert (s + [x])[..|s|] == s;
  }

  /** The node written at the new limit is below all nodes of the head block and outside all other blocks. */
  lemma NodeLeavesOldNodes(a: Arena, n: nat, c: Cleanup, i: nat)
    requires BlocksOk(a.s) && a.s.ptr + n + CLEANUP_SIZE <= a.s.limit && i < |a.s.blocks|
    ensures SameNodes(a.s.blocks, a.s.limit, i, a.s.mem, BumpWithCleanup(a, n, c).s.mem)
  {
    var last := |a.s.blocks| - 1;
    assert BlockOk(a.s, i) && BlockOk(a.s, last);
    assert i < last ==> Apart(a.s.blocks[i], a.s.blocks[last]);
    NodesUpFrame(a.s.mem, BumpWithCleanup(a, n, c).s.mem, Bottom(a.s.blocks, a.s.limit, i),
        InitialLimit(a.s.blocks, i));
  }

  /** Writing a new lowest node puts it in front of the nodes there are. */
  lemma NodeJoins(a: Arena, n: nat, c: Cleanup)
    requires BlocksOk(a.s) && a.s.ptr + n + CLEANUP_SIZE <= a.s.limit
    ensures var s' := BumpWithCleanup(a, n, c).s;
            NodesTo(s'.blocks, s'.limit, s'.mem, |s'.blocks|) ==
                [c] + NodesTo(a.s.blocks, a.s.limit, a.s.mem, |a.s.blocks|)
  {
    var s', last := BumpWithCleanup(a, n, c).s, |a.s.blocks| - 1;
    assert BlockOk(a.s, last);
    forall i | 0 <= i <= last ensures SameNodes(a.s.blocks, a.s.limit, i, a.s.mem, s'.mem) {
      NodeLeavesOldNodes(a, n, c, i);
    }
    assert SameNodes(a.s.blocks, a.s.limit, last, a.s.mem, s'.mem);
    assert NodeAt(s'.mem, s'.limit) == c;
    assert NodesUp(s'.mem, s'.limit, InitialLimit(s'.blocks, last)) ==
           [c] + NodesUp(a.s.mem, a.s.limit, InitialLimit(a.s.blocks, last));
    NodesToFrame(a.s.blocks, a.s.limit, s'.blocks, s'.limit, a.s.mem, s'.mem, last);
  }

  /** The new node is outside every area in use. */
  lemma NodeOutsideAreas(a: Arena, n: nat, c: Cleanup)
    requires Inv(a) && a.s.ptr + n + CLEANUP_SIZE <= a.s.limit
    ensures var mem' := BumpWithCleanup(a, n, c).s.mem;
            forall x, w :: x in a.l.areas && x <= w < a.l.areas[x].hi ==> Load(a.s.mem, w) == Load(mem', w)
  {
    var mem' := BumpWithCleanup(a, n, c).s.mem;
    assert BlockOk(a.s, |a.s.blocks| - 1);
    forall x, w | x in a.l.areas && x <= w < a.l.areas[x].hi ensures Load(a.s.mem, w) == Load(mem', w) {
      GapIsFree(a, x);
    }
  }

  lemma BumpWithCleanupKeepsInv(a: Arena, n: nat, c: Cleanup)
    requires Inv(a) && HasSpace(a.s, n + CLEANUP_SIZE) && n % 8 == 0
    ensures Inv(BumpWithCleanup(a, n, c))
  {
    var a' := BumpWithCleanup(a, n, c);
    RegionJoins(a, n, a'.s.limit);
    MemoryIrrelevant(a, n, c);
    NodeOutsideAreas(a, n, c);
    LiveRegionKeepsCache(a, n, a'.s.mem, a'.l);
    hide BlocksOk, AreasOk, CacheOk;
    NodeJoins(a, n, c);
    ReversedAppend(a.l.registered, c);
  }

  /** Which blocks and areas are in order does not depend on what memory holds. */
  lemma MemoryIrrelevant(a: Arena, n: nat, c: Cleanup)
    requires a.s.limit >= CLEANUP_SIZE
    requires var s1 := a.s.(ptr := a.s.ptr + n, limit := a.s.limit - CLEANUP_SIZE);
             BlocksOk(s1) && AreasOk(s1, WithLive(a.l.areas, a.s.ptr, n))
    ensures var a' := BumpWithCleanup(a, n, c); BlocksOk(a'.s) && AreasOk(a'.s, a'.l.areas)
  {
    var s1, s' := a.s.(ptr := a.s.ptr + n, limit := a.s.limit - CLEANUP_SIZE), BumpWithCleanup(a, n, c).s;
    SameShape(s1, s', BumpWithCleanup(a, n, c).l.areas);
  }

  lemma SameShape(s: Serial, s': Serial, areas: map<Address, Area>)
    requires s'.blocks == s.blocks && s'.ptr == s.ptr && s'.limit == s.limit
    requires BlocksOk(s) && AreasOk(s, areas)
    ensures BlocksOk(s') && AreasOk(s', areas)
  {
    forall i | 0 <= i < |s'.blocks| ensures BlockOk(s', i) {
      assert BlockOk(s, i);
    }
    forall x | x in areas ensures ClearOfBlocks(s', x, areas[x].hi) {
      forall i | 0 <= i < |s'.blocks| ensures Clear(s', i, x, areas[x].hi) {
        assert Clear(s, i, x, areas[x].hi);
      }
    }
  }
}
