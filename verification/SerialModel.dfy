/**
 The state of one SerialArena as a value, and its invariant.

 Addresses are natural numbers and memory is a map from the addresses of machine words to words; a word that was never
 written reads as zero. The arena bump-allocates upward in its newest block, stacks cleanup nodes downward in the same
 block, and keeps returned arrays on free lists whose links and whose table of heads live inside the returned memory.
 The ledger beside it is what the outside world knows: which areas of memory are in use, and for what.
 */
module SerialModel {
  import opened ArenaArithmetic
  import opened Sequences

  type Address = nat
  type Memory = map<Address, nat>

  /** A cleanup node: the object and its destructor. */
  datatype Cleanup = Cleanup(elem: nat, fn: nat)

  /** SerialArena::Block. start is the lowest cleanup node of the block, recorded when a newer block is added. */
  datatype Block = Block(base: Address, size: nat, start: Address)

  /** The fields of SerialArena. blocks is the list behind head_, oldest first; tableAddr is cached_blocks_. */
  datatype Serial = Serial(
    blocks: seq<Block>,
    ptr: Address,
    limit: Address,
    spaceUsed: nat,
    spaceAllocated: nat,
    tableAddr: Address,
    tableLen: nat,
    mem: Memory)

  /** Memory in use: given to a caller, on the free list of an order, or holding the table of free lists. */
  datatype Kind = Live | Free(order: nat) | Table

  datatype Area = Area(hi: Address, kind: Kind)

  /** areas maps the first address of each area to the rest; free lists the free areas of each class, head first;
      served adds up the sizes served by bumping; registered lists the cleanups in the order of their registration. */
  datatype Ledger = Ledger(
    areas: map<Address, Area>,
    free: seq<seq<Address>>,
    served: nat,
    registered: seq<Cleanup>)

  datatype Arena = Arena(s: Serial, l: Ledger)

  // ---------------------------------------------------------------- memory

  function Load(mem: Memory, a: Address): nat {
    if a in mem then mem[a] else 0
  }

  function NodeAt(mem: Memory, a: Address): Cleanup {
    Cleanup(Load(mem, a), Load(mem, a + POINTER_SIZE))
  }

  // ---------------------------------------------------------------- blocks

  /** Where the usable part of block i begins: the oldest block also holds the SerialArena object itself. */
  function HeaderEnd(blocks: seq<Block>, i: nat): Address
    requires i < |blocks|
  {
    blocks[i].base + BLOCK_HEADER_SIZE + if i == 0 then SERIAL_ARENA_SIZE else 0
  }

  /** limit_ as it was when block i became the head: only the constructor rounds it down to 8. */
  function InitialLimit(blocks: seq<Block>, i: nat): Address
    requires i < |blocks|
  {
    blocks[i].base + if i == 0 then RoundDown(blocks[i].size, 8) else blocks[i].size
  }

  /** The lowest cleanup node of block i. */
  function Bottom(blocks: seq<Block>, limit: Address, i: nat): Address
    requires i < |blocks|
  {
    if i + 1 == |blocks| then limit else blocks[i].start
  }

  /** Nothing above this address of block i was handed out by bumping. */
  function Top(s: Serial, i: nat): Address
    requires i < |s.blocks|
  {
    if i + 1 == |s.blocks| then s.ptr else s.blocks[i].start
  }

  predicate Apart(b: Block, c: Block) {
    b.base + b.size <= c.base || c.base + c.size <= b.base
  }

  predicate BlockOk(s: Serial, i: nat)
    requires i < |s.blocks|
  {
    var b := s.blocks[i];
    && b.base > 0 && b.base % 8 == 0 && b.base + b.size <= SIZE_RANGE
    && HeaderEnd(s.blocks, i) <= Top(s, i) <= Bottom(s.blocks, s.limit, i)
    && Bottom(s.blocks, s.limit, i) <= InitialLimit(s.blocks, i) <= b.base + b.size
    && (InitialLimit(s.blocks, i) - Bottom(s.blocks, s.limit, i)) % CLEANUP_SIZE == 0
  }

  predicate BlocksOk(s: Serial) {
    && s.blocks != []
    && s.ptr % 8 == 0
    && (forall i :: 0 <= i < |s.blocks| ==> BlockOk(s, i))
    && (forall i, j :: 0 <= i < j < |s.blocks| ==> Apart(s.blocks[i], s.blocks[j]))
  }

  // ---------------------------------------------------------------- areas

  /** [lo, hi) is in the part of block i that bumping has handed out, or outside block i altogether. An area that
      came from another thread's SerialArena is outside all blocks. */
  predicate Clear(s: Serial, i: nat, lo: Address, hi: Address)
    requires i < |s.blocks|
  {
    || (HeaderEnd(s.blocks, i) <= lo && hi <= Top(s, i))
    || hi <= s.blocks[i].base
    || s.blocks[i].base + s.blocks[i].size <= lo
  }

  predicate ClearOfBlocks(s: Serial, lo: Address, hi: Address) {
    forall i :: 0 <= i < |s.blocks| ==> Clear(s, i, lo, hi)
  }

  /** Areas are nonempty, aligned, pairwise disjoint, and clear of block headers, free space and cleanup nodes. */
  predicate AreasOk(s: Serial, areas: map<Address, Area>) {
    && (forall a :: a in areas ==> 0 < a < areas[a].hi && a % 8 == 0)
    && (forall a, b :: a in areas && b in areas && a < b ==> areas[a].hi <= b)
    && (forall a :: a in areas ==> ClearOfBlocks(s, a, areas[a].hi))
  }

  // ---------------------------------------------------------------- free lists

  /** The list starting at h links exactly these nodes and ends in null. */
  predicate Chain(mem: Memory, h: Address, list: seq<Address>)
    decreases |list|
  {
    if list == [] then h == 0 else h == list[0] && h != 0 && Chain(mem, Load(mem, h), list[1..])
  }

  function Slot(tableAddr: Address, i: nat): Address {
    tableAddr + POINTER_SIZE * i
  }

  /** Everything on the list of class i is a free area of that class with at least 2^(i+4) bytes. */
  predicate ClassOk(tableAddr: Address, mem: Memory, l: Ledger, i: nat)
    requires i < |l.free|
  {
    && Chain(mem, Load(mem, Slot(tableAddr, i)), l.free[i])
    && Distinct(l.free[i])
    && (forall x :: x in l.free[i] ==>
          x in l.areas && l.areas[x].kind == Free(i) && x + Pow2(i + 4) <= l.areas[x].hi)
  }

  predicate TableOk(tableAddr: Address, tableLen: nat, l: Ledger) {
    && |l.free| == tableLen <= 64
    && (tableLen == 0 ==> tableAddr == 0)
    && (tableLen > 0 ==>
          && tableAddr in l.areas && l.areas[tableAddr].kind.Table?
          && Slot(tableAddr, tableLen) <= l.areas[tableAddr].hi)
    && (forall a :: a in l.areas && l.areas[a].kind.Table? ==> tableLen > 0 && a == tableAddr)
    && (forall a :: a in l.areas && l.areas[a].kind.Free? ==>
          l.areas[a].kind.order < |l.free| && a in l.free[l.areas[a].kind.order])
  }

  predicate CacheOk(tableAddr: Address, tableLen: nat, mem: Memory, l: Ledger) {
    && TableOk(tableAddr, tableLen, l)
    && (forall i :: 0 <= i < |l.free| ==> ClassOk(tableAddr, mem, l, i))
  }

  // ---------------------------------------------------------------- cleanups

  /** The nodes from address lo up to hi. */
  function NodesUp(mem: Memory, lo: Address, hi: Address): seq<Cleanup>
    decreases hi - lo
  {
    if lo + CLEANUP_SIZE <= hi then [NodeAt(mem, lo)] + NodesUp(mem, lo + CLEANUP_SIZE, hi) else []
  }

  /** The nodes of the k oldest blocks, newest node first. */
  function NodesTo(blocks: seq<Block>, limit: Address, mem: Memory, k: nat): seq<Cleanup>
    requires k <= |blocks|
  {
    if k == 0 then []
    else NodesUp(mem, Bottom(blocks, limit, k - 1), InitialLimit(blocks, k - 1)) + NodesTo(blocks, limit, mem, k - 1)
  }

  predicate CleanupOk(s: Serial, l: Ledger) {
    NodesTo(s.blocks, s.limit, s.mem, |s.blocks|) == Reversed(l.registered)
  }

  // ---------------------------------------------------------------- space

  function SumSizes(blocks: seq<Block>): nat {
    if blocks == [] then 0 else SumSizes(blocks[..|blocks| - 1]) + blocks[|blocks| - 1].size
  }

  /** Bytes of the head block handed out so far, counting the SerialArena object. */
  function HeadUsed(s: Serial): int
    requires s.blocks != []
  {
    s.ptr - s.blocks[|s.blocks| - 1].base - BLOCK_HEADER_SIZE
  }

  predicate SpaceOk(s: Serial, l: Ledger)
    requires s.blocks != []
  {
    && s.spaceUsed + HeadUsed(s) == SERIAL_ARENA_SIZE + l.served
    && s.spaceUsed <= SumSizes(s.blocks[..|s.blocks| - 1])
    && s.spaceAllocated == SumSizes(s.blocks)
  }

  // ---------------------------------------------------------------- the invariant

  predicate Inv(a: Arena) {
    && BlocksOk(a.s)
    && AreasOk(a.s, a.l.areas)
    && CacheOk(a.s.tableAddr, a.s.tableLen, a.s.mem, a.l)
    && CleanupOk(a.s, a.l)
    && SpaceOk(a.s, a.l)
  }

  // ---------------------------------------------------------------- the operations, as the code performs them

  /** SerialArena::New in the block at base. */
  function New(base: Address, size: nat): Arena {
    Arena(Serial([Block(base, size, 0)], base + BLOCK_HEADER_SIZE + SERIAL_ARENA_SIZE, base + RoundDown(size, 8), 0,
        size, 0, 0, map[]),
          Ledger(map[], [], 0, []))
  }

  predicate HasSpace(s: Serial, n: nat) {
    s.ptr + n <= s.limit
  }

  /** AllocateNewBlock(n, policy) when the system provides the new block at base. */
  function AllocateNewBlock(s: Serial, n: nat, policy: Policy, base: Address): Serial
    requires s.blocks != [] && HeadUsed(s) >= 0
  {
    var last := |s.blocks| - 1;
    var size := BlockSize(policy, s.blocks[last].size, n);
    s.(blocks := s.blocks[last := s.blocks[last].(start := s.limit)] + [Block(base, size, 0)],
       spaceUsed := s.spaceUsed + HeadUsed(s),
       spaceAllocated := s.spaceAllocated + size,
       ptr := base + BLOCK_HEADER_SIZE,
       limit := base + size)
  }

  /** What the system promises about a block of this size: aligned, addressable, and clear of everything in use. */
  predicate FreshBlock(a: Arena, base: Address, size: nat) {
    && base > 0 && base % 8 == 0 && base + size <= SIZE_RANGE
    && (forall i :: 0 <= i < |a.s.blocks| ==> Apart(a.s.blocks[i], Block(base, size, 0)))
    && (forall x :: x in a.l.areas ==> a.l.areas[x].hi <= base || base + size <= x)
  }

  /** A request the arena accepts: a multiple of 8 that does not wrap when a cleanup node and a header are added. */
  predicate Request(n: nat) {
    n % 8 == 0 && n + CLEANUP_SIZE + BLOCK_HEADER_SIZE < SIZE_RANGE
  }

  /** The system can provide the block this request would need. */
  predicate CanProvide(a: Arena, n: nat, policy: Policy, base: Address) {
    a.s.blocks != [] && (!HasSpace(a.s, n) ==>
        FreshBlock(a, base, BlockSize(policy, a.s.blocks[|a.s.blocks| - 1].size, n)))
  }

  /** The arena with room for n bytes in its head block. */
  function Provide(a: Arena, n: nat, policy: Policy, base: Address): Arena
    requires a.s.blocks != [] && HeadUsed(a.s) >= 0
  {
    if HasSpace(a.s, n) then a else a.(s := AllocateNewBlock(a.s, n, policy, base))
  }

  function WithLive(areas: map<Address, Area>, lo: Address, n: nat): map<Address, Area> {
    if n == 0 then areas else areas[lo := Area(lo + n, Live)]
  }

  /** AllocateFromExisting(n): the region is the one starting at the old ptr. */
  function Bump(a: Arena, n: nat): Arena {
    Arena(a.s.(ptr := a.s.ptr + n),
          a.l.(areas := WithLive(a.l.areas, a.s.ptr, n), served := a.l.served + n))
  }

  /** AllocateFromExistingWithCleanupFallback(n), with the node filled in by its caller. */
  function BumpWithCleanup(a: Arena, n: nat, c: Cleanup): Arena
    requires a.s.limit >= CLEANUP_SIZE
  {
    var node := a.s.limit - CLEANUP_SIZE;
    Arena(a.s.(ptr := a.s.ptr + n, limit := node, mem := a.s.mem[node := c.elem][node + POINTER_SIZE := c.fn]),
          a.l.(areas := WithLive(a.l.areas, a.s.ptr, n), served := a.l.served + n, registered := a.l.registered + [c]))
  }

  // ---------------------------------------------------------------- free lists: the operations

  /** The free list a request of n bytes looks at. */
  function RequestClass(n: nat): nat
    requires n >= 16
  {
    Log2AtLeast16(n - 1);
    Log2Floor(n - 1) - 3
  }

  /** The free list an array of size bytes is put on. */
  function ReturnClass(size: nat): nat
    requires size >= 16
  {
    Log2AtLeast16(size);
    Log2Floor(size) - 4
  }

  lemma Log2AtLeast16(n: nat)
    requires n >= 15
    ensures Log2Floor(n) >= 3
    ensures n >= 16 ==> Log2Floor(n) >= 4
  {
    SmallPowers();
    Log2AtLeast(n, 3);
    if n >= 16 {
      Log2AtLeast(n, 4);
    }
  }

  /** TryAllocateFromCachedBlock(n) finds a block. */
  predicate CacheHit(s: Serial, n: nat) {
    n >= 16 && RequestClass(n) < s.tableLen && Load(s.mem, Slot(s.tableAddr, RequestClass(n))) != 0
  }

  /** Take the first block off the list for n bytes. */
  function Pop(a: Arena, n: nat): Arena
    requires n >= 16 && RequestClass(n) < |a.l.free| && a.l.free[RequestClass(n)] != []
  {
    var c := RequestClass(n);
    var slot := Slot(a.s.tableAddr, c);
    var p := Load(a.s.mem, slot);
    Arena(a.s.(mem := a.s.mem[slot := Load(a.s.mem, p)]),
          a.l.(areas := a.l.areas[p := Area(p + n, Live)], free := a.l.free[c := a.l.free[c][1..]]))
  }

  /** The caller owns at least size bytes at p, and gives up all of its area. */
  predicate MayReturn(a: Arena, p: Address, size: nat) {
    p in a.l.areas && a.l.areas[p].kind.Live? && 16 <= size <= a.l.areas[p].hi - p
  }

  /** ReturnArrayMemory on a class the table has: p becomes the head of its list. */
  function Push(a: Arena, p: Address, size: nat): Arena
    requires size >= 16 && ReturnClass(size) < |a.l.free|
  {
    var c := ReturnClass(size);
    var slot := Slot(a.s.tableAddr, c);
    Arena(a.s.(mem := a.s.mem[p := Load(a.s.mem, slot)][slot := p]),
          a.l.(areas := a.l.areas[p := Area(p + size, Free(c))], free := a.l.free[c := [p] + a.l.free[c]]))
  }

  /** std::copy of n table entries from src to dst. */
  function CopyWords(mem: Memory, src: Address, dst: Address, n: nat): Memory {
    if n == 0 then mem
    else var m := CopyWords(mem, src, dst, n - 1); m[Slot(dst, n - 1) := Load(m, Slot(src, n - 1))]
  }

  /** std::fill with null of the entries from number lo up to hi. */
  function ClearWords(mem: Memory, dst: Address, lo: nat, hi: nat): Memory
    requires lo <= hi
    decreases hi - lo
  {
    if lo == hi then mem else ClearWords(mem, dst, lo, hi - 1)[Slot(dst, hi - 1) := 0]
  }

  function Entries(size: nat): nat { size / POINTER_SIZE }

  function CappedEntries(size: nat): nat { if Entries(size) < 64 then Entries(size) else 64 }

  /** ReturnArrayMemory on a class the table does not have: the array becomes the table. */
  function Grow(a: Arena, p: Address, size: nat): Arena
    requires a.s.tableLen <= Entries(size) && a.s.tableLen <= CappedEntries(size)
  {
    var copied := CopyWords(a.s.mem, a.s.tableAddr, p, a.s.tableLen);
    Arena(a.s.(mem := ClearWords(copied, p, a.s.tableLen, Entries(size)), tableAddr := p,
               tableLen := CappedEntries(size)),
          a.l.(areas := (a.l.areas - {a.s.tableAddr})[p := Area(p + size, Table)],
               free := a.l.free + seq(CappedEntries(size) - a.s.tableLen, _ => [])))
  }

  // ---------------------------------------------------------------- what callers do

  /** A store of the program into memory it owns. */
  predicate MayStore(a: Arena, lo: Address, w: Address) {
    lo in a.l.areas && a.l.areas[lo].kind.Live? && lo <= w && w + POINTER_SIZE <= a.l.areas[lo].hi
  }

  function Store(a: Arena, w: Address, v: nat): Arena {
    a.(s := a.s.(mem := a.s.mem[w := v]))
  }

  /** Memory of another SerialArena comes into view, to be returned here. */
  predicate MayAdopt(a: Arena, lo: Address, hi: Address) {
    && 0 < lo < hi && lo % 8 == 0
    && (forall i :: 0 <= i < |a.s.blocks| ==> hi <= a.s.blocks[i].base || a.s.blocks[i].base + a.s.blocks[i].size <= lo)
    && (forall x :: x in a.l.areas ==> hi <= x || a.l.areas[x].hi <= lo)
  }

  function Adopt(a: Arena, lo: Address, hi: Address): Arena {
    a.(l := a.l.(areas := a.l.areas[lo := Area(hi, Live)]))
  }

  /** A caller gives up memory without returning it to this arena. */
  predicate MayYield(a: Arena, lo: Address) {
    lo in a.l.areas && a.l.areas[lo].kind.Live?
  }

  function Yield(a: Arena, lo: Address): Arena {
    a.(l := a.l.(areas := a.l.areas - {lo}))
  }
}
