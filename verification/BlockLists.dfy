/**
 The memory of a ThreadSafeArena as linked structures: the list of SerialArenas, and behind each its chain of blocks. A
 SerialArena lives in the oldest of its own blocks.
 */
module BlockLists {
  import opened Wrappers
  import opened ArenaArithmetic
  import opened Sequences
  import SerialModel
  import opened ArenaCleanup
  import BumpSafety

  type Address = nat
  type Cleanup = SerialModel.Cleanup

  /** SerialArena::Memory. */
  datatype Extent = Extent(ptr: Address, size: nat)

  const NULL := Extent(0, 0)

  const ALLOCATION_POLICY_SIZE := 40

  /** A SerialArena. next and ThreadSafeArena::threads_ name it by the block it lives in, the oldest of its own; arena
      is the rest of its state. */
  datatype SerialObject = SerialObject(head: Address, next: Address, arena: SerialModel.Arena)

  /** A block and the SerialArena in it, if any. */
  datatype Block = Block(size: nat, next: Address, serial: Option<SerialObject>)

  type Heap = map<Address, Block>

  datatype Event = Ran(cleanup: Cleanup) | Returned(extent: Extent)

  // ---------------------------------------------------------------- the linked structure

  /** The blocks from at on are this chain, newest first. */
  predicate Chain(h: Heap, at: Address, chain: seq<Address>)
    decreases |chain|
  {
    && chain != [] && at == chain[0] && at != 0 && at in h
    && if |chain| == 1 then h[at].next == 0 else h[at].next != 0 && Chain(h, h[at].next, chain[1..])
  }

  /** The blocks of the chain are those the SerialArena knows of, oldest first. */
  predicate Describes(h: Heap, chain: seq<Address>, blocks: seq<SerialModel.Block>) {
    && |chain| == |blocks|
    && (forall i :: 0 <= i < |chain| ==>
          chain[i] == blocks[|blocks| - 1 - i].base && SizeOf(h, chain[i]) == blocks[|blocks| - 1 - i].size)
  }

  predicate SerialOk(h: Heap, chain: seq<Address>, serial: SerialObject) {
    Chain(h, serial.head, chain) && Describes(h, chain, serial.arena.s.blocks) && SerialModel.Inv(serial.arena)
  }

  /** The SerialArenas from at on have these chains, newest SerialArena first. */
  predicate Threads(h: Heap, at: Address, chains: seq<seq<Address>>)
    decreases |chains|
  {
    if chains == [] then at == 0
    else
      && chains[0] != [] && at == Last(chains[0]) && at != 0 && at in h && h[at].serial.Some?
      && SerialOk(h, chains[0], h[at].serial.value)
      && Threads(h, h[at].serial.value.next, chains[1..])
  }

  function Last<T>(s: seq<T>): T
    requires s != []
  {
    s[|s| - 1]
  }

  function SizeOf(h: Heap, b: Address): nat {
    if b in h then h[b].size else 0
  }

  function Total(h: Heap, blocks: seq<Address>): nat {
    if blocks == [] then 0 else Total(h, blocks[..|blocks| - 1]) + SizeOf(h, Last(blocks))
  }

  function Flat<T>(chains: seq<seq<T>>): seq<T> {
    if chains == [] then [] else Flat(chains[..|chains| - 1]) + Last(chains)
  }

  function Elements<T(==)>(s: seq<T>): set<T> {
    set x | x in s
  }

  function Gone(h: Heap, blocks: seq<Address>): seq<Event> {
    seq(|blocks|, i requires 0 <= i < |blocks| => Returned(Extent(blocks[i], SizeOf(h, blocks[i]))))
  }

  /** The smallest initial block that is accepted: a policy is kept in it. */
  function MinimumSize(policy: Option<Policy>): nat {
    BLOCK_HEADER_SIZE + SERIAL_ARENA_SIZE + if policy.Some? then ALLOCATION_POLICY_SIZE else 0
  }

  /** The user's initial block was large enough to be accepted, and is the oldest block of the oldest SerialArena. */
  predicate UserBlockOk(h: Heap, all: seq<Address>, userOwned: bool, userBlock: Extent, policy: Option<Policy>) {
    userOwned ==>
      all != [] && Last(all) == userBlock.ptr && SizeOf(h, Last(all)) == userBlock.size >= MinimumSize(policy)
  }

  /** What AllocateMemory uses: the policy, or the default one. */
  function PolicyOf(policy: Option<Policy>): Policy {
    if policy.Some? then policy.value else Policy(256, 8192)
  }

  /** The first block that an arena with a policy gets from the system when the user gives none. */
  function FirstBlock(policy: Option<Policy>, base: Address): Extent {
    if policy.Some? then Extent(base, BlockSize(policy.value, 0, MinimumSize(policy))) else NULL
  }

  /** The block the new arena starts with: the user's if it is large enough. */
  function StartsWith(mem: Extent, policy: Option<Policy>, base: Address): Extent {
    if mem.ptr != 0 && mem.size >= MinimumSize(policy) then mem else FirstBlock(policy, base)
  }

  /** The state of a SerialArena new in this block; a policy is the first thing put into it. */
  function StartArena(mem: Extent, policy: Option<Policy>): SerialModel.Arena {
    var a := SerialModel.New(mem.ptr, mem.size);
    if policy.Some? then SerialModel.Bump(a, ALLOCATION_POLICY_SIZE) else a
  }

  /** A block with a new SerialArena in it. */
  function SerialBlock(mem: Extent, next: Address, arena: SerialModel.Arena): Block {
    Block(mem.size, 0, Some(SerialObject(mem.ptr, next, arena)))
  }

  function StartHeap(h: Heap, start: Extent, policy: Option<Policy>): Heap {
    if start.ptr == 0 then h else h[start.ptr := SerialBlock(start, 0, StartArena(start, policy))]
  }

  function StartChains(start: Extent): seq<seq<Address>> {
    if start.ptr == 0 then [] else [[start.ptr]]
  }

  /** What the system, or the user, promises about memory for a SerialArena. */
  predicate Usable(mem: Extent) {
    mem.ptr > 0 && mem.ptr % 8 == 0 && mem.ptr + mem.size <= SIZE_RANGE
  }

  /** Everything but the block that goes back to the user, or, for an arena without blocks, null. */
  function TeardownEvents(h: Heap, blocks: seq<Address>, userOwned: bool): seq<Event> {
    if blocks == [] then [Returned(NULL)]
    else Gone(h, if userOwned then blocks[..|blocks| - 1] else blocks)
  }

  function RanAll(cleanups: seq<Cleanup>): seq<Event> {
    seq(|cleanups|, i requires 0 <= i < |cleanups| => Ran(cleanups[i]))
  }

  function Without(h: Heap, blocks: seq<Address>, userOwned: bool): Heap {
    h - Elements(if userOwned && blocks != [] then blocks[..|blocks| - 1] else blocks)
  }

  /** The SerialArena that owns the chain. */
  predicate HasSerial(h: Heap, chain: seq<Address>) {
    chain != [] && Last(chain) in h && h[Last(chain)].serial.Some?
  }

  function ArenaOf(h: Heap, chain: seq<Address>): SerialModel.Arena
    requires HasSerial(h, chain)
  {
    h[Last(chain)].serial.value.arena
  }

  function CallsOf(h: Heap, chain: seq<Address>): seq<Cleanup> {
    if HasSerial(h, chain) then Calls(ArenaOf(h, chain).s) else []
  }

  /** The calls CleanupList makes for each SerialArena, newest SerialArena first. */
  function CleanupEvents(h: Heap, chains: seq<seq<Address>>): seq<Event> {
    if chains == [] then [] else CleanupEvents(h, chains[..|chains| - 1]) + RanAll(CallsOf(h, Last(chains)))
  }

  // ---------------------------------------------------------------- facts about them

  lemma {:induction false} TotalAppend(h: Heap, a: seq<Address>, b: seq<Address>)
    ensures Total(h, a + b) == Total(h, a) + Total(h, b)
    decreases |b|
  {
    if b == [] {
      assert a + b == a;
    } else {
      assert (a + b)[..|a + b| - 1] == a + b[..|b| - 1];
      TotalAppend(h, a, b[..|b| - 1]);
    }
  }

  lemma {:induction false} ChainFrame(h: Heap, h': Heap, at: Address, chain: seq<Address>)
    requires Chain(h, at, chain) && forall b :: b in chain && b in h ==> b in h' && h'[b].next == h[b].next
    ensures Chain(h', at, chain)
    decreases |chain|
  {
    if |chain| > 1 {
      ChainFrame(h, h', h[at].next, chain[1..]);
    }
  }

  lemma {:induction false} ChainAllocated(h: Heap, at: Address, chain: seq<Address>)
    requires Chain(h, at, chain)
    ensures forall b :: b in chain ==> b in h && b != 0
    decreases |chain|
  {
    if |chain| > 1 {
      ChainAllocated(h, h[at].next, chain[1..]);
      assert forall b :: b in chain ==> b == chain[0] || b in chain[1..];
    }
  }

  lemma {:induction false} ThreadsAllocated(h: Heap, at: Address, chains: seq<seq<Address>>, k: nat)
    requires Threads(h, at, chains) && k < |chains|
    ensures chains[k] != [] && Last(chains[k]) in h && h[Last(chains[k])].serial.Some?
    ensures SerialOk(h, chains[k], h[Last(chains[k])].serial.value)
    decreases |chains|
  {
    if k > 0 {
      ThreadsAllocated(h, h[at].serial.value.next, chains[1..], k - 1);
    }
  }

  /** The rest of the list after its first k SerialArenas. */
  lemma ThreadsDrop(h: Heap, at: Address, chains: seq<seq<Address>>, k: nat)
    requires k < |chains| && Threads(h, at, chains[k..])
    ensures chains[k] != [] && at == Last(chains[k]) && at in h && h[at].serial.Some?
    ensures Threads(h, h[at].serial.value.next, chains[k + 1..])
  {
    assert chains[k..][1..] == chains[k + 1..];
  }

  lemma FlatNext<T>(chains: seq<seq<T>>, k: nat)
    requires k < |chains|
    ensures Flat(chains[..k + 1]) == Flat(chains[..k]) + chains[k]
  {
    assert chains[..k + 1][..k] == chains[..k];
  }

  lemma FlatLast<T>(chains: seq<seq<T>>)
    requires chains != []
    ensures Flat(chains) == Flat(chains[..|chains| - 1]) + Last(chains)
  {
  }

  lemma {:induction false} FlatContains<T>(chains: seq<seq<T>>, k: nat)
    requires k <= |chains|
    ensures Flat(chains) == Flat(chains[..k]) + Flat(chains[k..])
    decreases |chains|
  {
    if k == |chains| {
      assert chains[..k] == chains && chains[k..] == [];
    } else {
      var most := chains[..|chains| - 1];
      FlatContains(most, k);
      hide Flat;
      assert Flat(chains) == Flat(most) + Last(chains) &&
          Flat(chains[k..]) == Flat(chains[k..][..|chains| - k - 1]) + Last(chains[k..]) by {
        FlatLast(chains);
        FlatLast(chains[k..]);
      }
      assert most[..k] == chains[..k] && most[k..] == chains[k..][..|chains| - k - 1];
      assert Last(chains) == Last(chains[k..]);
    }
  }

  /** Chain k follows the chains before it, and shares no block with them. */
  lemma ChainsApart(chains: seq<seq<Address>>, k: nat)
    requires k < |chains| && Distinct(Flat(chains))
    ensures Distinct(chains[k])
    ensures forall b :: b in Flat(chains[..k]) ==> b !in chains[k]
  {
    FlatContains(chains, k + 1);
    FlatNext(chains, k);
    DistinctParts(Flat(chains[..k]), chains[k], Flat(chains[k + 1..]));
  }

  lemma DistinctParts<T>(a: seq<T>, b: seq<T>, c: seq<T>)
    requires Distinct(a + b + c)
    ensures Distinct(b)
    ensures forall x :: x in a ==> x !in b
  {
    var all := a + b + c;
    assert forall i :: 0 <= i < |b| ==> all[|a| + i] == b[i];
    forall i, j | 0 <= i < |a| && 0 <= j < |b| ensures a[i] != b[j] {
      assert all[i] == a[i] && all[|a| + j] == b[j];
    }
  }

  lemma GoneAppend(h: Heap, a: seq<Address>, b: seq<Address>)
    ensures Gone(h, a + b) == Gone(h, a) + Gone(h, b)
  {
  }

  lemma ElementsAppend<T>(a: seq<T>, b: seq<T>)
    ensures Elements(a + b) == Elements(a) + Elements(b)
  {
  }

  /** Free has handled the blocks done: it still holds the last of them and gave back all others. */
  predicate Handled(h: Heap, h': Heap, e: seq<Event>, mem: Extent, total: nat, done: seq<Address>) {
    if done == [] then mem == NULL && h' == h && e == [] && total == 0
    else
      var most := done[..|done| - 1];
      && mem == Extent(Last(done), SizeOf(h, Last(done))) && mem.ptr in h' && mem.ptr in h
      && h' == h - Elements(most) && e == Gone(h, most) && total == Total(h, most)
  }

  /** Giving back the one held gives back all that was handled. */
  lemma HandBack(h: Heap, h': Heap, e: seq<Event>, mem: Extent, total: nat, done: seq<Address>)
    requires Handled(h, h', e, mem, total, done) && 0 !in h
    ensures done == [] ==> mem.ptr == 0 && h' == h - Elements(done) && e == Gone(h, done) && total == Total(h, done)
    ensures done != [] ==>
      && mem.ptr != 0 && mem.ptr in h' && h'[mem.ptr].size == mem.size && h' - {mem.ptr} == h - Elements(done)
      && e + [Returned(mem)] == Gone(h, done) && total + mem.size == Total(h, done)
  {
    if done != [] {
      assert done == done[..|done| - 1] + [Last(done)];
      GoneAppend(h, done[..|done| - 1], [Last(done)]);
      ElementsAppend(done[..|done| - 1], [Last(done)]);
    }
  }

  lemma EmptyHandled(h: Heap, chains: seq<seq<Address>>)
    ensures Handled(h, h, [], NULL, 0, []) && Flat(chains[..0]) == []
  {
  }

  /** What FreeSerial needs of the next chain, after all blocks before it are gone. */
  lemma NextChain(h: Heap, h': Heap, serial: Address, chains: seq<seq<Address>>, k: nat)
    requires k < |chains| && Threads(h, serial, chains[k..]) && Distinct(Flat(chains))
    requires h' == h - Elements(Flat(chains[..k]))
    ensures serial in h' && h'[serial] == h[serial] && h[serial].serial.Some? && chains[k] != []
    ensures Chain(h', h[serial].serial.value.head, chains[k]) && Distinct(chains[k])
    ensures forall b :: b in chains[k] ==> b in h && b in h' && h'[b] == h[b]
  {
    ThreadsAllocated(h, serial, chains[k..], 0);
    ChainsApart(chains, k);
    ChainAllocated(h, h[serial].serial.value.head, chains[k]);
    hide Distinct, Chain, Flat, Threads, SerialOk;
    assert forall b :: b in chains[k] ==> b in h' && h'[b] == h[b];
    ThreadsStart(h, serial, chains[k..]);
    assert serial in chains[k];
    ChainFrame(h, h', h[serial].serial.value.head, chains[k]);
  }

  lemma ThreadsStart(h: Heap, at: Address, chains: seq<seq<Address>>)
    requires Threads(h, at, chains) && chains != []
    ensures chains[0] != [] && at == Last(chains[0]) && at in h && h[at].serial.Some?
  {
  }

  lemma MostOfAppend<T>(a: seq<T>, b: seq<T>)
    requires b != []
    ensures (a + b)[..|a + b| - 1] == a + b[..|b| - 1] && Last(a + b) == Last(b) && a + b != []
  {
  }

  lemma SameGone(h: Heap, h': Heap, blocks: seq<Address>)
    requires forall b :: b in blocks ==> SizeOf(h, b) == SizeOf(h', b)
    ensures Gone(h, blocks) == Gone(h', blocks)
  {
  }

  lemma LastStays(h: Heap, h1: Heap, chain: seq<Address>)
    requires chain != [] && forall b :: b in chain ==> b in h && b in h1 && h1[b] == h[b]
    ensures SizeOf(h, Last(chain)) == SizeOf(h1, Last(chain)) && Last(chain) in h
  {
  }

  /** One more SerialArena freed: what is left of it is its oldest block. */
  lemma FreedSoFar(h: Heap, h1: Heap, h': Heap, mem: Extent, done: seq<Address>, chain: seq<Address>)
    requires chain != [] && forall b :: b in chain ==> b in h && b in h1 && h1[b] == h[b]
    requires h1 == h - Elements(done) && h' == h1 - Elements(chain[..|chain| - 1]) && mem.ptr in h'
    requires mem == Extent(Last(chain), SizeOf(h1, Last(chain)))
    ensures Handled(h, h', Gone(h, done) + Gone(h1, chain[..|chain| - 1]), mem,
                    Total(h, done) + Total(h1, chain[..|chain| - 1]), done + chain)
  {
    hide *;
    var most := chain[..|chain| - 1];
    assert h' == h - Elements(done + most) by { MinusBoth(h, done, most); }
    assert Gone(h, done) + Gone(h1, most) == Gone(h, done + most) &&
        Total(h, done) + Total(h1, most) == Total(h, done + most) by {
      SameSizes(h, h1, chain);
      GoneAppend(h, done, most);
      TotalAppend(h, done, most);
      SameTotal(h, h1, most);
      SameGone(h, h1, most);
    }
    LastStays(h, h1, chain);
    IsHandled(h, h', mem, done, chain);
  }

  lemma SameSizes(h: Heap, h1: Heap, chain: seq<Address>)
    requires chain != [] && forall b :: b in chain ==> b in h && b in h1 && h1[b] == h[b]
    ensures forall b :: b in chain[..|chain| - 1] ==> SizeOf(h, b) == SizeOf(h1, b)
  {
  }

  lemma MinusBoth(h: Heap, a: seq<Address>, b: seq<Address>)
    ensures h - Elements(a) - Elements(b) == h - Elements(a + b)
  {
  }

  lemma IsHandled(h: Heap, h': Heap, mem: Extent, done: seq<Address>, chain: seq<Address>)
    requires chain != [] && Last(chain) in h && Last(chain) in h'
    requires mem == Extent(Last(chain), SizeOf(h, Last(chain))) && h' == h - Elements(done + chain[..|chain| - 1])
    ensures var gone := done + chain[..|chain| - 1]; Handled(h, h', Gone(h, gone), mem, Total(h, gone), done + chain)
  {
    MostOfAppend(done, chain);
  }

  lemma {:induction false} SameTotal(h: Heap, h': Heap, blocks: seq<Address>)
    requires forall b :: b in blocks ==> SizeOf(h, b) == SizeOf(h', b)
    ensures Total(h, blocks) == Total(h', blocks)
  {
    if blocks != [] {
      SameTotal(h, h', blocks[..|blocks| - 1]);
    }
  }

  lemma ThreadsEnd(h: Heap, at: Address, chains: seq<seq<Address>>)
    requires Threads(h, at, chains)
    ensures at == 0 <==> chains == []
  {
  }

  lemma MoveOne<T>(a: seq<T>, b: seq<T>)
    requires b != []
    ensures a + b == a + [b[0]] + b[1..]
  {
  }

  lemma CleanupNext(h: Heap, at: Address, ran: seq<seq<Address>>, rest: seq<seq<Address>>)
    requires rest != [] && Threads(h, at, rest)
    ensures at in h && h[at].serial.Some? && Threads(h, h[at].serial.value.next, rest[1..])
    ensures CleanupEvents(h, ran + [rest[0]]) == CleanupEvents(h, ran) + RanAll(Calls(h[at].serial.value.arena.s))
  {
    assert (ran + [rest[0]])[..|ran|] == ran;
  }

  // ---------------------------------------------------------------- space

  lemma SumFromNewest(blocks: seq<SerialModel.Block>)
    requires blocks != []
    ensures SerialModel.SumSizes(blocks) == SerialModel.SumSizes(blocks[..|blocks| - 1]) + blocks[|blocks| - 1].size
  {
  }

  lemma {:induction false} DescribedTotal(h: Heap, chain: seq<Address>, blocks: seq<SerialModel.Block>)
    requires Describes(h, chain, blocks)
    ensures Total(h, chain) == SerialModel.SumSizes(blocks)
    decreases |chain|
  {
    if chain != [] {
      var rest, older := chain[1..], blocks[..|blocks| - 1];
      assert Describes(h, rest, older);
      DescribedTotal(h, rest, older);
      assert chain == [chain[0]] + rest && [chain[0]][..0] == [];
      TotalAppend(h, [chain[0]], rest);
      assert Total(h, [chain[0]]) == Total(h, []) + SizeOf(h, chain[0]);
      SumFromNewest(blocks);
    }
  }

  /** The counter of a SerialArena is the size of its blocks. */
  lemma SpaceOfSerial(h: Heap, chain: seq<Address>, serial: SerialObject)
    requires SerialOk(h, chain, serial)
    ensures serial.arena.s.spaceAllocated == Total(h, chain)
  {
    assert SerialModel.SpaceOk(serial.arena.s, serial.arena.l);
    hide SerialModel.Inv, Describes, Chain;
    DescribedTotal(h, chain, serial.arena.s.blocks);
  }

  // ---------------------------------------------------------------- frames

  lemma SerialFrame(h: Heap, h': Heap, chain: seq<Address>, serial: SerialObject)
    requires SerialOk(h, chain, serial)
    requires forall b :: b in chain && b in h ==> b in h' && h'[b].next == h[b].next && h'[b].size == h[b].size
    ensures SerialOk(h', chain, serial)
  {
    hide SerialModel.Inv;
    ChainFrame(h, h', serial.head, chain);
    ChainAllocated(h, serial.head, chain);
    assert forall i :: 0 <= i < |chain| ==> chain[i] in chain && SizeOf(h', chain[i]) == SizeOf(h, chain[i]);
  }

  lemma {:induction false} ThreadsFrame(h: Heap, h': Heap, at: Address, chains: seq<seq<Address>>)
    requires Threads(h, at, chains)
    requires forall i, b :: 0 <= i < |chains| && b in chains[i] && b in h ==> b in h' && h'[b] == h[b]
    ensures Threads(h', at, chains)
    decreases |chains|
  {
    if chains != [] {
      hide SerialOk;
      assert at in chains[0];
      SerialFrame(h, h', chains[0], h[at].serial.value);
      assert forall i, b :: 0 <= i < |chains[1..]| && b in chains[1..][i] ==> b in chains[i + 1];
      ThreadsFrame(h, h', h[at].serial.value.next, chains[1..]);
    }
  }

  /** One SerialArena of the list changed, and nothing of the others. */
  lemma {:induction false} ThreadsUpdate(h: Heap, h': Heap, at: Address, chains: seq<seq<Address>>, k: nat,
                                         chain: seq<Address>)
    requires Threads(h, at, chains) && k < |chains| && chains[k] != [] && HasSerial(h, chains[k])
    requires chain != [] && Last(chain) == Last(chains[k]) && HasSerial(h', chain)
    requires SerialOk(h', chain, h'[Last(chain)].serial.value)
    requires h'[Last(chain)].serial.value.next == h[Last(chain)].serial.value.next
    requires forall i, b :: 0 <= i < |chains| && i != k && b in chains[i] && b in h ==> b in h' && h'[b] == h[b]
    ensures Threads(h', at, chains[k := chain])
    decreases |chains|
  {
    hide SerialOk;
    var rest, next := chains[1..], h[at].serial.value.next;
    if k == 0 {
      assert chains[k := chain][1..] == rest;
      assert forall i, b :: 0 <= i < |rest| && b in rest[i] ==> b in chains[i + 1];
      ThreadsFrame(h, h', next, rest);
    } else {
      assert at in chains[0];
      SerialFrame(h, h', chains[0], h[at].serial.value);
      assert rest[k - 1] == chains[k];
      assert forall i, b :: 0 <= i < |rest| && b in rest[i] ==> b in chains[i + 1];
      ThreadsUpdate(h, h', next, rest, k - 1, chain);
      assert chains[k := chain][1..] == rest[k - 1 := chain];
    }
  }

  // ---------------------------------------------------------------- a SerialArena at work

  /** The heap after an operation of a SerialArena has left it in this state, perhaps with a new block. */
  function Worked(h: Heap, serial: Address, arena: SerialModel.Arena): Heap
    requires serial in h && h[serial].serial.Some?
  {
    var obj := h[serial].serial.value;
    if Grew(h, serial, arena) then
      var added := Last(arena.s.blocks);
      h[added.base := Block(added.size, obj.head, None)]
       [serial := h[serial].(serial := Some(SerialObject(added.base, obj.next, arena)))]
    else h[serial := h[serial].(serial := Some(obj.(arena := arena)))]
  }

  lemma WorkedIs(h: Heap, serial: Address, arena: SerialModel.Arena)
    requires serial in h && h[serial].serial.Some?
    ensures var obj := h[serial].serial.value;
            Worked(h, serial, arena) ==
            if |arena.s.blocks| > |obj.arena.s.blocks| then
              h[Last(arena.s.blocks).base := Block(Last(arena.s.blocks).size, obj.head, None)]
               [serial := h[serial].(serial := Some(SerialObject(Last(arena.s.blocks).base, obj.next, arena)))]
            else h[serial := h[serial].(serial := Some(obj.(arena := arena)))]
  {
  }

  predicate Grew(h: Heap, serial: Address, arena: SerialModel.Arena)
    requires serial in h && h[serial].serial.Some?
  {
    |arena.s.blocks| > |h[serial].serial.value.arena.s.blocks|
  }

  function WorkedChain(h: Heap, chain: seq<Address>, arena: SerialModel.Arena): seq<Address>
    requires HasSerial(h, chain)
  {
    if Grew(h, Last(chain), arena) then [Last(arena.s.blocks).base] + chain else chain
  }

  /** At most one block more, at an address not in use, and the others where they were. */
  predicate Extends(h: Heap, serial: Address, arena: SerialModel.Arena)
    requires serial in h && h[serial].serial.Some?
  {
    var before, now := h[serial].serial.value.arena.s.blocks, arena.s.blocks;
    && |before| <= |now| <= |before| + 1
    && (forall i :: 0 <= i < |before| ==> now[i].base == before[i].base && now[i].size == before[i].size)
    && (|now| > |before| ==> now[|before|].base > 0 && now[|before|].base !in h)
  }

  /** Blocks stay where they are, with their sizes; a new one is never at null. */
  lemma WorkedKeepsSizes(h: Heap, serial: Address, arena: SerialModel.Arena)
    requires serial in h && h[serial].serial.Some? && Extends(h, serial, arena) && 0 !in h
    ensures 0 !in Worked(h, serial, arena)
    ensures forall b :: b in h ==> SizeOf(Worked(h, serial, arena), b) == SizeOf(h, b)
    ensures forall b :: b in h && b != serial ==> b in Worked(h, serial, arena) && Worked(h, serial, arena)[b] == h[b]
  {
  }

  lemma WorkedDescribes(h: Heap, chain: seq<Address>, arena: SerialModel.Arena)
    requires HasSerial(h, chain) && Describes(h, chain, h[Last(chain)].serial.value.arena.s.blocks)
    requires Extends(h, Last(chain), arena) && forall b :: b in chain ==> b in h
    ensures Describes(Worked(h, Last(chain), arena), WorkedChain(h, chain, arena), arena.s.blocks)
  {
    var h', chain' := Worked(h, Last(chain), arena), WorkedChain(h, chain, arena);
    var n := |arena.s.blocks|;
    assert forall i :: 0 <= i < |chain| ==> chain[i] in chain && SizeOf(h', chain[i]) == SizeOf(h, chain[i]);
    forall i | 0 <= i < |chain'|
      ensures chain'[i] == arena.s.blocks[n - 1 - i].base && SizeOf(h', chain'[i]) == arena.s.blocks[n - 1 - i].size
    {
      if Grew(h, Last(chain), arena) && i > 0 {
        assert chain'[i] == chain[i - 1];
      }
    }
  }

  lemma WorkedChainOk(h: Heap, chain: seq<Address>, arena: SerialModel.Arena)
    requires HasSerial(h, chain) && Chain(h, h[Last(chain)].serial.value.head, chain)
    requires Extends(h, Last(chain), arena) && forall b :: b in chain ==> b in h
    ensures var h', chain' := Worked(h, Last(chain), arena), WorkedChain(h, chain, arena);
            Last(chain') == Last(chain) && HasSerial(h', chain') && Chain(h', h'[Last(chain)].serial.value.head, chain')
  {
    var h', chain' := Worked(h, Last(chain), arena), WorkedChain(h, chain, arena);
    ChainFrame(h, h', h[Last(chain)].serial.value.head, chain);
    if Grew(h, Last(chain), arena) {
      assert chain'[1..] == chain;
    }
  }

  lemma WorkedSerialOk(h: Heap, chain: seq<Address>, arena: SerialModel.Arena)
    requires HasSerial(h, chain) && SerialOk(h, chain, h[Last(chain)].serial.value)
    requires Extends(h, Last(chain), arena) && SerialModel.Inv(arena)
    ensures var h', chain' := Worked(h, Last(chain), arena), WorkedChain(h, chain, arena);
            && Last(chain') == Last(chain) && HasSerial(h', chain') &&
              SerialOk(h', chain', h'[Last(chain)].serial.value)
            && h'[Last(chain)].serial.value.next == h[Last(chain)].serial.value.next
            && h'[Last(chain)].serial.value.arena == arena
  {
    hide SerialModel.Inv;
    ChainAllocated(h, h[Last(chain)].serial.value.head, chain);
    WorkedDescribes(h, chain, arena);
    WorkedChainOk(h, chain, arena);
    hide Chain, Describes;
  }

  // ---------------------------------------------------------------- lists that grow

  lemma DistinctInsert<T>(a: seq<T>, x: T, b: seq<T>)
    requires Distinct(a + b) && x !in a + b
    ensures Distinct(a + [x] + b)
  {
    var all, t := a + b, a + [x] + b;
    forall i, j | 0 <= i < j < |t| ensures t[i] != t[j] {
      var i', j' := if i < |a| then i else i - 1, if j < |a| then j else j - 1;
      assert i != |a| ==> t[i] == all[i'];
      assert j != |a| ==> t[j] == all[j'];
    }
  }

  /** A block put in front of one chain. */
  lemma FlatGrows(chains: seq<seq<Address>>, k: nat, x: Address)
    requires k < |chains| && chains[k] != [] && Distinct(Flat(chains)) && x !in Flat(chains)
    ensures var chains' := chains[k := [x] + chains[k]];
            Distinct(Flat(chains')) && Flat(chains) != [] && Flat(chains') != [] &&
                Last(Flat(chains')) == Last(Flat(chains))
  {
    var chains' := chains[k := [x] + chains[k]];
    var a, b, c := Flat(chains[..k]), chains[k], Flat(chains[k + 1..]);
    FlatSplits(chains, k);
    FlatSplits(chains', k);
    assert chains'[..k] == chains[..k] && chains'[k + 1..] == chains[k + 1..];
    hide *;
    InsertIntoMiddle(a, x, b, c);
  }

  lemma InsertIntoMiddle<T>(a: seq<T>, x: T, b: seq<T>, c: seq<T>)
    requires b != [] && Distinct(a + b + c) && x !in a + b + c
    ensures Distinct(a + ([x] + b) + c) && a + b + c != [] && a + ([x] + b) + c != []
    ensures Last(a + ([x] + b) + c) == Last(a + b + c)
  {
    Associate(a, b, c);
    DistinctInsert(a, x, b + c);
    assert a + [x] + (b + c) == a + ([x] + b) + c;
  }

  lemma FlatSplits<T>(chains: seq<seq<T>>, k: nat)
    requires k < |chains|
    ensures Flat(chains) == Flat(chains[..k]) + chains[k] + Flat(chains[k + 1..])
  {
    FlatContains(chains, k + 1);
    FlatNext(chains, k);
  }

  lemma FlatFront<T>(chain: seq<T>, chains: seq<seq<T>>)
    ensures Flat([chain] + chains) == chain + Flat(chains)
  {
    FlatContains([chain] + chains, 1);
    assert ([chain] + chains)[..1] == [chain] && ([chain] + chains)[1..] == chains && [chain][..0] == [];
    assert Flat([chain]) == Flat([]) + chain;
  }

  lemma InFlat<T>(chains: seq<seq<T>>, k: nat, x: T)
    requires k < |chains| && x in chains[k]
    ensures x in Flat(chains)
  {
    FlatSplits(chains, k);
  }

  /** Two chains of the list share no block. */
  lemma ChainsDiffer(chains: seq<seq<Address>>, i: nat, k: nat, b: Address)
    requires Distinct(Flat(chains)) && i < |chains| && k < |chains| && i != k && b in chains[i]
    ensures b !in chains[k]
  {
    var lo, hi := if i < k then i else k, if i < k then k else i;
    ChainsApart(chains, hi);
    assert chains[..hi][lo] == chains[lo];
    if i < k {
      InFlat(chains[..hi], lo, b);
    } else if b in chains[k] {
      InFlat(chains[..hi], lo, b);
    }
  }
}
