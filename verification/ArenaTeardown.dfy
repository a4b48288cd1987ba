/**
 Life and death of the memory of a ThreadSafeArena: SerialArenas that join the list and allocate blocks, and Reset and
 destruction, which walk the list and the chains and give memory back along the way. A block that was given back is gone
 from the heap, with the SerialArena that lived in it, so every read below proves that it touches memory still held.
 */
module ArenaTeardown {
  import opened Wrappers
  import opened ArenaArithmetic
  import opened Sequences
  import opened ArenaCleanup
  import opened BlockLists
  import ArenaRuns
  import BumpSafety
  import SerialModel

  // ---------------------------------------------------------------- the code

  /** The sizes of all requests that all SerialArenas served by bumping. */
  function Served(h: Heap, chains: seq<seq<Address>>): nat {
    if chains == [] then 0
    else Served(h, chains[..|chains| - 1]) + if HasSerial(h, Last(chains)) then ArenaOf(h, Last(chains)).l.served else 0
  }

  lemma ServedNext(h: Heap, at: Address, done: seq<seq<Address>>, rest: seq<seq<Address>>)
    requires rest != [] && Threads(h, at, rest)
    ensures at in h && h[at].serial.Some? && Threads(h, h[at].serial.value.next, rest[1..])
    ensures h[at].serial.value.arena.s.blocks != []
    ensures Served(h, done + [rest[0]]) == Served(h, done) + ArenaRuns.SpaceUsed(h[at].serial.value.arena.s)
  {
    assert (done + [rest[0]])[..|done|] == done;
    var a := h[at].serial.value.arena;
    assert SerialModel.BlocksOk(a.s) && SerialModel.SpaceOk(a.s, a.l);
    hide SerialModel.Inv, SerialOk;
    ArenaRuns.SpaceOkMeans(a);
  }

  /** The block of a SerialArena that joins the list. */
  function PushExtent(policy: Option<Policy>, base: Address): Extent {
    Extent(base, BlockSize(PolicyOf(policy), 0, SERIAL_ARENA_SIZE))
  }

  function PushedHeap(h: Heap, at: Address, mem: Extent): Heap {
    h[mem.ptr := SerialBlock(mem, at, SerialModel.New(mem.ptr, mem.size))]
  }

  /** The list from at has these chains, no block is in two places, and the user's block is where it belongs. */
  predicate ListsOk(h: Heap, at: Address, chains: seq<seq<Address>>, userOwned: bool, userBlock: Extent,
                    policy: Option<Policy>) {
    && 0 !in h
    && Threads(h, at, chains)
    && Distinct(Flat(chains))
    && UserBlockOk(h, Flat(chains), userOwned, userBlock, policy)
  }

  /** The part of a ThreadSafeArena that holds memory. */
  class ArenaMemory {
    var heap: Heap
    var events: seq<Event>
    var threads: Address
    var userOwned: bool               // is_user_owned_initial_block
    var policy: Option<Policy>
    ghost var chains: seq<seq<Address>>
    ghost var userBlock: Extent       // the initial block the user gave, if it was accepted

    ghost predicate Valid()
      reads this
    {
      ListsOk(heap, threads, chains, userOwned, userBlock, policy)
    }

    /** An arena over the memory in use elsewhere, with the user's memory at mem or with none. */
    constructor (heap: Heap, mem: Extent, policy: Option<Policy>, base: Address)
      requires 0 !in heap && (mem.ptr != 0 ==> Usable(mem) && mem.ptr !in heap)
      requires policy.Some? ==> Usable(FirstBlock(policy, base)) && base !in heap
      ensures Valid() && events == [] && this.policy == policy
      ensures userOwned == (mem.ptr != 0 && mem.size >= MinimumSize(policy)) && (userOwned ==> userBlock == mem)
      ensures var start := StartsWith(mem, policy, base);
              this.heap == StartHeap(heap, start, policy) && chains == StartChains(start)
    {
      this.heap, events, threads, userOwned, this.policy := heap, [], 0, false, policy;
      chains, userBlock := [], NULL;
      new;
      Initialize(mem, base);
    }

    // -------------------------------------------------------------- allocation

    /** Any operation of the k-th SerialArena of the list, a new block included: the user's block stays the last. */
    method Work(serial: Address, ghost k: nat, op: ArenaRuns.Op)
      requires Valid() && k < |chains| && chains[k] != [] && serial == Last(chains[k])
      requires serial in heap && heap[serial].serial.Some? && SerialModel.Inv(heap[serial].serial.value.arena)
      requires ArenaRuns.Legal(heap[serial].serial.value.arena, PolicyOf(policy), op)
      requires op.Allocate? || op.AllocateWithCleanup? ==> op.base !in heap
      modifies this`heap, this`chains
      ensures Valid()
      ensures HasSerial(old(heap), old(chains)[k])
      ensures var arena := ArenaRuns.Step(old(heap)[serial].serial.value.arena, PolicyOf(policy), op);
              && heap == Worked(old(heap), serial, arena)
              && chains == old(chains)[k := WorkedChain(old(heap), old(chains)[k], arena)]
    {
      var obj := heap[serial].serial.value;
      var arena := ArenaRuns.Step(obj.arena, PolicyOf(policy), op);
      ArenaRuns.StepKeepsInv(obj.arena, PolicyOf(policy), op);
      StepExtends(heap, serial, PolicyOf(policy), op);
      hide SerialModel.Inv, ArenaRuns.Step, ArenaRuns.Legal, ListsOk, Extends, PolicyOf, WorkedChain, Worked;
      Record(serial, k, arena);
    }

    // What the operation leaves behind: the block it added, if any, and the new state of the SerialArena.
    method Record(serial: Address, ghost k: nat, arena: SerialModel.Arena)
      requires Valid() && k < |chains| && HasSerial(heap, chains[k]) && serial == Last(chains[k])
      requires Extends(heap, serial, arena) && SerialModel.Inv(arena)
      modifies this`heap, this`chains
      ensures Valid()
      ensures heap == Worked(old(heap), serial, arena)
      ensures chains == old(chains)[k := WorkedChain(old(heap), old(chains)[k], arena)]
    {
      WorkKeepsLists(heap, threads, chains, k, arena, userOwned, userBlock, policy);
      ghost var chain := WorkedChain(heap, chains[k], arena);
      WorkedIs(heap, serial, arena);
      hide SerialModel.Inv, ListsOk, Extends, WorkedChain, Worked;
      var obj := heap[serial].serial.value;
      if |arena.s.blocks| > |obj.arena.s.blocks| {
        var added := Last(arena.s.blocks);
        heap := heap[added.base := Block(added.size, obj.head, None)]
                    [serial := heap[serial].(serial := Some(SerialObject(added.base, obj.next, arena)))];
      } else {
        heap := heap[serial := heap[serial].(serial := Some(obj.(arena := arena)))];
      }
      chains := chains[k := chain];
    }

    /** The end of GetSerialArenaFallback: a SerialArena in a block of its own joins the list in front. */
    method PushSerial(base: Address)
      requires Valid() && base !in heap && Usable(PushExtent(policy, base))
      modifies this`heap, this`chains, this`threads
      ensures Valid()
      ensures heap == PushedHeap(old(heap), old(threads), PushExtent(policy, base))
      ensures threads == base && chains == [[base]] + old(chains)
    {
      var size := BlockSize(PolicyOf(policy), 0, SERIAL_ARENA_SIZE);
      PushKeepsLists(heap, threads, chains, Extent(base, size), userOwned, userBlock, policy);
      hide ListsOk;
      heap := heap[base := Block(size, 0, Some(SerialObject(base, threads, SerialModel.New(base, size))))];
      threads := base;
      chains := [[base]] + chains;
    }

    // -------------------------------------------------------------- teardown

    /** GetDeallocator's call operator. */
    method Deallocate(mem: Extent, before: nat) returns (spaceAllocated: nat)
      requires mem == NULL || (mem.ptr in heap && heap[mem.ptr].size == mem.size)
      modifies this`heap, this`events
      ensures heap == old(heap) - {mem.ptr} && events == old(events) + [Returned(mem)]
      ensures spaceAllocated == before + mem.size
    {
      heap := heap - {mem.ptr};
      events := events + [Returned(mem)];
      spaceAllocated := before + mem.size;
    }

    /** SerialArena::Free: gives back all blocks but the oldest, which it returns. */
    method FreeSerial(serial: Address, ghost chain: seq<Address>, before: nat)
      returns (mem: Extent, spaceAllocated: nat)
      requires 0 !in heap && serial in heap && heap[serial].serial.Some?
      requires Chain(heap, heap[serial].serial.value.head, chain) && Distinct(chain)
      modifies this`heap, this`events
      ensures heap == old(heap) - Elements(chain[..|chain| - 1])
      ensures events == old(events) + Gone(old(heap), chain[..|chain| - 1])
      ensures mem == Extent(Last(chain), SizeOf(old(heap), Last(chain))) && mem.ptr in heap
      ensures spaceAllocated == before + Total(old(heap), chain[..|chain| - 1])
    {
      var b := heap[serial].serial.value.head;
      mem := Extent(b, heap[b].size);
      spaceAllocated := before;
      ghost var h, done := heap, 0;
      ChainAllocated(h, b, chain);
      while heap[b].next != 0
        invariant 0 <= done < |chain| && b == chain[done] && b in heap && Chain(h, b, chain[done..])
        invariant heap == h - Elements(chain[..done])
        invariant events == old(events) + Gone(h, chain[..done])
        invariant mem == Extent(b, h[b].size)
        invariant spaceAllocated == before + Total(h, chain[..done])
        decreases |chain| - done
      {
        b := heap[b].next;
        spaceAllocated := Deallocate(mem, spaceAllocated);
        assert chain[done..][1..] == chain[done + 1..];
        assert chain[..done + 1] == chain[..done] + [chain[done]];
        assert chain[..done + 1][..done] == chain[..done];
        ElementsAppend(chain[..done], [chain[done]]);
        done := done + 1;
        mem := Extent(b, heap[b].size);
      }
    }

    /** ThreadSafeArena::Free: gives back all blocks but the oldest of the oldest SerialArena, which it returns. */
    method Free(before: nat) returns (mem: Extent, spaceAllocated: nat)
      requires Valid()
      modifies this`heap, this`events
      ensures |events| >= |old(events)| && events == old(events) + events[|old(events)|..] && spaceAllocated >= before
      ensures Handled(old(heap), heap, events[|old(events)|..], mem, spaceAllocated - before, Flat(chains))
    {
      hide Flat, Distinct, Elements, Gone, Total, SerialOk, Handled, UserBlockOk;
      mem := NULL;
      spaceAllocated := before;
      var serial := threads;
      ghost var h, k, done, e := heap, 0, [], [];
      assert Handled(h, heap, e, mem, 0, done) && Flat(chains[..0]) == [] by { EmptyHandled(h, chains); }
      while serial != 0
        invariant 0 <= k <= |chains| && Threads(h, serial, chains[k..]) && done == Flat(chains[..k])
        invariant events == old(events) + e && spaceAllocated >= before
        invariant Handled(h, heap, e, mem, spaceAllocated - before, done)
        decreases |chains| - k
      {
        HandBack(h, heap, e, mem, spaceAllocated - before, done);
        if mem.ptr != 0 {
          spaceAllocated := Deallocate(mem, spaceAllocated);
        }
        ThreadsDrop(h, serial, chains, k);
        ghost var chain := chains[k];
        ghost var h1 := heap;
        NextChain(h, h1, serial, chains, k);
        mem, spaceAllocated := FreeSerial(serial, chain, spaceAllocated);
        FreedSoFar(h, h1, heap, mem, done, chain);
        FlatNext(chains, k);
        e := Gone(h, done) + Gone(h1, chain[..|chain| - 1]);
        done, k := done + chain, k + 1;
        serial := heap[serial].serial.value.next;
      }
      assert chains[..k] == chains;
    }

    /** The calls of SerialArena::CleanupList for all SerialArenas, before any memory is given back. */
    method CleanupList()
      requires Valid()
      modifies this`events
      ensures events == old(events) + CleanupEvents(heap, chains)
    {
      assert CleanupEvents(heap, []) == [] && Threads(heap, threads, chains);
      hide CleanupEvents, Flat, RanAll, Threads, Calls, ListsOk;
      var serial := threads;
      ghost var h, ran, rest, e := heap, [], chains, [];
      ThreadsEnd(h, serial, rest);
      while serial != 0
        invariant heap == h && Threads(h, serial, rest) && (serial == 0 <==> rest == []) && chains == ran + rest
        invariant events == old(events) + e && e == CleanupEvents(h, ran)
        decreases |rest|
      {
        CleanupNext(h, serial, ran, rest);
        MoveOne(ran, rest);
        var own := RanAll(Calls(heap[serial].serial.value.arena.s));
        events := events + own;
        serial := heap[serial].serial.value.next;
        Associate(old(events), e, own);
        ran, rest, e := ran + [rest[0]], rest[1..], e + own;
        ThreadsEnd(h, serial, rest);
      }
      assert chains == ran;
    }

    method SpaceAllocated() returns (res: nat)
      requires Valid()
      ensures res == Total(heap, Flat(chains))
    {
      hide SerialOk, Distinct, UserBlockOk, Total, Flat;
      assert Total(heap, Flat(chains[..0])) == 0 by { NothingYet(heap, chains); }
      var serial := threads;
      ghost var k := 0;
      res := 0;
      while serial != 0
        invariant 0 <= k <= |chains| && Threads(heap, serial, chains[k..])
        invariant res == Total(heap, Flat(chains[..k]))
        decreases |chains| - k
      {
        ThreadsDrop(heap, serial, chains, k);
        ThreadsAllocated(heap, serial, chains[k..], 0);
        FlatNext(chains, k);
        TotalAppend(heap, Flat(chains[..k]), chains[k]);
        SpaceOfSerial(heap, chains[k], heap[serial].serial.value);
        res := res + heap[serial].serial.value.arena.s.spaceAllocated;
        serial := heap[serial].serial.value.next;
        k := k + 1;
      }
      assert chains[..k] == chains;
    }

    /** The bytes served by bumping from all SerialArenas, not counting the policy. */
    method SpaceUsed() returns (spaceUsed: int)
      requires Valid()
      ensures spaceUsed == Served(heap, chains) - if policy.Some? then ALLOCATION_POLICY_SIZE else 0
    {
      assert Served(heap, []) == 0 && Threads(heap, threads, chains);
      hide Served, Threads, ListsOk, ArenaRuns.SpaceUsed;
      var serial := threads;
      ghost var done, rest := [], chains;
      ThreadsEnd(heap, serial, rest);
      spaceUsed := 0;
      while serial != 0
        invariant Threads(heap, serial, rest) && (serial == 0 <==> rest == []) && chains == done + rest
        invariant spaceUsed == Served(heap, done)
        decreases |rest|
      {
        ServedNext(heap, serial, done, rest);
        MoveOne(done, rest);
        spaceUsed := spaceUsed + ArenaRuns.SpaceUsed(heap[serial].serial.value.arena.s);
        serial := heap[serial].serial.value.next;
        done, rest := done + [rest[0]], rest[1..];
        ThreadsEnd(heap, serial, rest);
      }
      assert chains == done;
      spaceUsed := spaceUsed - if policy.Some? then ALLOCATION_POLICY_SIZE else 0;
    }

    /** SetInitialBlock, and the policy put into the new SerialArena. */
    method SetInitialBlock(mem: Extent)
      requires Usable(mem) && mem.size >= MinimumSize(policy)
      modifies this`heap, this`threads, this`chains
      ensures heap == StartHeap(old(heap), mem, policy) && threads == mem.ptr && chains == [[mem.ptr]]
    {
      var arena := SerialModel.New(mem.ptr, mem.size);
      if policy.Some? {
        arena := SerialModel.Bump(arena, ALLOCATION_POLICY_SIZE);
      }
      heap := heap[mem.ptr := Block(mem.size, 0, Some(SerialObject(mem.ptr, 0, arena)))];
      threads := mem.ptr;
      chains := [[mem.ptr]];
    }

    /** InitializeFrom and InitializeWithPolicy. base is where the system puts the first block, if it has to give
        one. */
    method Initialize(mem: Extent, base: Address)
      requires 0 !in heap && (mem.ptr != 0 ==> Usable(mem))
      requires policy.Some? && (mem.ptr == 0 || mem.size < MinimumSize(policy)) ==> Usable(FirstBlock(policy, base))
      requires mem.ptr == 0 || mem.size < MinimumSize(policy) ==> !userOwned
      modifies this`heap, this`threads, this`chains, this`userOwned, this`userBlock
      ensures Valid()
      ensures userOwned == (mem.ptr != 0 && mem.size >= MinimumSize(policy)) && (userOwned ==> userBlock == mem)
      ensures var start := StartsWith(mem, policy, base);
              heap == StartHeap(old(heap), start, policy) && chains == StartChains(start)
    {
      threads := 0;
      chains := [];
      if mem.ptr != 0 && mem.size >= MinimumSize(policy) {
        userOwned := true;
        userBlock := mem;
        SetInitialBlock(mem);
        StartIsValid(old(heap), mem, policy);
      } else if policy.Some? {
        var first := Extent(base, BlockSize(policy.value, 0, MinimumSize(policy)));
        SetInitialBlock(first);
        StartIsValid(old(heap), first, policy);
      }
    }

    /** What Reset and destruction have in common: all cleanups, then every block but the user's, which is kept. */
    method ReleaseMemory() returns (kept: Extent, spaceAllocated: nat)
      requires Valid()
      modifies this`heap, this`events
      ensures 0 !in heap && kept == (if userOwned then userBlock else NULL)
      ensures userOwned ==> Usable(kept) && kept.size >= MinimumSize(policy)
      ensures var all := Flat(chains);
              && events == old(events) + CleanupEvents(old(heap), chains) + TeardownEvents(old(heap), all, userOwned)
              && heap == Without(old(heap), all, userOwned)
              && spaceAllocated == Total(old(heap), all)
    {
      ghost var h := heap;
      UserBlockIsUsable(heap, threads, chains, userOwned, userBlock, policy);
      assert ListsOk(h, threads, chains, userOwned, userBlock, policy);
      hide ListsOk, Flat, CleanupEvents, Total, TeardownEvents, Without, Handled, Usable;
      CleanupList();
      ghost var e := events;
      kept, spaceAllocated := Free(0);
      ghost var freed := events[|e|..];
      LastOfTeardown(h, threads, chains, heap, freed, kept, spaceAllocated, userOwned, userBlock, policy);
      if userOwned {
        spaceAllocated := spaceAllocated + kept.size;
      } else {
        spaceAllocated := Deallocate(kept, spaceAllocated);
        Associate(e, freed, [Returned(kept)]);
        kept := NULL;
      }
    }

    /** ~ThreadSafeArena. reported is what the metrics collector is told. */
    method Destroy() returns (reported: nat)
      requires Valid()
      modifies this
      ensures var all := Flat(old(chains));
        && events == old(events) + CleanupEvents(old(heap), old(chains)) +
          TeardownEvents(old(heap), all, old(userOwned))
        && heap == Without(old(heap), all, old(userOwned))
        && reported == Total(old(heap), all)
    {
      var _, spaceAllocated := ReleaseMemory();
      reported := spaceAllocated;
    }

    /** Reset gives back all memory but the user's block, starts over, and returns exactly the space that was
        allocated. */
    method Reset(base: Address) returns (spaceAllocated: nat)
      requires Valid()
      requires policy.Some? && !userOwned ==>
                 Usable(FirstBlock(policy, base)) && base !in Without(heap, Flat(chains), false)
      modifies this
      ensures Valid() && userOwned == old(userOwned) && policy == old(policy)
      ensures userOwned ==> userBlock == old(userBlock)
      ensures spaceAllocated == Total(old(heap), Flat(old(chains)))
      ensures var all := Flat(old(chains));
        && events == old(events) + CleanupEvents(old(heap), old(chains)) + TeardownEvents(old(heap), all, userOwned)
        && var start := StartsWith(if userOwned then userBlock else NULL, policy, base);
        heap == StartHeap(Without(old(heap), all, userOwned), start, policy) && chains == StartChains(start)
    {
      hide ListsOk, Flat, CleanupEvents, Total, TeardownEvents, Without, StartHeap, StartChains;
      var mem;
      mem, spaceAllocated := ReleaseMemory();
      Initialize(mem, base);
    }
  }

  /** What is left to do when Free is done: the user's block is kept, any other is given back like the rest. */
  lemma LastOfTeardown(h: Heap, at: Address, chains: seq<seq<Address>>, h': Heap, e: seq<Event>, mem: Extent,
                       total: nat, userOwned: bool, userBlock: Extent, policy: Option<Policy>)
    requires ListsOk(h, at, chains, userOwned, userBlock, policy) && Handled(h, h', e, mem, total, Flat(chains))
    ensures 0 !in h' && total + mem.size == Total(h, Flat(chains))
    ensures userOwned ==>
              && mem == userBlock && mem.ptr != 0 && mem.size >= MinimumSize(policy)
              && h' == Without(h, Flat(chains), true) && e == TeardownEvents(h, Flat(chains), true)
    ensures !userOwned ==>
              && (mem == NULL || (mem.ptr in h' && h'[mem.ptr].size == mem.size))
              && h' - {mem.ptr} == Without(h, Flat(chains), false) &&
                e + [Returned(mem)] == TeardownEvents(h, Flat(chains), false)
  {
    var all := Flat(chains);
    HandBack(h, h', e, mem, total, all);
    assert userOwned ==> all != [] && mem == userBlock && mem.size >= MinimumSize(policy);
    hide Threads, Distinct, Flat, Total, Gone, MinimumSize;
    TeardownIs(h, all, userOwned);
    if all == [] {
      assert h - {0} == h;
      assert [] + [Returned(NULL)] == [Returned(NULL)];
    }
  }

  // ---------------------------------------------------------------- what keeps the lists in order

  lemma NothingYet(h: Heap, chains: seq<seq<Address>>)
    ensures Total(h, Flat(chains[..0])) == 0
  {
  }

  lemma StartArenaKeepsInv(mem: Extent, policy: Option<Policy>)
    requires Usable(mem) && mem.size >= MinimumSize(policy)
    ensures SerialModel.Inv(StartArena(mem, policy))
    ensures StartArena(mem, policy).s.blocks == [SerialModel.Block(mem.ptr, mem.size, 0)]
  {
    BumpSafety.NewKeepsInv(mem.ptr, mem.size);
    if policy.Some? {
      RoundDownFacts(mem.size, 8);
      hide SerialModel.Inv;
      BumpSafety.BumpKeepsInv(SerialModel.New(mem.ptr, mem.size), ALLOCATION_POLICY_SIZE);
    }
  }

  /** A SerialArena in a block of its own, in front of a list. */
  lemma OneBlockOk(h: Heap, mem: Extent, next: Address, arena: SerialModel.Arena)
    requires mem.ptr != 0 && SerialModel.Inv(arena) && arena.s.blocks == [SerialModel.Block(mem.ptr, mem.size, 0)]
    requires mem.ptr in h && h[mem.ptr] == SerialBlock(mem, next, arena)
    ensures SerialOk(h, [mem.ptr], h[mem.ptr].serial.value)
  {
    hide SerialModel.Inv;
  }

  lemma StartIsValid(h: Heap, mem: Extent, policy: Option<Policy>)
    requires Usable(mem) && mem.size >= MinimumSize(policy)
    ensures var h' := StartHeap(h, mem, policy);
            && Threads(h', mem.ptr, [[mem.ptr]]) && Flat([[mem.ptr]]) == [mem.ptr]
            && UserBlockOk(h', [mem.ptr], true, mem, policy)
  {
    var h' := StartHeap(h, mem, policy);
    StartArenaKeepsInv(mem, policy);
    OneBlockOk(h', mem, 0, StartArena(mem, policy));
    hide SerialOk;
    assert [[mem.ptr]][..0] == [] && [[mem.ptr]][1..] == [];
    assert Threads(h', 0, []);
  }

  lemma UserBlockIsUsable(h: Heap, at: Address, chains: seq<seq<Address>>, userOwned: bool, userBlock: Extent,
                          policy: Option<Policy>)
    requires ListsOk(h, at, chains, userOwned, userBlock, policy)
    ensures userOwned ==> Usable(userBlock)
  {
    if userOwned {
      var k := |chains| - 1;
      assert chains != [];
      ThreadsAllocated(h, at, chains, k);
      FlatLast(chains);
      assert Last(Flat(chains)) == Last(chains[k]);
      hide SerialOk, Threads, Flat, Distinct;
      OldestIsUsable(h, chains[k], h[Last(chains[k])].serial.value);
    }
  }

  lemma OldestIsUsable(h: Heap, chain: seq<Address>, serial: SerialObject)
    requires SerialOk(h, chain, serial) && chain != []
    ensures Usable(Extent(Last(chain), SizeOf(h, Last(chain))))
  {
    assert SerialModel.BlockOk(serial.arena.s, 0);
  }

  lemma PushKeepsThreads(h: Heap, at: Address, chains: seq<seq<Address>>, mem: Extent)
    requires Threads(h, at, chains) && Usable(mem) && mem.ptr !in h && mem.size >= BLOCK_HEADER_SIZE + SERIAL_ARENA_SIZE
    ensures Threads(PushedHeap(h, at, mem), mem.ptr, [[mem.ptr]] + chains)
  {
    var h' := PushedHeap(h, at, mem);
    BumpSafety.NewKeepsInv(mem.ptr, mem.size);
    OneBlockOk(h', mem, at, SerialModel.New(mem.ptr, mem.size));
    hide SerialOk, SerialModel.Inv, SerialModel.New;
    ThreadsFrame(h, h', at, chains);
    hide Threads;
    FrontThread(h', mem.ptr, at, chains);
  }

  lemma FrontThread(h: Heap, at: Address, next: Address, chains: seq<seq<Address>>)
    requires Threads(h, next, chains) && at != 0 && at in h && h[at].serial.Some?
    requires SerialOk(h, [at], h[at].serial.value) && h[at].serial.value.next == next
    ensures Threads(h, at, [[at]] + chains)
  {
    hide SerialOk;
    assert ([[at]] + chains)[1..] == chains;
  }

  lemma DistinctFront<T>(x: T, rest: seq<T>)
    requires Distinct(rest) && x !in rest
    ensures Distinct([x] + rest) && [x] + rest != [] && (rest != [] ==> Last([x] + rest) == Last(rest))
  {
  }

  lemma PushKeepsFlat(h: Heap, at: Address, chains: seq<seq<Address>>, x: Address)
    requires Threads(h, at, chains) && Distinct(Flat(chains)) && x !in h
    ensures var all := Flat([[x]] + chains);
            Distinct(all) && all != [] && (Flat(chains) != [] ==> Last(all) == Last(Flat(chains)))
  {
    AllHeld(h, at, chains);
    FlatFront([x], chains);
    hide *;
    DistinctFront(x, Flat(chains));
  }

  lemma PushKeepsLists(h: Heap, at: Address, chains: seq<seq<Address>>, mem: Extent, userOwned: bool, userBlock: Extent,
                       policy: Option<Policy>)
    requires ListsOk(h, at, chains, userOwned, userBlock, policy)
    requires Usable(mem) && mem.ptr !in h && mem.size >= BLOCK_HEADER_SIZE + SERIAL_ARENA_SIZE
    ensures ListsOk(PushedHeap(h, at, mem), mem.ptr, [[mem.ptr]] + chains, userOwned, userBlock, policy)
  {
    PushKeepsThreads(h, at, chains, mem);
    PushKeepsFlat(h, at, chains, mem.ptr);
    AllHeld(h, at, chains);
    hide Threads, Distinct, Flat;
    assert userOwned ==> Last(Flat(chains)) in h;
  }

  /** All blocks of the list are held. */
  lemma AllHeld(h: Heap, at: Address, chains: seq<seq<Address>>)
    requires Threads(h, at, chains)
    ensures forall b :: b in Flat(chains) ==> b in h
  {
    forall b | b in Flat(chains) ensures b in h {
      var k := ChainOf(chains, b);
      ThreadsAllocated(h, at, chains, k);
      ChainAllocated(h, h[Last(chains[k])].serial.value.head, chains[k]);
    }
  }

  lemma {:induction false} ChainOf(chains: seq<seq<Address>>, b: Address) returns (k: nat)
    requires b in Flat(chains)
    ensures k < |chains| && b in chains[k]
  {
    k := |chains| - 1;
    if b !in chains[k] {
      k := ChainOf(chains[..k], b);
    }
  }

  lemma StepExtends(h: Heap, serial: Address, policy: Policy, op: ArenaRuns.Op)
    requires serial in h && h[serial].serial.Some? && SerialModel.Inv(h[serial].serial.value.arena)
    requires ArenaRuns.Legal(h[serial].serial.value.arena, policy, op)
    requires op.Allocate? || op.AllocateWithCleanup? ==> op.base !in h
    ensures Extends(h, serial, ArenaRuns.Step(h[serial].serial.value.arena, policy, op))
  {
    hide SerialModel.Inv, ArenaRuns.Legal, ArenaRuns.Step;
    ArenaRuns.StepBlocks(h[serial].serial.value.arena, policy, op);
  }

  lemma WorkKeepsThreads(h: Heap, at: Address, chains: seq<seq<Address>>, k: nat, arena: SerialModel.Arena)
    requires 0 !in h && Threads(h, at, chains) && Distinct(Flat(chains))
    requires k < |chains| && HasSerial(h, chains[k]) && Extends(h, Last(chains[k]), arena) && SerialModel.Inv(arena)
    ensures Threads(Worked(h, Last(chains[k]), arena), at, chains[k := WorkedChain(h, chains[k], arena)])
  {
    var h' := Worked(h, Last(chains[k]), arena);
    ThreadsAllocated(h, at, chains, k);
    hide SerialOk, SerialModel.Inv, Threads, Distinct, Flat, Worked, WorkedChain, Extends, Grew;
    WorkedSerialOk(h, chains[k], arena);
    WorkedKeepsSizes(h, Last(chains[k]), arena);
    forall i, b | 0 <= i < |chains| && i != k && b in chains[i] && b in h ensures b in h' && h'[b] == h[b] {
      ChainsDiffer(chains, i, k, b);
    }
    ThreadsUpdate(h, h', at, chains, k, WorkedChain(h, chains[k], arena));
  }

  lemma WorkKeepsFlat(h: Heap, at: Address, chains: seq<seq<Address>>, k: nat, arena: SerialModel.Arena)
    requires Threads(h, at, chains) && Distinct(Flat(chains))
    requires k < |chains| && HasSerial(h, chains[k]) && Extends(h, Last(chains[k]), arena)
    ensures var all := Flat(chains[k := WorkedChain(h, chains[k], arena)]);
            Distinct(all) && all != [] && Flat(chains) != [] && Last(all) == Last(Flat(chains))
  {
    hide Threads, Flat, Distinct;
    AllHeld(h, at, chains);
    InFlat(chains, k, Last(chains[k]));
    if Grew(h, Last(chains[k]), arena) {
      FlatGrows(chains, k, Last(arena.s.blocks).base);
    } else {
      assert chains[k := chains[k]] == chains;
    }
  }

  lemma WorkKeepsLists(h: Heap, at: Address, chains: seq<seq<Address>>, k: nat, arena: SerialModel.Arena,
                       userOwned: bool, userBlock: Extent, policy: Option<Policy>)
    requires ListsOk(h, at, chains, userOwned, userBlock, policy)
    requires k < |chains| && HasSerial(h, chains[k]) && Extends(h, Last(chains[k]), arena) && SerialModel.Inv(arena)
    ensures ListsOk(Worked(h, Last(chains[k]), arena), at, chains[k := WorkedChain(h, chains[k], arena)], userOwned,
        userBlock, policy)
  {
    WorkKeepsThreads(h, at, chains, k, arena);
    WorkKeepsFlat(h, at, chains, k, arena);
    AllHeld(h, at, chains);
    WorkedKeepsSizes(h, Last(chains[k]), arena);
    hide Threads, Distinct, Flat, SerialModel.Inv, WorkedChain, Worked, Extends, Grew;
    assert Last(Flat(chains)) in h;
  }

  lemma TeardownIs(h: Heap, all: seq<Address>, userOwned: bool)
    requires userOwned ==> all != []
    ensures all == [] ==> TeardownEvents(h, all, userOwned) == [Returned(NULL)] && Without(h, all, userOwned) == h
    ensures all != [] && userOwned ==>
      TeardownEvents(h, all, userOwned) == Gone(h, all[..|all| - 1]) &&
          Without(h, all, userOwned) == h - Elements(all[..|all| - 1])
    ensures all != [] && !userOwned ==>
      TeardownEvents(h, all, userOwned) == Gone(h, all) && Without(h, all, userOwned) == h - Elements(all)
  {
  }

  // ---------------------------------------------------------------- exactly once

  lemma DistinctCount<T>(s: seq<T>, i: nat)
    requires Distinct(s) && i < |s|
    ensures multiset(s)[s[i]] == 1
  {
    var a, b := s[..i], s[i + 1..];
    assert s == a + [s[i]] + b;
    assert s[i] !in multiset(a) && s[i] !in multiset(b);
  }

  /** Teardown gives back every block of every thread exactly once, except the initial block the user gave, which is
      never given back; and nothing else is. */
  lemma ReturnedExactlyOnce(h: Heap, all: seq<Address>, userOwned: bool, userBlock: Extent, policy: Option<Policy>,
                            b: Address)
    requires Distinct(all) && UserBlockOk(h, all, userOwned, userBlock, policy)
    ensures b in all ==>
              multiset(TeardownEvents(h, all, userOwned))[Returned(Extent(b, SizeOf(h, b)))] ==
              if userOwned && b == userBlock.ptr then 0 else 1
    ensures all != [] && Returned(Extent(b, SizeOf(h, b))) in TeardownEvents(h, all, userOwned) ==> b in all
  {
    if b in all {
      var kept := if userOwned then all[..|all| - 1] else all;
      var e := Gone(h, kept);
      assert TeardownEvents(h, all, userOwned) == e;
      if userOwned && b == userBlock.ptr {
        assert Returned(Extent(b, SizeOf(h, b))) !in e;
      } else {
        var i :| 0 <= i < |kept| && kept[i] == b;
        DistinctCount(e, i);
      }
    }
  }

  lemma {:induction false} ReversedContents<T>(s: seq<T>)
    ensures multiset(Reversed(s)) == multiset(s)
    ensures |Reversed(s)| == |s|
  {
    if s != [] {
      ReversedContents(s[..|s| - 1]);
      assert s == s[..|s| - 1] + [s[|s| - 1]];
    }
  }

  lemma {:induction false} RanCount(s: seq<Cleanup>, c: Cleanup)
    ensures multiset(RanAll(s))[Ran(c)] == multiset(s)[c]
  {
    if s != [] {
      var most := s[..|s| - 1];
      RanCount(most, c);
      assert s == most + [Last(s)] && RanAll(s) == RanAll(most) + [Ran(Last(s))];
    }
  }

  // ---------------------------------------------------------------- the user's block over whole lives

  datatype Lists = Lists(h: Heap, at: Address, chains: seq<seq<Address>>)

  /** What happens to an arena between two teardowns: a SerialArena works, or a new one joins the list. */
  datatype Deed = DoWork(k: nat, op: ArenaRuns.Op) | DoPush(base: Address)

  predicate CanDo(l: Lists, policy: Option<Policy>, deed: Deed) {
    match deed
    case DoWork(k, op) =>
      && k < |l.chains| && HasSerial(l.h, l.chains[k]) && SerialModel.Inv(ArenaOf(l.h, l.chains[k]))
      && ArenaRuns.Legal(ArenaOf(l.h, l.chains[k]), PolicyOf(policy), op)
      && (op.Allocate? || op.AllocateWithCleanup? ==> op.base !in l.h)
    case DoPush(base) => Usable(PushExtent(policy, base)) && base !in l.h
  }

  function Do(l: Lists, policy: Option<Policy>, deed: Deed): Lists
    requires CanDo(l, policy, deed)
  {
    match deed
    case DoWork(k, op) =>
      var chain := l.chains[k];
      var arena := ArenaRuns.Step(ArenaOf(l.h, chain), PolicyOf(policy), op);
      Lists(Worked(l.h, Last(chain), arena), l.at, l.chains[k := WorkedChain(l.h, chain, arena)])
    case DoPush(base) => Lists(PushedHeap(l.h, l.at, PushExtent(policy, base)), base, [[base]] + l.chains)
  }

  function DoAll(l: Lists, policy: Option<Policy>, deeds: seq<Deed>): Option<Lists>
    decreases |deeds|
  {
    if deeds == [] then Some(l)
    else if CanDo(l, policy, deeds[0]) then DoAll(Do(l, policy, deeds[0]), policy, deeds[1..])
    else None
  }

  predicate InOrder(l: Lists, userOwned: bool, userBlock: Extent, policy: Option<Policy>) {
    ListsOk(l.h, l.at, l.chains, userOwned, userBlock, policy)
  }

  lemma DoKeepsOrder(l: Lists, policy: Option<Policy>, deed: Deed, userOwned: bool, userBlock: Extent)
    requires InOrder(l, userOwned, userBlock, policy) && CanDo(l, policy, deed)
    ensures InOrder(Do(l, policy, deed), userOwned, userBlock, policy)
  {
    hide ListsOk, SerialModel.Inv, ArenaRuns.Step, ArenaRuns.Legal;
    match deed
    case DoWork(k, op) =>
      var chain := l.chains[k];
      StepExtends(l.h, Last(chain), PolicyOf(policy), op);
      ArenaRuns.StepKeepsInv(ArenaOf(l.h, chain), PolicyOf(policy), op);
      WorkKeepsLists(l.h, l.at, l.chains, k, ArenaRuns.Step(ArenaOf(l.h, chain), PolicyOf(policy), op), userOwned,
          userBlock, policy);
    case DoPush(base) =>
      PushKeepsLists(l.h, l.at, l.chains, PushExtent(policy, base), userOwned, userBlock, policy);
  }

  lemma {:induction false} DoAllKeepsOrder(l: Lists, policy: Option<Policy>, deeds: seq<Deed>, userOwned: bool,
                                           userBlock: Extent)
    requires InOrder(l, userOwned, userBlock, policy) && DoAll(l, policy, deeds).Some?
    ensures InOrder(DoAll(l, policy, deeds).value, userOwned, userBlock, policy)
    decreases |deeds|
  {
    if deeds != [] {
      hide InOrder, CanDo, Do;
      DoKeepsOrder(l, policy, deeds[0], userOwned, userBlock);
      DoAllKeepsOrder(Do(l, policy, deeds[0]), policy, deeds[1..], userOwned, userBlock);
    }
  }

  /** The user gives mem; any threads join and allocate in any order; then the arena is reset or destroyed: mem is still
      held, never given back, and every other block of the arena is given back exactly once. */
  lemma UserBlockSurvives(h: Heap, mem: Extent, policy: Option<Policy>, deeds: seq<Deed>, b: Address)
    requires 0 !in h && Usable(mem) && mem.size >= MinimumSize(policy)
    requires DoAll(Lists(StartHeap(h, mem, policy), mem.ptr, [[mem.ptr]]), policy, deeds).Some?
    ensures var l := DoAll(Lists(StartHeap(h, mem, policy), mem.ptr, [[mem.ptr]]), policy, deeds).value;
            var all := Flat(l.chains);
            && mem.ptr in all && mem.ptr in Without(l.h, all, true)
            && (b in all ==> multiset(TeardownEvents(l.h, all, true))[Returned(Extent(b, SizeOf(l.h, b)))] ==
                             if b == mem.ptr then 0 else 1)
  {
    var l0 := Lists(StartHeap(h, mem, policy), mem.ptr, [[mem.ptr]]);
    StartIsValid(h, mem, policy);
    assert InOrder(l0, true, mem, policy);
    hide InOrder, DoAll, StartHeap;
    DoAllKeepsOrder(l0, policy, deeds, true, mem);
    var l := DoAll(l0, policy, deeds).value;
    OrderedTeardown(l, mem, policy, b);
  }

  lemma OrderedTeardown(l: Lists, userBlock: Extent, policy: Option<Policy>, b: Address)
    requires InOrder(l, true, userBlock, policy)
    ensures var all := Flat(l.chains);
            && userBlock.ptr in all && userBlock.ptr in Without(l.h, all, true)
            && (b in all ==> multiset(TeardownEvents(l.h, all, true))[Returned(Extent(b, SizeOf(l.h, b)))] ==
                             if b == userBlock.ptr then 0 else 1)
  {
    var all := Flat(l.chains);
    AllHeld(l.h, l.at, l.chains);
    ReturnedExactlyOnce(l.h, all, true, userBlock, policy, b);
    hide Threads, Flat, TeardownEvents;
    assert Last(all) == userBlock.ptr && userBlock.ptr in all;
    assert forall i :: 0 <= i < |all| - 1 ==> all[i] != Last(all);
  }

  /** The state of an arena without a user's block: empty, or with the first block of its policy at base. */
  function OwnStart(h: Heap, policy: Option<Policy>, base: Address): Lists {
    var start := StartsWith(NULL, policy, base);
    Lists(StartHeap(h, start, policy), start.ptr, StartChains(start))
  }

  lemma OwnStartInOrder(h: Heap, policy: Option<Policy>, base: Address)
    requires 0 !in h && (policy.Some? ==> Usable(FirstBlock(policy, base)))
    ensures InOrder(OwnStart(h, policy, base), false, NULL, policy)
  {
    var first := FirstBlock(policy, base);
    if policy.Some? {
      BlockSizeFacts(policy.value, 0, MinimumSize(policy));
      StartIsValid(h, first, policy);
      hide Threads, Flat, BlockSize, StartHeap;
      assert StartChains(first) == [[first.ptr]];
    }
  }

  /** With no block of the user's: any threads join and allocate in any order; then the arena is reset or destroyed:
      every block of the arena is given back exactly once and none is kept. */
  lemma NothingIsKept(h: Heap, policy: Option<Policy>, base: Address, deeds: seq<Deed>, b: Address)
    requires 0 !in h && (policy.Some? ==> Usable(FirstBlock(policy, base)))
    requires DoAll(OwnStart(h, policy, base), policy, deeds).Some?
    ensures var l := DoAll(OwnStart(h, policy, base), policy, deeds).value;
            var all := Flat(l.chains);
            && (b in all ==>
                  && multiset(TeardownEvents(l.h, all, false))[Returned(Extent(b, SizeOf(l.h, b)))] == 1
                  && b !in Without(l.h, all, false))
            && (b in l.h && b !in all ==> b in Without(l.h, all, false))
  {
    OwnStartInOrder(h, policy, base);
    DoAllKeepsOrder(OwnStart(h, policy, base), policy, deeds, false, NULL);
    var l := DoAll(OwnStart(h, policy, base), policy, deeds).value;
    assert Distinct(Flat(l.chains)) && UserBlockOk(l.h, Flat(l.chains), false, NULL, policy);
    hide InOrder, DoAll, OwnStart, Flat, Distinct, TeardownEvents, UserBlockOk;
    ReturnedExactlyOnce(l.h, Flat(l.chains), false, NULL, policy, b);
  }

  // ---------------------------------------------------------------- cleanups of all threads

  function RegisteredWith(h: Heap, chain: seq<Address>): seq<Cleanup> {
    if HasSerial(h, chain) then ArenaOf(h, chain).l.registered else []
  }

  /** All cleanups registered with the SerialArenas of the list. */
  function Registered(h: Heap, chains: seq<seq<Address>>): seq<Cleanup> {
    if chains == [] then [] else Registered(h, chains[..|chains| - 1]) + RegisteredWith(h, Last(chains))
  }

  /** CleanupList of this SerialArena passes over a block that holds a node. */
  predicate LosesCleanup(h: Heap, chain: seq<Address>) {
    HasSerial(h, chain) && PassesOver(ArenaOf(h, chain).s, |ArenaOf(h, chain).s.blocks|)
  }

  predicate SerialsOk(h: Heap, chains: seq<seq<Address>>) {
    forall k :: 0 <= k < |chains| ==> HasSerial(h, chains[k]) && SerialModel.Inv(ArenaOf(h, chains[k]))
  }

  predicate NoneLost(h: Heap, chains: seq<seq<Address>>) {
    forall k :: 0 <= k < |chains| ==> !LosesCleanup(h, chains[k])
  }

  lemma ChainCalls(h: Heap, chain: seq<Address>)
    requires HasSerial(h, chain) && SerialModel.Inv(ArenaOf(h, chain))
    ensures !LosesCleanup(h, chain) ==> CallsOf(h, chain) == Reversed(RegisteredWith(h, chain))
    ensures LosesCleanup(h, chain) ==> |CallsOf(h, chain)| < |RegisteredWith(h, chain)|
  {
    var a := ArenaOf(h, chain);
    assert SerialModel.BlocksOk(a.s) && SerialModel.CleanupOk(a.s, a.l);
    hide SerialModel.Inv, PassesOver;
    ReversedContents(a.l.registered);
    CallsExactly(a.s, |a.s.blocks|);
  }

  lemma NoneLostSplits(h: Heap, chains: seq<seq<Address>>)
    requires chains != []
    ensures NoneLost(h, chains) <==> NoneLost(h, chains[..|chains| - 1]) && !LosesCleanup(h, Last(chains))
  {
    hide LosesCleanup;
    var most := chains[..|chains| - 1];
    assert forall i :: 0 <= i < |most| ==> most[i] == chains[i];
  }

  lemma LastChain(h: Heap, chains: seq<seq<Address>>)
    requires chains != []
    ensures CleanupEvents(h, chains) == CleanupEvents(h, chains[..|chains| - 1]) + RanAll(CallsOf(h, Last(chains)))
    ensures Registered(h, chains) == Registered(h, chains[..|chains| - 1]) + RegisteredWith(h, Last(chains))
  {
  }

  lemma {:induction false} CallsNeverExceed(h: Heap, chains: seq<seq<Address>>)
    requires SerialsOk(h, chains)
    ensures |CleanupEvents(h, chains)| <= |Registered(h, chains)|
    ensures !NoneLost(h, chains) ==> |CleanupEvents(h, chains)| < |Registered(h, chains)|
  {
    if chains == [] {
    } else {
      var most, last := chains[..|chains| - 1], Last(chains);
      assert HasSerial(h, last) && SerialModel.Inv(ArenaOf(h, last)) && SerialsOk(h, most);
      NoneLostSplits(h, chains);
      hide *;
      ChainCallsLength(h, last);
      LastChain(h, chains);
      CallsNeverExceed(h, most);
    }
  }

  lemma ChainCallsLength(h: Heap, chain: seq<Address>)
    requires HasSerial(h, chain) && SerialModel.Inv(ArenaOf(h, chain))
    ensures |RanAll(CallsOf(h, chain))| <= |RegisteredWith(h, chain)|
    ensures LosesCleanup(h, chain) ==> |RanAll(CallsOf(h, chain))| < |RegisteredWith(h, chain)|
  {
    ChainCalls(h, chain);
    ReversedContents(RegisteredWith(h, chain));
    hide CallsOf, RegisteredWith, LosesCleanup, Reversed, SerialModel.Inv;
  }

  lemma CountAppend<T>(a: seq<T>, b: seq<T>, x: T)
    ensures multiset(a + b)[x] == multiset(a)[x] + multiset(b)[x]
  {
  }

  lemma ChainCallsCount(h: Heap, chain: seq<Address>, c: Cleanup)
    requires HasSerial(h, chain) && SerialModel.Inv(ArenaOf(h, chain)) && !LosesCleanup(h, chain)
    ensures multiset(RanAll(CallsOf(h, chain)))[Ran(c)] == multiset(RegisteredWith(h, chain))[c]
  {
    ChainCalls(h, chain);
    hide *;
    ReversedContents(RegisteredWith(h, chain));
    RanCount(Reversed(RegisteredWith(h, chain)), c);
  }

  lemma {:induction false} AllCallsCount(h: Heap, chains: seq<seq<Address>>, c: Cleanup)
    requires SerialsOk(h, chains) && NoneLost(h, chains)
    ensures multiset(CleanupEvents(h, chains))[Ran(c)] == multiset(Registered(h, chains))[c]
  {
    if chains == [] {
    } else {
      var most, last := chains[..|chains| - 1], Last(chains);
      assert HasSerial(h, last) && SerialModel.Inv(ArenaOf(h, last)) && SerialsOk(h, most);
      NoneLostSplits(h, chains);
      hide *;
      AllCallsCount(h, most, c);
      ChainCallsCount(h, last, c);
      LastChain(h, chains);
      CountAppend(CleanupEvents(h, most), RanAll(CallsOf(h, last)), Ran(c));
      CountAppend(Registered(h, most), RegisteredWith(h, last), c);
    }
  }

  lemma {:induction false} OnlyRan(h: Heap, chains: seq<seq<Address>>)
    ensures forall e :: e in CleanupEvents(h, chains) ==> e.Ran?
  {
    if chains != [] {
      OnlyRan(h, chains[..|chains| - 1]);
    }
  }

  lemma SerialsAreOk(h: Heap, at: Address, chains: seq<seq<Address>>)
    requires Threads(h, at, chains)
    ensures SerialsOk(h, chains)
  {
    forall k | 0 <= k < |chains| ensures HasSerial(h, chains[k]) && SerialModel.Inv(ArenaOf(h, chains[k])) {
      ThreadsAllocated(h, at, chains, k);
    }
  }

  /** What was registered with all threads runs exactly as often as it was registered. */
  ghost predicate AllRun(h: Heap, chains: seq<seq<Address>>) {
    forall c :: multiset(CleanupEvents(h, chains))[Ran(c)] == multiset(Registered(h, chains))[c]
  }

  /** Every cleanup registered with any thread's SerialArena runs exactly as often as it was registered, if and only if
      no SerialArena has a block that CleanupList passes over; otherwise fewer run than were registered. */
  lemma CleanupsRunOnceExactly(h: Heap, at: Address, chains: seq<seq<Address>>)
    requires Threads(h, at, chains)
    ensures AllRun(h, chains) <==> NoneLost(h, chains)
    ensures !NoneLost(h, chains) ==> |CleanupEvents(h, chains)| < |Registered(h, chains)|
  {
    SerialsAreOk(h, at, chains);
    hide Threads;
    CallsNeverExceed(h, chains);
    if NoneLost(h, chains) {
      forall c ensures multiset(CleanupEvents(h, chains))[Ran(c)] == multiset(Registered(h, chains))[c] {
        AllCallsCount(h, chains, c);
      }
    } else if AllRun(h, chains) {
      OnlyRan(h, chains);
      SameCountsSameLength(CleanupEvents(h, chains), Registered(h, chains));
    }
  }

  lemma {:induction false} SameCountsSameLength(events: seq<Event>, cleanups: seq<Cleanup>)
    requires forall e :: e in events ==> e.Ran?
    requires forall c :: multiset(events)[Ran(c)] == multiset(cleanups)[c]
    ensures |events| == |cleanups|
    decreases |events|
  {
    if events == [] {
      assert multiset(cleanups) == multiset{};
    } else {
      var c := events[0].cleanup;
      assert events[0] in multiset(events);
      assert c in multiset(cleanups);
      var i :| 0 <= i < |cleanups| && cleanups[i] == c;
      var rest := cleanups[..i] + cleanups[i + 1..];
      assert events == [events[0]] + events[1..] && cleanups == cleanups[..i] + [c] + cleanups[i + 1..];
      assert multiset(cleanups) == multiset(rest) + multiset{c} &&
          multiset(events) == multiset(events[1..]) + multiset{events[0]};
      SameCountsSameLength(events[1..], rest);
    }
  }

  /** With block sizes that are multiples of 8 nothing is ever lost. */
  lemma RoundBlocksLoseNothing(h: Heap, chains: seq<seq<Address>>)
    requires forall k :: 0 <= k < |chains| && HasSerial(h, chains[k]) ==> RoundSizes(ArenaOf(h, chains[k]).s)
    ensures NoneLost(h, chains)
  {
    forall k | 0 <= k < |chains| ensures !LosesCleanup(h, chains[k]) {
      if HasSerial(h, chains[k]) { RoundSizesPassOverNothing(ArenaOf(h, chains[k]).s); }
    }
  }
}
