/**
 Whole runs of the ThreadSafeArena machine: Init, Reset, destruction and thread restarts keep the invariant that the
 fallback path keeps, so in every run the caches agree with the linear search, lifecycle ids never repeat, entries from
 before a Reset never hit, and no pushed SerialArena is lost.
 */
module ThreadSafeRuns {
  import opened Wrappers
  import opened ArenaArithmetic
  import opened ThreadSafeArena

  // ---------------------------------------------------------------- the steps that are not concurrent

  /** The id taken was never handed out before, and leaves bit 0 to the ownership tag. */
  lemma TakenIdIsNew(s: State, t: Tid)
    requires IdsOk(s)
    ensures TakenId(s.counter, CacheOf(s, t)) !in s.issued && TakenId(s.counter, CacheOf(s, t)) % ID_STEP == 0
  {
    assert SlotOk(s, t);
    FirstOfBatch(s.counter);
    hide FirstId;
  }

  lemma DivideBy512(q: nat, r: nat)
    requires r < 512
    ensures (512 * q + r) / 512 == q && (512 * q + r) % 512 == r
  {
  }

  lemma OddIsNotEven(n: nat)
    ensures (2 * n + 1) % 2 == 1
  {
  }

  lemma NextQuotient(id: nat, q: nat, r: nat)
    requires id % 2 == 0 && r < 512 && id == 512 * q + r
    ensures (id + 2) % 512 != 0 ==> (id + 2) / 512 == q
  {
    OddIsNotEven(256 * q + 255);
    assert 512 * q + 511 == 2 * (256 * q + 255) + 1;
    if r < 510 {
      DivideBy512(q, r + 2);
      assert id + 2 == 512 * q + (r + 2);
    } else {
      DivideBy512(q + 1, 0);
      assert id + 2 == 512 * (q + 1) + 0;
    }
  }

  lemma Quotient(id: nat)
    ensures id == 512 * (id / 512) + id % 512
  {
  }

  lemma NextInBatch(id: nat)
    requires id % 2 == 0
    ensures !AtBatchStart(id + ID_STEP) ==> BatchOf(id + ID_STEP) == BatchOf(id)
    ensures (id + ID_STEP) % 2 == 0
  {
    Quotient(id);
    NextQuotient(id, id / 512, id % 512);
  }

  lemma FirstOfBatch(counter: nat)
    ensures BatchOf(FirstId(counter)) == counter && FirstId(counter) % 2 == 0
  {
    assert FirstId(counter) == 512 * counter + 0;
    DivideBy512(counter, 0);
    EvenMultiple(counter);
  }

  lemma TwiceIsEven(n: nat)
    ensures 2 * n % 2 == 0
  {
  }

  lemma EvenMultiple(n: nat)
    ensures 512 * n % 2 == 0
  {
    var m := 256 * n;
    assert 512 * n == 2 * m;
    TwiceIsEven(m);
  }

  /** The id taken lies in a batch of the thread, or in the new one. */
  lemma TakenBatch(s: State, t: Tid)
    requires SlotOk(s, t)
    ensures var id, counter := TakenId(s.counter, CacheOf(s, t)), CounterAfter(s.counter, CacheOf(s, t));
            && id % 2 == 0 && BatchOf(id) < counter && s.counter <= counter <= s.counter + 1
            && (InBatch(s, t) ==> id == CacheOf(s, t).nextId)
            && (!InBatch(s, t) ==> BatchOf(id) == s.counter)
  {
    FirstOfBatch(s.counter);
  }

  /** Taking an id and giving the thread any cache with the right next id. */
  lemma TakingKeepsIds(s: State, s': State, t: Tid)
    requires IdsOk(s) && CounterAfter(s.counter, CacheOf(s, t)) <= ID_BATCHES
    requires s'.counter == CounterAfter(s.counter, CacheOf(s, t))
    requires s'.issued == s.issued + {TakenId(s.counter, CacheOf(s, t))}
    requires CacheOf(s', t).nextId == TakenId(s.counter, CacheOf(s, t)) + ID_STEP
    requires forall u :: u != t ==> CacheOf(s', u).nextId == CacheOf(s, u).nextId
    ensures IdsOk(s')
  {
    var id := TakenId(s.counter, CacheOf(s, t));
    assert SlotOk(s, t);
    TakenBatch(s, t);
    hide TakenId, CounterAfter, CacheOf;
    NextInBatch(id);
    assert SlotOk(s', t);
    forall u | u != t ensures SlotOk(s', u) { OtherSlotOk(s, s', t, u, id); }
    forall u | u != t && InBatch(s', t) && InBatch(s', u)
      ensures BatchOf(CacheOf(s', t).nextId) != BatchOf(CacheOf(s', u).nextId)
    {
      OtherSlotOk(s, s', t, u, id);
    }
    hide SlotOk;
    forall u, v | u != v && u != t && v != t && InBatch(s', u) && InBatch(s', v)
      ensures BatchOf(CacheOf(s', u).nextId) != BatchOf(CacheOf(s', v).nextId)
    {
      assert InBatch(s, u) && InBatch(s, v);
    }
  }

  /** Another thread's batch is not the one the id was taken from. */
  lemma OtherSlotOk(s: State, s': State, t: Tid, u: Tid, id: nat)
    requires IdsOk(s) && u != t && s'.issued == s.issued + {id} && s.counter <= s'.counter
    requires InBatch(s, t) ==> id == CacheOf(s, t).nextId
    requires !InBatch(s, t) ==> BatchOf(id) == s.counter
    requires CacheOf(s', u).nextId == CacheOf(s, u).nextId
    ensures SlotOk(s', u) && (InBatch(s', u) ==> BatchOf(CacheOf(s', u).nextId) != BatchOf(id))
  {
    hide CacheOf;
    assert SlotOk(s, u);
  }

  lemma InitKeepsIds(s: State, t: Tid, a: ArenaId, owned: bool, initial: Addr)
    requires IdsOk(s) && IdAvailable(s.counter, CacheOf(s, t), owned)
    ensures IdsOk(Initialize(s, t, a, owned, initial))
  {
    hide IdsOk, TakenId;
    TakingKeepsIds(s, Initialize(s, t, a, owned, initial), t);
  }

  lemma TagsApart(id: nat, owned: bool)
    requires id % 2 == 0
    ensures IdOf(Tagged(id, owned)) == id
  {
  }

  /** A new arena whose tag carries an id not seen before. */
  lemma NewTagOk(s: State, s': State, a: ArenaId, arena: Arena)
    requires TagsOk(s) && IdOf(arena.tagAndId) !in s.issued && arena.tagAndId != NEVER_SEEN
    requires s'.arenas == s.arenas[a := arena] && s'.issued == s.issued + {IdOf(arena.tagAndId)}
    ensures TagsOk(s')
  {
    hide IdOf;
  }

  lemma InitKeepsTags(s: State, t: Tid, a: ArenaId, owned: bool, initial: Addr)
    requires IdsOk(s) && TagsOk(s) && IdAvailable(s.counter, CacheOf(s, t), owned)
    ensures TagsOk(Initialize(s, t, a, owned, initial))
  {
    TakenIdIsNew(s, t);
    hide IdsOk, TakenId, TagsOk;
    var id := TakenId(s.counter, CacheOf(s, t));
    TagsApart(id, owned);
    hide Tagged;
    NewTagOk(s, Initialize(s, t, a, owned, initial), a, Arena(Tagged(id, owned), initial, initial));
  }

  /** No cache can hold a tag just made, except one that Init has just written. */
  lemma NewTagKeepsCache(s: State, s': State, a: ArenaId, arena: Arena, u: Tid)
    requires CacheEntryOk(s, u) && s.lists.Keys == s.arenas.Keys && a !in s.arenas
    requires IdOf(arena.tagAndId) !in s.issued && arena.tagAndId != NEVER_SEEN
    requires s'.arenas == s.arenas[a := arena] && s'.issued == s.issued + {IdOf(arena.tagAndId)}
    requires forall b :: b in s.lists ==> b in s'.lists && s'.lists[b] == s.lists[b]
    requires forall x :: x in s.nodes ==> x in s'.nodes && s'.nodes[x] == s.nodes[x]
    requires CacheOf(s', u).lastId == CacheOf(s, u).lastId && CacheOf(s', u).lastSerial == CacheOf(s, u).lastSerial
    ensures CacheEntryOk(s', u)
  {
    hide IdOf;
    var tc := CacheOf(s, u);
    hide CacheOf;
    forall b | b in s'.arenas && s'.arenas[b].tagAndId == tc.lastId ensures OnList(s', b, tc.lastSerial, u) {
      assert b != a;
      assert OnList(s, b, tc.lastSerial, u);
    }
  }

  lemma NewEntryOk(s: State, a: ArenaId, u: Tid)
    requires TagsOk(s) && a in s.arenas && CacheOf(s, u).lastId == s.arenas[a].tagAndId &&
        OnList(s, a, CacheOf(s, u).lastSerial, u)
    ensures CacheEntryOk(s, u)
  {
    hide CacheOf, IdOf, OnList;
  }

  lemma InitKeepsCaches(s: State, t: Tid, a: ArenaId, owned: bool, initial: Addr, u: Tid)
    requires IdsOk(s) && CacheEntryOk(s, u) && TagsOk(s) && s.lists.Keys == s.arenas.Keys && a !in s.arenas
    requires IdAvailable(s.counter, CacheOf(s, t), owned) && (initial == 0 || FreshAddr(s, initial))
    ensures CacheEntryOk(Initialize(s, t, a, owned, initial), u)
  {
    hide IdsOk, TakenId, TagsOk, CacheEntryOk, Tagged, IdOf, CounterAfter, OnList;
    var id, s' := TakenId(s.counter, CacheOf(s, t)), Initialize(s, t, a, owned, initial);
    if u == t && initial != 0 {
      InitKeepsTags(s, t, a, owned, initial);
      assert s'.lists[a][0] == initial && s'.nodes[initial] == Node(t, 0);
      hide Initialize, IdAvailable;
      InFront(s', a, initial, t);
      NewEntryOk(s', a, t);
    } else {
      TakenIdIsNew(s, t);
      TagsApart(id, owned);
      NewTagKeepsCache(s, s', a, Arena(Tagged(id, owned), initial, initial), u);
    }
  }

  lemma InFront(s: State, a: ArenaId, x: Addr, t: Tid)
    requires a in s.lists && s.lists[a] != [] && s.lists[a][0] == x && x in s.nodes && s.nodes[x].owner == t
    ensures OnList(s, a, x, t)
  {
  }

  lemma SameNodesListOk(s: State, s': State, b: ArenaId)
    requires b in s.arenas && b in s.lists && ListOk(s, b) && b in s'.arenas && b in s'.lists
    requires s'.arenas[b] == s.arenas[b] && s'.lists[b] == s.lists[b]
    requires forall x :: x in s.lists[b] && x in s.nodes ==> x in s'.nodes && s'.nodes[x] == s.nodes[x]
    ensures ListOk(s', b)
  {
    LinkedFrame(s.nodes, s'.nodes, s.arenas[b].head, s.lists[b]);
  }

  /** Lists next to a new one, made of at most one new node. */
  lemma NewListOk(s: State, s': State, a: ArenaId, arena: Arena)
    requires ListsOk(s) && a !in s.arenas && arena.head == arena.hint
    requires arena.head != 0 ==> arena.head !in s.nodes && arena.head in s'.nodes && s'.nodes[arena.head].next == 0
    requires s'.arenas == s.arenas[a := arena] && s'.lists == s.lists[a := if arena.head == 0 then [] else [arena.head]]
    requires forall x :: x in s.nodes ==> x in s'.nodes && s'.nodes[x] == s.nodes[x]
    ensures ListsOk(s')
  {
    assert ListOk(s', a) by {
      if arena.head != 0 { assert Linked(s'.nodes, 0, [arena.head][1..]); }
    }
    hide ListOk, ListsApart;
    forall b | b in s'.arenas && b != a ensures ListOk(s', b) {
      SameNodesListOk(s, s', b);
    }
    NewListApart(s, s', a, arena);
  }

  lemma NewListApart(s: State, s': State, a: ArenaId, arena: Arena)
    requires ListsOk(s) && a !in s.arenas && (arena.head != 0 ==> arena.head !in s.nodes)
    requires s'.lists == s.lists[a := if arena.head == 0 then [] else [arena.head]]
    ensures ListsApart(s')
  {
    hide ListOk;
    forall b, x | b in s.lists && x in s.lists[b] ensures x in s.nodes { InList(s, b, x); }
  }

  lemma InitKeepsLists(s: State, t: Tid, a: ArenaId, owned: bool, initial: Addr)
    requires ListsOk(s) && a !in s.arenas && (initial == 0 || FreshAddr(s, initial))
    ensures ListsOk(Initialize(s, t, a, owned, initial))
  {
    hide TakenId, CounterAfter, Tagged, ListsOk;
    NewListOk(s, Initialize(s, t, a, owned, initial), a,
        Arena(Tagged(TakenId(s.counter, CacheOf(s, t)), owned), initial, initial));
  }

  /** A thread at work on an arena whose list and nodes stay as they are. */
  lemma SameListKeepsPhase(s: State, s': State, u: Tid, p: Phase)
    requires PhaseOk(s, u, p) && !p.Ready? && ListOk(s, p.arena)
    requires p.arena in s'.arenas && p.arena in s'.lists && s'.lists[p.arena] == s.lists[p.arena]
    requires forall x :: x in s.lists[p.arena] ==> x in s'.nodes && s'.nodes[x] == s.nodes[x]
    requires p.Loading? || p.Linking? || p.Swapping? ==> Private(s', p.node, u) && s'.nodes[p.node] == s.nodes[p.node]
    ensures PhaseOk(s', u, p)
  {
    hide ListOk;
    if p.Walking? {
      hide OwnsNone, Private;
      SuffixContains(p.rest, s.lists[p.arena]);
      LinkedFrame(s.nodes, s'.nodes, p.at, p.rest);
    }
    assert ListOk(s, p.arena);
    forall x | x in s.lists[p.arena]
        ensures OnList(s', p.arena, x, u) == OnList(s, p.arena, x, u) { InList(s, p.arena, x); }
  }

  lemma InList(s: State, a: ArenaId, x: Addr)
    requires a in s.arenas && a in s.lists && ListOk(s, a) && x in s.lists[a]
    ensures x in s.nodes
  {
  }

  lemma InitKeepsPhases(s: State, t: Tid, a: ArenaId, owned: bool, initial: Addr, u: Tid)
    requires Inv(s) && a !in s.arenas && (initial == 0 || FreshAddr(s, initial))
    ensures PhaseOk(Initialize(s, t, a, owned, initial), u, PhaseOf(s, u))
  {
    hide TakenId, CounterAfter, Tagged, Inv, CacheEntryOk, ListOk;
    var p, s' := PhaseOf(s, u), Initialize(s, t, a, owned, initial);
    InvAt(s, u);
    if !p.Ready? {
      if p.Loading? || p.Linking? || p.Swapping? {
        assert Private(s', p.node, u);
      }
      hide PhaseOk;
      forall x | x in s.lists[p.arena] ensures x in s.nodes && x in s'.nodes &&
          s'.nodes[x] == s.nodes[x] { InList(s, p.arena, x); }
      SameListKeepsPhase(s, s', u, p);
    }
  }

  lemma InitKeepsInv(s: State, t: Tid, a: ArenaId, owned: bool, initial: Addr)
    requires Inv(s) && a !in s.arenas && IdAvailable(s.counter, CacheOf(s, t), owned)
    requires initial == 0 || FreshAddr(s, initial)
    ensures Inv(Initialize(s, t, a, owned, initial))
  {
    var s' := Initialize(s, t, a, owned, initial);
    assert s'.phases == s.phases;
    InitKeepsIds(s, t, a, owned, initial);
    InitKeepsTags(s, t, a, owned, initial);
    InitKeepsLists(s, t, a, owned, initial);
    hide Initialize, TagsOk, IdsOk, CacheEntryOk, PhaseOk, ListOk, ListsApart, IdAvailable;
    forall u ensures CacheEntryOk(s', u) { InitKeepsCaches(s, t, a, owned, initial, u); }
    forall u ensures PhaseOk(s', u, PhaseOf(s', u)) { InitKeepsPhases(s, t, a, owned, initial, u); }
  }

  function Destroyed(s: State, a: ArenaId): State {
    s.(nodes := WithoutList(s, a), arenas := s.arenas - {a}, lists := s.lists - {a})
  }

  lemma DestroyKeepsLists(s: State, a: ArenaId)
    requires ListsOk(s) && a in s.arenas
    ensures ListsOk(Destroyed(s, a))
  {
    hide ListOk;
    var s' := Destroyed(s, a);
    forall b | b in s'.arenas ensures ListOk(s', b) {
      SameNodesListOk(s, s', b);
    }
  }

  lemma DestroyKeepsPhases(s: State, a: ArenaId, u: Tid)
    requires Inv(s) && a in s.arenas && Untouched(s, a)
    ensures PhaseOk(Destroyed(s, a), u, PhaseOf(s, u))
  {
    hide Inv, CacheEntryOk, ListOk, IsSuffix, Linked, OwnsNone;
    var p, s' := PhaseOf(s, u), Destroyed(s, a);
    InvLists(s);
    InvAt(s, u);
    if !p.Ready? {
      assert p.arena != a;
      if p.Loading? || p.Linking? || p.Swapping? {
        assert Private(s', p.node, u);
      }
      hide PhaseOk;
      forall x | x in s.lists[p.arena] ensures x in s.nodes && x in s'.nodes &&
          s'.nodes[x] == s.nodes[x] { InList(s, p.arena, x); }
      SameListKeepsPhase(s, s', u, p);
    }
  }

  lemma SameIdsOk(s: State, s': State)
    requires IdsOk(s) && s'.counter == s.counter && s'.issued == s.issued
    requires forall u :: CacheOf(s', u).nextId == CacheOf(s, u).nextId || CacheOf(s', u).nextId == 0
    ensures IdsOk(s')
  {
    hide CacheOf;
    forall u ensures SlotOk(s', u) { assert SlotOk(s, u); }
    forall u ensures InBatch(s', u) ==> InBatch(s, u) && CacheOf(s', u).nextId == CacheOf(s, u).nextId {}
  }

  lemma DestroyKeepsCaches(s: State, a: ArenaId, u: Tid)
    requires CacheEntryOk(s, u) && ListsOk(s) && a in s.arenas
    ensures CacheEntryOk(Destroyed(s, a), u)
  {
    hide ListOk, CacheOf;
    var s' := Destroyed(s, a);
    assert CacheOf(s', u) == CacheOf(s, u) by { SameCache(s, s', u); }
    forall b | b in s'.arenas && s'.arenas[b].tagAndId == CacheOf(s', u).lastId
      ensures OnList(s', b, CacheOf(s', u).lastSerial, u)
    {
      assert OnList(s, b, CacheOf(s, u).lastSerial, u);
    }
  }

  lemma SameCache(s: State, s': State, u: Tid)
    requires s'.caches == s.caches
    ensures CacheOf(s', u) == CacheOf(s, u)
  {
  }

  lemma DestroyKeepsInv(s: State, a: ArenaId)
    requires Inv(s) && a in s.arenas && Untouched(s, a)
    ensures Inv(Destroyed(s, a))
  {
    var s' := Destroyed(s, a);
    assert TagsOk(s');
    hide TagsOk, CacheEntryOk, PhaseOk, ListsOk, WithoutList, IdsOk;
    DestroyKeepsLists(s, a);
    SameIdsOk(s, s');
    forall u ensures CacheEntryOk(s', u) { DestroyKeepsCaches(s, a, u); }
    forall u ensures PhaseOk(s', u, PhaseOf(s', u)) { DestroyKeepsPhases(s, a, u); }
  }

  /** Reset is destruction followed by Init of the same address, with the ownership bit kept. */
  lemma ResetIsDestroyThenInit(s: State, t: Tid, a: ArenaId, initial: Addr)
    requires Enabled(s, Reset(t, a, initial))
    ensures Apply(s, Reset(t, a, initial)) == Initialize(Destroyed(s, a), t, a, s.arenas[a].tagAndId % 2 == 1, initial)
  {
    var owned := s.arenas[a].tagAndId % 2 == 1;
    assert a in s.arenas;
    hide WithoutList, TakenId, CounterAfter, Tagged, Enabled, Apply;
    var x := Initialize(s.(nodes := WithoutList(s, a)), t, a, owned, initial);
    var y := Initialize(Destroyed(s, a), t, a, owned, initial);
    SameAfter(s.arenas, a, x.arenas[a]);
    SameAfter(s.lists, a, x.lists[a]);
    assert Apply(s, Reset(t, a, initial)) == x by { ResetIs(s, t, a, initial); }
  }

  lemma ResetIs(s: State, t: Tid, a: ArenaId, initial: Addr)
    requires Enabled(s, Reset(t, a, initial))
    ensures a in s.arenas
    ensures Apply(s, Reset(t, a, initial)) ==
            Initialize(s.(nodes := WithoutList(s, a)), t, a, s.arenas[a].tagAndId % 2 == 1, initial)
  {
    hide Initialize, WithoutList, IdAvailable;
  }

  lemma SameAfter<K, V>(m: map<K, V>, k: K, v: V)
    ensures (m - {k})[k := v] == m[k := v]
  {
  }

  lemma RestartKeepsLists(s: State, s': State)
    requires ListsOk(s) && s' == s.(caches := s'.caches)
    ensures ListsOk(s')
  {
    hide ListOk;
    forall a | a in s'.arenas ensures ListOk(s', a) { SameNodesListOk(s, s', a); }
  }

  lemma RestartKeepsCaches(s: State, t: Tid, u: Tid)
    requires CacheEntryOk(s, u) && TagsOk(s)
    ensures CacheEntryOk(s.(caches := s.caches[t := FRESH_CACHE]), u)
  {
    var s' := s.(caches := s.caches[t := FRESH_CACHE]);
    assert forall a, x :: OnList(s', a, x, u) == OnList(s, a, x, u);
  }

  lemma RestartKeepsPhase(s: State, s': State, u: Tid, p: Phase)
    requires PhaseOk(s, u, p) && (p.Ready? || ListOk(s, p.arena)) && s' == s.(caches := s'.caches)
    ensures PhaseOk(s', u, p)
  {
    hide ListOk, PhaseOk;
    if !p.Ready? {
      if p.Loading? || p.Linking? || p.Swapping? {
        assert PhaseOk(s, u, p);
        PrivateIn(s, u, p);
        assert Private(s', p.node, u);
      }
      PhaseArena(s, u, p);
      forall x | x in s.lists[p.arena] ensures x in s.nodes { InList(s, p.arena, x); }
      SameListKeepsPhase(s, s', u, p);
    } else {
      ReadyOk(s', u, p);
    }
  }

  lemma PrivateIn(s: State, u: Tid, p: Phase)
    requires PhaseOk(s, u, p) && (p.Loading? || p.Linking? || p.Swapping?)
    ensures Private(s, p.node, u)
  {
  }

  lemma PhaseArena(s: State, u: Tid, p: Phase)
    requires PhaseOk(s, u, p) && !p.Ready?
    ensures p.arena in s.arenas && p.arena in s.lists
  {
  }

  lemma ReadyOk(s: State, u: Tid, p: Phase)
    requires p.Ready?
    ensures PhaseOk(s, u, p)
  {
  }

  lemma RestartKeepsInv(s: State, t: Tid)
    requires Inv(s) && PhaseOf(s, t).Ready?
    ensures Inv(s.(caches := s.caches[t := FRESH_CACHE]))
  {
    var s' := s.(caches := s.caches[t := FRESH_CACHE]);
    assert TagsOk(s');
    hide TagsOk, CacheEntryOk, PhaseOk, ListsOk, IdsOk, ListOk;
    RestartKeepsLists(s, s');
    SameIdsOk(s, s');
    forall u ensures CacheEntryOk(s', u) { RestartKeepsCaches(s, t, u); }
    forall u ensures PhaseOk(s', u, PhaseOf(s', u)) { InvAt(s, u); RestartKeepsPhase(s, s', u, PhaseOf(s, u)); }
  }

  // ---------------------------------------------------------------- every run

  lemma StepKeepsInv(s: State, action: Action)
    requires Inv(s) && Enabled(s, action)
    ensures Inv(Apply(s, action))
  {
    hide Inv, WithoutList, Initialize, IdAvailable;
    if action.Init? {
      InitKeepsInv(s, action.t, action.a, action.owned, action.initial);
    } else if action.Reset? {
      DestroyKeepsInv(s, action.a);
      InitKeepsInv(Destroyed(s, action.a), action.t, action.a, s.arenas[action.a].tagAndId % 2 == 1, action.initial);
      ResetIsDestroyThenInit(s, action.t, action.a, action.initial);
    } else if action.Destroy? {
      DestroyKeepsInv(s, action.a);
    } else if action.Restart? {
      RestartKeepsInv(s, action.t);
    } else {
      FallbackKeepsInv(s, action);
    }
  }

  lemma {:induction false} RunKeepsInv(s: State, run: seq<Action>)
    requires Inv(s) && Run(s, run).Some?
    ensures Inv(Run(s, run).value)
    decreases |run|
  {
    hide Inv, Enabled, Apply;
    if run != [] {
      StepKeepsInv(s, run[0]);
      RunKeepsInv(Apply(s, run[0]), run[1..]);
    }
  }

  lemma EveryRun(run: seq<Action>)
    requires Run(START, run).Some?
    ensures Inv(Run(START, run).value)
  {
    assert Inv(START);
    hide Inv;
    RunKeepsInv(START, run);
  }

  // ---------------------------------------------------------------- the caches refine the search

  lemma OnListIsFound(s: State, t: Tid, a: ArenaId, x: Addr)
    requires Inv(s) && a in s.arenas && OnList(s, a, x, t)
    ensures a in s.lists && Find(s.nodes, s.lists[a], t) == Some(x)
  {
    InvList(s, a);
    hide Inv;
    FindExactly(s.nodes, s.lists[a], t, x);
  }

  /** In every run, whenever the fast path succeeds it returns the node the linear search of the list would find. */
  lemma FastIsLinearSearch(run: seq<Action>, t: Tid, a: ArenaId)
    requires Run(START, run).Some? && a in Run(START, run).value.arenas
    requires Fast(Run(START, run).value, t, a).Some?
    ensures var s := Run(START, run).value;
            && a in s.lists && Linked(s.nodes, s.arenas[a].head, s.lists[a])
            && Find(s.nodes, s.lists[a], t) == Fast(s, t, a)
  {
    EveryRun(run);
    var s := Run(START, run).value;
    InvAt(s, t);
    InvList(s, a);
    hide Inv, Run;
    OnListIsFound(s, t, a, Fast(s, t, a).value);
  }

  /** The fallback path too ends with the one node of the thread: found or newly pushed, it is what a search finds
      now. */
  lemma FallbackIsLinearSearch(run: seq<Action>, t: Tid)
    requires Run(START, run).Some?
    requires PhaseOf(Run(START, run).value, t).Caching? || PhaseOf(Run(START, run).value, t).Hinting?
    ensures var s := Run(START, run).value;
            var p := PhaseOf(s, t);
            && p.arena in s.arenas && p.arena in s.lists
            && Find(s.nodes, s.lists[p.arena], t) == Some(p.node)
  {
    EveryRun(run);
    var s := Run(START, run).value;
    InvAt(s, t);
    hide Inv, Run;
    OnListIsFound(s, t, PhaseOf(s, t).arena, PhaseOf(s, t).node);
  }

  lemma InitIsNew(s: State, t: Tid, a: ArenaId, owned: bool, initial: Addr, u: Tid)
    requires IdsOk(s) && CacheEntryOk(s, u) && IdAvailable(s.counter, CacheOf(s, t), owned)
    ensures var s' := Initialize(s, t, a, owned, initial);
            Fast(s', u, a) == if initial != 0 && u == t then Some(initial) else None
  {
    TakenIdIsNew(s, t);
    hide IdsOk, TakenId;
    var id, s' := TakenId(s.counter, CacheOf(s, t)), Initialize(s, t, a, owned, initial);
    TagsApart(id, owned);
    hide Tagged, CounterAfter;
    assert CacheOf(s, u).lastId != Tagged(id, owned);
    hide CacheEntryOk, IdOf;
  }

  /** After Init or Reset nothing cached before hits: only the user's initial block is found, and only by its own
      thread. */
  lemma StaleEntriesNeverHit(run: seq<Action>, action: Action, u: Tid)
    requires Run(START, run).Some? && (action.Init? || action.Reset?)
    requires Enabled(Run(START, run).value, action)
    ensures var s' := Apply(Run(START, run).value, action);
            && action.a in s'.arenas
            && Fast(s', u, action.a) == if action.initial != 0 && u == action.t then Some(action.initial) else None
  {
    EveryRun(run);
    var s := Run(START, run).value;
    hide Run, PhaseOk, CacheEntryOk, IdsOk, ListsOk, TagsOk, Initialize, Fast, WithoutList;
    if action.Init? {
      InitIsNew(s, action.t, action.a, action.owned, action.initial, u);
    } else {
      DestroyKeepsInv(s, action.a);
      ResetIsDestroyThenInit(s, action.t, action.a, action.initial);
      InitIsNew(Destroyed(s, action.a), action.t, action.a, s.arenas[action.a].tagAndId % 2 == 1, action.initial, u);
    }
  }

  // ---------------------------------------------------------------- lifecycle ids

  /** The lifecycle ids Init hands out along a run, in order. */
  function Taken(s: State, run: seq<Action>): seq<nat>
    decreases |run|
  {
    if run == [] || !Enabled(s, run[0]) then []
    else
      var rest := Taken(Apply(s, run[0]), run[1..]);
      if run[0].Init? || run[0].Reset? then [TakenId(s.counter, CacheOf(s, run[0].t))] + rest else rest
  }

  lemma StepIssues(s: State, action: Action)
    requires Enabled(s, action)
    ensures Apply(s, action).issued ==
            if action.Init? || action.Reset? then s.issued + {TakenId(s.counter, CacheOf(s, action.t))} else s.issued
  {
    hide WithoutList, IdAvailable, TakenId;
  }

  lemma {:induction false} TakenAreNew(s: State, run: seq<Action>)
    requires Inv(s)
    ensures forall i :: 0 <= i < |Taken(s, run)| ==> Taken(s, run)[i] !in s.issued && Taken(s, run)[i] % ID_STEP == 0
    ensures forall i, j :: 0 <= i < j < |Taken(s, run)| ==> Taken(s, run)[i] != Taken(s, run)[j]
    decreases |run|
  {
    if run != [] && Enabled(s, run[0]) {
      StepKeepsInv(s, run[0]);
      assert IdsOk(s);
      hide Inv, Enabled, Apply, IdsOk;
      StepIssues(s, run[0]);
      TakenAreNew(Apply(s, run[0]), run[1..]);
      if run[0].Init? || run[0].Reset? {
        TakenIdIsNew(s, run[0].t);
      }
    }
  }

  /** Ids handed out to any threads in any order are even and pairwise distinct. */
  lemma IdsAreDistinct(run: seq<Action>)
    ensures forall i :: 0 <= i < |Taken(START, run)| ==> Taken(START, run)[i] % ID_STEP == 0
    ensures forall i, j :: 0 <= i < j < |Taken(START, run)| ==> Taken(START, run)[i] != Taken(START, run)[j]
  {
    assert Inv(START);
    hide Inv;
    TakenAreNew(START, run);
  }

  /** The one id whose tag looks like a fresh thread cache is the last of all, on an arena a message owns. */
  lemma TagIsNeverSeenExactly(id: nat, owned: bool)
    requires id % ID_STEP == 0 && id < SIZE_RANGE
    ensures Tagged(id, owned) == NEVER_SEEN <==> owned && id == SIZE_RANGE - ID_STEP
  {
  }

  /** Such a tag makes the fast path of a thread that has never seen any arena return null. */
  lemma LastIdHitsFreshCache(s: State, t: Tid, a: ArenaId)
    requires a in s.arenas && CacheOf(s, t) == FRESH_CACHE && s.arenas[a].tagAndId % 2 == 1
    ensures IdOf(s.arenas[a].tagAndId) == SIZE_RANGE - ID_STEP ==> Fast(s, t, a) == Some(0)
    ensures IdOf(s.arenas[a].tagAndId) != SIZE_RANGE - ID_STEP ==> Fast(s, t, a) != Some(0)
  {
  }

  // ---------------------------------------------------------------- the lock-free list

  /** Nothing in the run initializes, resets or destroys this arena. */
  predicate Lives(run: seq<Action>, a: ArenaId) {
    forall action :: action in run ==> !((action.Init? || action.Reset? || action.Destroy?) && action.a == a)
  }

  lemma OtherArenaKeepsList(s: State, action: Action, a: ArenaId)
    requires Enabled(s, action) && !InFallback(action) && a in s.lists
    requires !((action.Init? || action.Reset? || action.Destroy?) && action.a == a)
    ensures a in Apply(s, action).lists && Apply(s, action).lists[a] == s.lists[a]
  {
    hide WithoutList, IdAvailable, TakenId;
  }

  /** However pushes interleave and fail, the list of an arena only grows at its front: no node pushed is ever lost, and
      older nodes keep their order. */
  lemma {:induction false} NoPushIsLost(s: State, run: seq<Action>, a: ArenaId)
    requires Inv(s) && Run(s, run).Some? && a in s.lists && Lives(run, a)
    ensures a in Run(s, run).value.lists && IsSuffix(s.lists[a], Run(s, run).value.lists[a])
    decreases |run|
  {
    if run != [] {
      StepKeepsInv(s, run[0]);
      var s' := Apply(s, run[0]);
      assert run[0] in run;
      hide Inv, Enabled, Apply;
      if InFallback(run[0]) {
        StepGrows(s, run[0]);
      } else {
        OtherArenaKeepsList(s, run[0], a);
      }
      NoPushIsLost(s', run[1..], a);
      SuffixTransitive(s.lists[a], s'.lists[a], Run(s', run[1..]).value.lists[a]);
    }
  }

  /** So the SerialArena of the initial block stays the last of the list: its oldest block is the one Free returns. */
  lemma InitialStaysLast(s: State, run: seq<Action>, a: ArenaId)
    requires Inv(s) && Run(s, run).Some? && a in s.lists && s.lists[a] != [] && Lives(run, a)
    ensures var list := Run(s, run).value.lists;
            a in list && list[a] != [] && list[a][|list[a]| - 1] == s.lists[a][|s.lists[a]| - 1]
  {
    hide Inv;
    NoPushIsLost(s, run, a);
    var before, now := s.lists[a], Run(s, run).value.lists[a];
    assert now[|now| - |before|..][|before| - 1] == before[|before| - 1];
  }

  /** In every run the list of an arena is a null-ended chain of distinct nodes, no two of one thread. */
  lemma OneNodePerThread(run: seq<Action>, a: ArenaId)
    requires Run(START, run).Some? && a in Run(START, run).value.arenas
    ensures var s := Run(START, run).value;
            && a in s.lists && Linked(s.nodes, s.arenas[a].head, s.lists[a])
            && (forall i :: 0 <= i < |s.lists[a]| ==> s.lists[a][i] in s.nodes)
            && (forall i, j :: 0 <= i < j < |s.lists[a]| ==>
                  s.lists[a][i] != s.lists[a][j] && s.nodes[s.lists[a][i]].owner != s.nodes[s.lists[a][j]].owner)
  {
    EveryRun(run);
    InvList(Run(START, run).value, a);
    hide Inv, Run;
  }

  /** Nodes pushed since s, with nothing lost. */
  lemma PushedSince(s: State, run: seq<Action>, a: ArenaId)
    requires Inv(s) && Run(s, run).Some? && a in s.lists && a in s.arenas && Lives(run, a)
    ensures var s1 := Run(s, run).value;
            && a in s1.lists && a in s1.arenas && Inv(s1) && IsSuffix(s.lists[a], s1.lists[a])
            && (s1.arenas[a].head == s.arenas[a].head <==> s1.lists[a] == s.lists[a])
  {
    NoPushIsLost(s, run, a);
    RunKeepsInv(s, run);
    var s1 := Run(s, run).value;
    InvLists(s);
    InvLists(s1);
    InvList(s, a);
    InvList(s1, a);
    hide Inv, Run, Lives, IsSuffix, ListOk, ListsOk;
    HeadTellsList(s, s1, a);
  }

  /** The head of a list is its first node, and a node that was pushed later is none of the older ones: a head that is
      the same again means that the list is the same. */
  lemma HeadTellsList(s: State, s1: State, a: ArenaId)
    requires a in s.lists && a in s.arenas && ListOk(s, a) && a in s1.lists && a in s1.arenas && ListOk(s1, a)
    requires IsSuffix(s.lists[a], s1.lists[a])
    ensures s1.arenas[a].head == s.arenas[a].head <==> s1.lists[a] == s.lists[a]
  {
    var before, now := s.lists[a], s1.lists[a];
    if |now| == |before| {
      assert now[0..] == now;
    } else if before != [] {
      var d := |now| - |before|;
      assert now[d..][0] == now[d] == before[0] && s1.nodes[now[0]].owner != s1.nodes[now[d]].owner;
    }
  }

  /** From any earlier state s whose head is the one thread t is about to compare with, such as the one in which t read
      it: the compare-and-swap fails, other than by chance, if and only if some other thread has pushed a node in
      between. A head that comes back after other pushes cannot occur. So whenever one thread has to try again, another
      has succeeded. */
  lemma SwapFailsExactly(s: State, run: seq<Action>, t: Tid, chance: bool)
    requires Inv(s) && Run(s, run).Some? && Enabled(Run(s, run).value, Swap(t, chance))
    requires var p := PhaseOf(Run(s, run).value, t);
             p.arena in s.lists && p.arena in s.arenas && s.arenas[p.arena].head == p.expected && Lives(run, p.arena)
    ensures var s1 := Run(s, run).value;
            var a, s2 := PhaseOf(s1, t).arena, Apply(s1, Swap(t, chance));
            && a in s1.lists && a in s2.lists && IsSuffix(s.lists[a], s1.lists[a])
            && (s2.lists[a] == s1.lists[a] <==> chance || |s1.lists[a]| > |s.lists[a]|)
            && (s2.lists[a] != s1.lists[a] ==> s2.lists[a] == [PhaseOf(s1, t).node] + s.lists[a])
            && (forall x :: x in s1.lists[a] && x !in s.lists[a] ==> x in s1.nodes && s1.nodes[x].owner != t)
  {
    var s1 := Run(s, run).value;
    PushedSince(s, run, PhaseOf(s1, t).arena);
    hide Inv, Run, Lives;
    SwapNow(s1, t, chance);
  }

  /** The step itself, by a thread that has no node on the list. */
  lemma SwapNow(s: State, t: Tid, chance: bool)
    requires Inv(s) && Enabled(s, Swap(t, chance))
    ensures var p, s' := PhaseOf(s, t), Apply(s, Swap(t, chance));
            && p.arena in s'.lists
            && (s'.lists[p.arena] == s.lists[p.arena] <==> chance || s.arenas[p.arena].head != p.expected)
            && (s'.lists[p.arena] != s.lists[p.arena] ==> s'.lists[p.arena] == [p.node] + s.lists[p.arena])
            && (forall x :: x in s.lists[p.arena] ==> x in s.nodes && s.nodes[x].owner != t)
  {
    var p := PhaseOf(s, t);
    InvAt(s, t);
    hide Inv;
    assert |[p.node] + s.lists[p.arena]| == |s.lists[p.arena]| + 1;
    assert OwnsNone(s, p.arena, t) && ListOk(s, p.arena);
    hide PhaseOk, CacheEntryOk, Apply, Enabled;
    forall x | x in s.lists[p.arena] ensures x in s.nodes && s.nodes[x].owner != t {
      assert !OnList(s, p.arena, x, t);
    }
    SwapIs(s, t, chance);
  }

  lemma SwapIs(s: State, t: Tid, chance: bool)
    requires Enabled(s, Swap(t, chance))
    ensures var p, s' := PhaseOf(s, t), Apply(s, Swap(t, chance));
            s'.lists == if chance || s.arenas[p.arena].head != p.expected then s.lists
                        else s.lists[p.arena := [p.node] + s.lists[p.arena]]
  {
  }
}
