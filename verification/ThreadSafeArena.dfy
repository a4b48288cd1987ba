/**
 ThreadSafeArena: lifecycle ids handed out in per-thread batches, the push-only list of per-thread SerialArenas, and the
 two caches in front of it. Any number of threads run the fallback path on any number of arenas, one atomic access at a
 time; Init, Reset and destruction of an arena happen only while no thread is at work on it, as the arena demands.
 Addresses are reused: a SerialArena may be built where a freed one was.
 */
module ThreadSafeArena {
  import opened Wrappers
  import opened ArenaArithmetic

  type Tid = nat       // the address of the thread's ThreadCache
  type ArenaId = nat   // the address of a ThreadSafeArena
  type Addr = nat      // the address of a SerialArena; 0 is null

  const ID_STEP := 2
  const ID_BATCHES := SIZE_RANGE / 512
  const NEVER_SEEN := SIZE_RANGE - 1

  datatype ThreadCache = ThreadCache(nextId: nat, lastId: nat, lastSerial: Addr)

  const FRESH_CACHE := ThreadCache(0, NEVER_SEEN, 0)

  /** What the list needs of a SerialArena. */
  datatype Node = Node(owner: Tid, next: Addr)

  datatype Arena = Arena(tagAndId: nat, head: Addr, hint: Addr)

  /** What a thread is about to do in GetSerialArenaFallback. at is the node its search has reached, and the history
      variable rest is the part of the list from there on. */
  datatype Phase =
    | Ready
    | Walking(arena: ArenaId, at: Addr, rest: seq<Addr>)
    | Loading(arena: ArenaId, node: Addr)                    // the new node exists; about to load the head
    | Linking(arena: ArenaId, node: Addr, expected: Addr)    // about to store expected into the node's next
    | Swapping(arena: ArenaId, node: Addr, expected: Addr)   // about to compare and swap the head
    | Caching(arena: ArenaId, node: Addr)                    // about to write the thread cache
    | Hinting(arena: ArenaId, node: Addr)                    // about to write the hint

  datatype State = State(
    counter: nat,                        // lifecycle_id_generator_
    caches: map<Tid, ThreadCache>,       // a thread not listed has a fresh cache
    arenas: map<ArenaId, Arena>,
    nodes: map<Addr, Node>,
    phases: map<Tid, Phase>,             // a thread not listed is ready
    lists: map<ArenaId, seq<Addr>>,      // history: the list of each arena, newest node first
    issued: set<nat>)                    // history: all lifecycle ids ever handed out

  const START := State(0, map[], map[], map[], map[], map[], {})

  function CacheOf(s: State, t: Tid): ThreadCache {
    if t in s.caches then s.caches[t] else FRESH_CACHE
  }

  function PhaseOf(s: State, t: Tid): Phase {
    if t in s.phases then s.phases[t] else Ready
  }

  function Move(s: State, t: Tid, p: Phase): State {
    s.(phases := s.phases[t := p])
  }

  // ---------------------------------------------------------------- lifecycle ids

  /** Ids come in batches of 512: 256 ids for one thread, in steps of 2. */
  function BatchOf(id: nat): nat {
    id / 512
  }

  function FirstId(batch: nat): nat {
    batch * 512
  }

  predicate AtBatchStart(id: nat) {
    id % 512 == 0
  }

  /** The id Init takes: the next of the thread's batch, or the first of a new one. */
  function TakenId(counter: nat, tc: ThreadCache): nat {
    if AtBatchStart(tc.nextId) then FirstId(counter) else tc.nextId
  }

  function CounterAfter(counter: nat, tc: ThreadCache): nat {
    if AtBatchStart(tc.nextId) then counter + 1 else counter
  }

  /** tag_and_id_: bit 0 says that a message owns the arena. */
  function Tagged(id: nat, owned: bool): nat {
    id + if owned then 1 else 0
  }

  function IdOf(tagAndId: nat): nat {
    tagAndId - tagAndId % 2
  }

  /** The 64-bit ids have not run out, and this one does not look like the initial value of a thread cache. */
  predicate IdAvailable(counter: nat, tc: ThreadCache, owned: bool) {
    && CounterAfter(counter, tc) <= ID_BATCHES
    && Tagged(TakenId(counter, tc), owned) != NEVER_SEEN
  }

  class IdGenerator {
    var id: nat
    constructor () ensures id == 0 { id := 0; }
  }

  class ThreadCacheObject {
    var nextLifecycleId: nat
    var lastLifecycleIdSeen: nat
    var lastSerialArena: Addr

    ghost function View(): ThreadCache
      reads this
    {
      ThreadCache(nextLifecycleId, lastLifecycleIdSeen, lastSerialArena)
    }

    constructor ()
      ensures View() == FRESH_CACHE
    {
      nextLifecycleId, lastLifecycleIdSeen, lastSerialArena := 0, NEVER_SEEN, 0;
    }

    /** The part of ThreadSafeArena::Init that takes a lifecycle id and keeps the ownership bit. */
    method TakeId(generator: IdGenerator, oldTagAndId: nat) returns (tagAndId: nat)
      modifies this`nextLifecycleId, generator
      ensures tagAndId == Tagged(TakenId(old(generator.id), old(View())), oldTagAndId % 2 == 1)
      ensures View() == old(View()).(nextId := TakenId(old(generator.id), old(View())) + ID_STEP)
      ensures generator.id == CounterAfter(old(generator.id), old(View()))
    {
      var id := nextLifecycleId;
      if AtBatchStart(id) {
        id := FirstId(generator.id);
        generator.id := generator.id + 1;
      }
      nextLifecycleId := id + ID_STEP;
      tagAndId := id + oldTagAndId % 2;
    }
  }

  // ---------------------------------------------------------------- the fast path

  /** What GetSerialArenaFast returns to thread t: the thread cache if it was filled from this life of the arena, else
      the hint if it is ours. */
  function FastOf(tc: ThreadCache, arena: Arena, nodes: map<Addr, Node>, t: Tid): Option<Addr> {
    if tc.lastId == arena.tagAndId then Some(tc.lastSerial)
    else if arena.hint != 0 && arena.hint in nodes && nodes[arena.hint].owner == t then Some(arena.hint)
    else None
  }

  function Fast(s: State, t: Tid, a: ArenaId): Option<Addr>
    requires a in s.arenas
  {
    FastOf(CacheOf(s, t), s.arenas[a], s.nodes, t)
  }

  /** The linear search: the first node of the list that belongs to the thread. */
  function Find(nodes: map<Addr, Node>, list: seq<Addr>, t: Tid): Option<Addr> {
    if list == [] then None
    else if list[0] in nodes && nodes[list[0]].owner == t then Some(list[0])
    else Find(nodes, list[1..], t)
  }

  /** The nodes from head on are this list, linked by their next fields and ended by null. */
  predicate Linked(nodes: map<Addr, Node>, head: Addr, list: seq<Addr>)
    decreases |list|
  {
    if list == [] then head == 0
    else head == list[0] && head != 0 && head in nodes && Linked(nodes, nodes[head].next, list[1..])
  }

  /** A ThreadSafeArena, with the SerialArenas of its list, as a thread sees it while no other interferes. */
  class ArenaObject {
    var tagAndId: nat
    var head: Addr               // threads_
    var hint: Addr
    var nodes: map<Addr, Node>

    ghost function View(): Arena
      reads this
    {
      Arena(tagAndId, head, hint)
    }

    method CacheSerialArena(tc: ThreadCacheObject, serial: Addr)
      modifies this`hint, tc`lastSerialArena, tc`lastLifecycleIdSeen
      ensures tc.View() == old(tc.View()).(lastId := tagAndId, lastSerial := serial)
      ensures View() == old(View()).(hint := serial)
    {
      tc.lastSerialArena := serial;
      tc.lastLifecycleIdSeen := tagAndId;
      hint := serial;
    }

    method GetSerialArenaFast(tc: ThreadCacheObject, me: Tid) returns (serial: Option<Addr>)
      requires hint == 0 || hint in nodes
      ensures serial == FastOf(tc.View(), View(), nodes, me)
    {
      if tc.lastLifecycleIdSeen == tagAndId {
        return Some(tc.lastSerialArena);
      }
      if hint != 0 && nodes[hint].owner == me {
        return Some(hint);
      }
      return None;
    }

    /** The search loop of GetSerialArenaFallback over the linked nodes; 0 when it runs off the list. */
    method SearchList(ghost list: seq<Addr>, me: Tid) returns (serial: Addr)
      requires Linked(nodes, head, list)
      ensures Find(nodes, list, me) == if serial == 0 then None else Some(serial)
      ensures serial != 0 ==> serial in list && serial in nodes && nodes[serial].owner == me
    {
      serial := head;
      ghost var rest := list;
      while serial != 0
        invariant Linked(nodes, serial, rest)
        invariant Find(nodes, list, me) == Find(nodes, rest, me)
        invariant forall x :: x in rest ==> x in list
        decreases |rest|
      {
        if nodes[serial].owner == me {
          return;
        }
        serial := nodes[serial].next;
        rest := rest[1..];
      }
    }

    /** The push loop: the compare-and-swap may fail by chance any number of times. */
    method PushNode(serial: Addr, me: Tid, chanceFailures: nat, ghost list: seq<Addr>)
      requires Linked(nodes, head, list) && serial != 0 && serial !in nodes
      modifies this`head, this`nodes
      ensures Linked(nodes, head, [serial] + list)
      ensures nodes == old(nodes)[serial := Node(me, old(head))] && head == serial
    {
      nodes := nodes[serial := Node(me, 0)];
      var expected := head;
      var failures := chanceFailures;
      while true
        invariant head == old(head) == expected && serial in nodes
        invariant nodes == old(nodes)[serial := nodes[serial]] && nodes[serial].owner == me
        decreases failures
      {
        nodes := nodes[serial := nodes[serial].(next := expected)];
        if failures == 0 {
          head := serial;
          break;
        }
        expected := head;
        failures := failures - 1;
      }
      NotOnList(old(nodes), old(head), list, serial);
      LinkedFrame(old(nodes), nodes, old(head), list);
      assert ([serial] + list)[1..] == list;
    }

    /** GetSerialArenaFallback: the thread's own SerialArena, found or made and pushed in front of the list. */
    method GetSerialArenaFallback(tc: ThreadCacheObject, me: Tid, made: Addr, chanceFailures: nat,
                                  ghost list: seq<Addr>)
      returns (serial: Addr, ghost list': seq<Addr>)
      requires Linked(nodes, head, list) && made != 0 && made !in nodes
      modifies this`head, this`nodes, this`hint, tc`lastSerialArena, tc`lastLifecycleIdSeen
      ensures Linked(nodes, head, list')
      ensures match Find(old(nodes), list, me)
              case Some(x) => serial == x && list' == list && nodes == old(nodes)
              case None => serial == made && list' == [made] + list && nodes == old(nodes)[made := Node(me, old(head))]
      ensures Find(nodes, list', me) == Some(serial)
      ensures FastOf(tc.View(), View(), nodes, me) == Some(serial) && hint == serial && tagAndId == old(tagAndId)
      ensures tc.View() == old(tc.View()).(lastId := tagAndId, lastSerial := serial)
    {
      serial := SearchList(list, me);
      list' := list;
      if serial == 0 {
        serial := made;
        PushNode(serial, me, chanceFailures, list);
        list' := [made] + list;
      }
      CacheSerialArena(tc, serial);
    }
  }

  /** A node that does not exist is on no list. */
  lemma {:induction false} NotOnList(nodes: map<Addr, Node>, head: Addr, list: seq<Addr>, x: Addr)
    requires Linked(nodes, head, list) && x !in nodes
    ensures x !in list
    decreases |list|
  {
    if list != [] {
      NotOnList(nodes, nodes[head].next, list[1..], x);
      assert forall y :: y in list ==> y == list[0] || y in list[1..];
    }
  }

  // ---------------------------------------------------------------- the machine

  datatype Action =
    // a new arena; initial is the SerialArena in the user's block, or 0
    | Init(t: Tid, a: ArenaId, owned: bool, initial: Addr)
    | Reset(t: Tid, a: ArenaId, initial: Addr)
    | Destroy(a: ArenaId)
    // the thread ends and another one gets its ThreadCache address
    | Restart(t: Tid)
    | Begin(t: Tid, a: ArenaId)
    | Walk(t: Tid)
    | Create(t: Tid, node: Addr)
    | LoadHead(t: Tid)
    | Link(t: Tid)
    | Swap(t: Tid, spurious: bool)
    | Cache(t: Tid)
    | Hint(t: Tid)

  predicate AtWork(p: Phase, a: ArenaId) {
    !p.Ready? && p.arena == a
  }

  predicate Untouched(s: State, a: ArenaId) {
    forall t :: t in s.phases ==> !AtWork(s.phases[t], a)
  }

  predicate FreshAddr(s: State, node: Addr) {
    node != 0 && node !in s.nodes
  }

  function WithoutList(s: State, a: ArenaId): map<Addr, Node> {
    if a in s.lists then map x | x in s.nodes && x !in s.lists[a] :: s.nodes[x] else s.nodes
  }

  predicate Enabled(s: State, action: Action) {
    match action
    case Init(t, a, owned, initial) =>
      && PhaseOf(s, t).Ready? && a !in s.arenas && IdAvailable(s.counter, CacheOf(s, t), owned)
      && (initial == 0 || FreshAddr(s, initial))
    case Reset(t, a, initial) =>
      && PhaseOf(s, t).Ready? && a in s.arenas && Untouched(s, a)
      && IdAvailable(s.counter, CacheOf(s, t), s.arenas[a].tagAndId % 2 == 1)
      && (initial == 0 || (initial != 0 && initial !in WithoutList(s, a)))
    case Destroy(a) => a in s.arenas && Untouched(s, a)
    case Restart(t) => PhaseOf(s, t).Ready?
    case Begin(t, a) => PhaseOf(s, t).Ready? && a in s.arenas
    case Walk(t) => PhaseOf(s, t).Walking? && PhaseOf(s, t).at != 0 && PhaseOf(s, t).at in s.nodes
    case Create(t, node) => PhaseOf(s, t).Walking? && PhaseOf(s, t).at == 0 && FreshAddr(s, node)
    case LoadHead(t) => PhaseOf(s, t).Loading? && PhaseOf(s, t).arena in s.arenas
    case Link(t) => PhaseOf(s, t).Linking? && PhaseOf(s, t).node in s.nodes
    case Swap(t, _) => PhaseOf(s, t).Swapping? && PhaseOf(s, t).arena in s.arenas && PhaseOf(s, t).arena in s.lists
    case Cache(t) => PhaseOf(s, t).Caching? && PhaseOf(s, t).arena in s.arenas
    case Hint(t) => PhaseOf(s, t).Hinting? && PhaseOf(s, t).arena in s.arenas
  }

  /** Init by thread t of the arena at a, whose old nodes are gone already. */
  function Initialize(s: State, t: Tid, a: ArenaId, owned: bool, initial: Addr): State {
    var tc := CacheOf(s, t);
    var id := TakenId(s.counter, tc);
    var tag := Tagged(id, owned);
    s.(counter := CounterAfter(s.counter, tc), issued := s.issued + {id},
       caches := s.caches[t := if initial == 0 then tc.(nextId := id + ID_STEP)
           else ThreadCache(id + ID_STEP, tag, initial)],
       arenas := s.arenas[a := Arena(tag, initial, initial)],
       nodes := if initial == 0 then s.nodes else s.nodes[initial := Node(t, 0)],
       lists := s.lists[a := if initial == 0 then [] else [initial]])
  }

  function Apply(s: State, action: Action): State
    requires Enabled(s, action)
  {
    match action
    case Init(t, a, owned, initial) => Initialize(s, t, a, owned, initial)
    case Reset(t, a, initial) =>
      Initialize(s.(nodes := WithoutList(s, a)), t, a, s.arenas[a].tagAndId % 2 == 1, initial)
    case Destroy(a) => s.(nodes := WithoutList(s, a), arenas := s.arenas - {a}, lists := s.lists - {a})
    case Restart(t) => s.(caches := s.caches[t := FRESH_CACHE])
    case Begin(t, a) => Move(s, t, Walking(a, s.arenas[a].head, if a in s.lists then s.lists[a] else []))
    case Walk(t) =>
      var p := PhaseOf(s, t);
      if s.nodes[p.at].owner == t then Move(s, t, Caching(p.arena, p.at))
      else Move(s, t, Walking(p.arena, s.nodes[p.at].next, if p.rest == [] then [] else p.rest[1..]))
    case Create(t, node) => Move(s.(nodes := s.nodes[node := Node(t, 0)]), t, Loading(PhaseOf(s, t).arena, node))
    case LoadHead(t) =>
      var p := PhaseOf(s, t); Move(s, t, Linking(p.arena, p.node, s.arenas[p.arena].head))
    case Link(t) =>
      var p := PhaseOf(s, t);
      Move(s.(nodes := s.nodes[p.node := s.nodes[p.node].(next := p.expected)]), t,
          Swapping(p.arena, p.node, p.expected))
    case Swap(t, spurious) =>
      var p := PhaseOf(s, t);
      var arena := s.arenas[p.arena];
      if arena.head == p.expected && !spurious then
        Move(s.(arenas := s.arenas[p.arena := arena.(head := p.node)],
                lists := s.lists[p.arena := [p.node] + s.lists[p.arena]]),
             t, Caching(p.arena, p.node))
      else Move(s, t, Linking(p.arena, p.node, arena.head))
    case Cache(t) =>
      var p := PhaseOf(s, t);
      var tc := CacheOf(s, t).(lastId := s.arenas[p.arena].tagAndId, lastSerial := p.node);
      Move(s.(caches := s.caches[t := tc]), t, Hinting(p.arena, p.node))
    case Hint(t) =>
      var p := PhaseOf(s, t);
      Move(s.(arenas := s.arenas[p.arena := s.arenas[p.arena].(hint := p.node)]), t, Ready)
  }

  function Run(s: State, run: seq<Action>): Option<State>
    decreases |run|
  {
    if run == [] then Some(s)
    else if Enabled(s, run[0]) then Run(Apply(s, run[0]), run[1..])
    else None
  }

  // ---------------------------------------------------------------- the invariant

  /** A thread inside a batch owns it, and has not reached the ids it has still to hand out. */
  predicate SlotOk(s: State, t: Tid) {
    var next := CacheOf(s, t).nextId;
    && next % 2 == 0
    && (!AtBatchStart(next) ==>
          BatchOf(next) < s.counter && (forall id :: id in s.issued && BatchOf(id) == BatchOf(next) ==> id < next))
  }

  predicate InBatch(s: State, t: Tid) {
    !AtBatchStart(CacheOf(s, t).nextId)
  }

  ghost predicate IdsOk(s: State) {
    && s.counter <= ID_BATCHES
    && (forall t :: SlotOk(s, t))
    && (forall t, u :: t != u && InBatch(s, t) && InBatch(s, u) ==>
          BatchOf(CacheOf(s, t).nextId) != BatchOf(CacheOf(s, u).nextId))
    && (forall id :: id in s.issued ==> id % 2 == 0 && BatchOf(id) < s.counter)
  }

  /** Arenas alive have ids of their own, none of which looks like a fresh cache. */
  predicate TagsOk(s: State) {
    && (forall a :: a in s.arenas ==> IdOf(s.arenas[a].tagAndId) in s.issued && s.arenas[a].tagAndId != NEVER_SEEN)
    && (forall a, b :: a in s.arenas && b in s.arenas && a != b ==>
      IdOf(s.arenas[a].tagAndId) != IdOf(s.arenas[b].tagAndId))
  }

  /** x is on the list of a and belongs to t. */
  predicate OnList(s: State, a: ArenaId, x: Addr, t: Tid) {
    a in s.lists && x in s.lists[a] && x in s.nodes && s.nodes[x].owner == t
  }

  predicate CacheEntryOk(s: State, t: Tid) {
    var tc := CacheOf(s, t);
    && (tc.lastId == NEVER_SEEN || IdOf(tc.lastId) in s.issued)
    && (forall a :: a in s.arenas && s.arenas[a].tagAndId == tc.lastId ==> OnList(s, a, tc.lastSerial, t))
  }

  predicate ListOk(s: State, a: ArenaId)
    requires a in s.arenas && a in s.lists
  {
    var list := s.lists[a];
    && Linked(s.nodes, s.arenas[a].head, list)
    && (forall x :: x in list ==> x != 0 && x in s.nodes)
    && (forall i, j :: 0 <= i < j < |list| ==> s.nodes[list[i]].owner != s.nodes[list[j]].owner)
    && (s.arenas[a].hint == 0 || s.arenas[a].hint in list)
  }

  predicate ListsApart(s: State) {
    forall a, b, x :: a in s.lists && b in s.lists && x in s.lists[a] && x in s.lists[b] ==> a == b
  }

  predicate ListsOk(s: State) {
    && s.lists.Keys == s.arenas.Keys
    && (forall a :: a in s.arenas ==> ListOk(s, a))
    && ListsApart(s)
  }

  predicate OwnsNone(s: State, a: ArenaId, t: Tid)
    requires a in s.lists
  {
    forall x :: x in s.lists[a] ==> !OnList(s, a, x, t)
  }

  predicate Private(s: State, node: Addr, t: Tid) {
    && node != 0 && node in s.nodes && s.nodes[node].owner == t
    && (forall b :: b in s.lists ==> node !in s.lists[b])
  }

  predicate IsSuffix(rest: seq<Addr>, list: seq<Addr>) {
    |rest| <= |list| && list[|list| - |rest|..] == rest
  }

  predicate PhaseOk(s: State, t: Tid, p: Phase) {
    p.Ready? ||
    (&& p.arena in s.arenas && p.arena in s.lists
     && match p
        case Walking(a, at, rest) =>
          && IsSuffix(rest, s.lists[a]) && Linked(s.nodes, at, rest)
          && (forall x :: x in s.lists[a] && OnList(s, a, x, t) ==> x in rest)
        case Loading(a, node) => Private(s, node, t) && OwnsNone(s, a, t)
        case Linking(a, node, _) => Private(s, node, t) && OwnsNone(s, a, t)
        case Swapping(a, node, expected) => Private(s, node, t) && OwnsNone(s, a, t) && s.nodes[node].next == expected
        case Caching(a, node) => OnList(s, a, node, t)
        case Hinting(a, node) => OnList(s, a, node, t))
  }

  ghost predicate Inv(s: State) {
    && IdsOk(s)
    && TagsOk(s)
    && (forall t :: CacheEntryOk(s, t))
    && ListsOk(s)
    && (forall t :: PhaseOk(s, t, PhaseOf(s, t)))
  }

  lemma InvAt(s: State, t: Tid)
    requires Inv(s)
    ensures CacheEntryOk(s, t) && PhaseOk(s, t, PhaseOf(s, t)) && s.lists.Keys == s.arenas.Keys
    ensures PhaseOf(s, t).Ready? || ListOk(s, PhaseOf(s, t).arena)
  {
    hide IdsOk, TagsOk, CacheEntryOk, ListOk, ListsApart;
  }

  lemma InvList(s: State, a: ArenaId)
    requires Inv(s) && a in s.arenas
    ensures a in s.lists && ListOk(s, a)
  {
    hide IdsOk, TagsOk, CacheEntryOk, ListOk, ListsApart, PhaseOk;
  }

  lemma InvLists(s: State)
    requires Inv(s)
    ensures ListsOk(s)
  {
    hide IdsOk, TagsOk, CacheEntryOk, ListOk, ListsApart, PhaseOk;
  }

  // ---------------------------------------------------------------- facts about lists

  lemma {:induction false} LinkedFrame(nodes: map<Addr, Node>, nodes': map<Addr, Node>, head: Addr, list: seq<Addr>)
    requires Linked(nodes, head, list)
    requires forall x :: x in list && x in nodes ==> x in nodes' && nodes'[x] == nodes[x]
    ensures Linked(nodes', head, list)
    decreases |list|
  {
    if list != [] {
      LinkedFrame(nodes, nodes', nodes[head].next, list[1..]);
    }
  }

  /** The search finds exactly the one node of the thread. */
  lemma {:induction false} FindExactly(nodes: map<Addr, Node>, list: seq<Addr>, t: Tid, x: Addr)
    requires forall y :: y in list ==> y in nodes
    requires forall i, j :: 0 <= i < j < |list| ==> nodes[list[i]].owner != nodes[list[j]].owner
    requires x in list && nodes[x].owner == t
    ensures Find(nodes, list, t) == Some(x)
  {
    if list[0] != x {
      assert x in list[1..];
      var i :| 0 < i < |list| && list[i] == x;
      assert nodes[list[0]].owner != nodes[list[i]].owner;
      FindExactly(nodes, list[1..], t, x);
    }
  }

  lemma SuffixTransitive(a: seq<Addr>, b: seq<Addr>, c: seq<Addr>)
    requires IsSuffix(a, b) && IsSuffix(b, c)
    ensures IsSuffix(a, c)
  {
    assert c[|c| - |a|..] == c[|c| - |b|..][|b| - |a|..];
  }

  lemma SuffixContains(a: seq<Addr>, b: seq<Addr>)
    requires IsSuffix(a, b)
    ensures forall x :: x in a ==> x in b
  {
    forall x | x in a ensures x in b {
      var i :| 0 <= i < |a| && a[i] == x;
      assert b[|b| - |a|..][i] == b[|b| - |a| + i];
    }
  }

  // ---------------------------------------------------------------- steps of the fallback path

  predicate InFallback(action: Action) {
    !action.Init? && !action.Reset? && !action.Destroy? && !action.Restart?
  }

  /** Lists only get new nodes in front, and only private nodes of t. */
  ghost predicate GrowsLists(s: State, s': State, t: Tid) {
    && s'.lists.Keys == s.lists.Keys
    && (forall a :: a in s.lists ==> IsSuffix(s.lists[a], s'.lists[a]))
    && (forall a, x :: a in s.lists && x in s'.lists[a] && x !in s.lists[a] ==> Private(s, x, t))
  }

  /** Nodes stay, with their owners, and only private nodes of t are rewritten. */
  ghost predicate GrowsNodes(s: State, s': State, t: Tid) {
    forall x :: x in s.nodes ==>
      x in s'.nodes && s'.nodes[x].owner == s.nodes[x].owner && (s'.nodes[x] == s.nodes[x] || Private(s, x, t))
  }

  ghost predicate GrowsRest(s: State, s': State, t: Tid) {
    && s'.counter == s.counter && s'.issued == s.issued
    && s'.arenas.Keys == s.arenas.Keys
    && (forall a :: a in s.arenas ==> s'.arenas[a].tagAndId == s.arenas[a].tagAndId)
    && (forall u :: u != t ==> PhaseOf(s', u) == PhaseOf(s, u) && CacheOf(s', u) == CacheOf(s, u))
    && CacheOf(s', t).nextId == CacheOf(s, t).nextId
  }

  /** What a step of thread t on the fallback path leaves as it was. */
  ghost predicate Grows(s: State, s': State, t: Tid) {
    GrowsLists(s, s', t) && GrowsNodes(s, s', t) && GrowsRest(s, s', t)
  }

  lemma StepGrowsRest(s: State, action: Action)
    requires Enabled(s, action) && InFallback(action)
    ensures GrowsRest(s, Apply(s, action), action.t)
  {
  }

  lemma StepGrowsNodes(s: State, action: Action)
    requires Enabled(s, action) && InFallback(action)
    requires PhaseOk(s, action.t, PhaseOf(s, action.t))
    ensures GrowsNodes(s, Apply(s, action), action.t)
  {
    hide IsSuffix, Linked, OwnsNone;
    var s' := Apply(s, action);
    assert !action.Create? && !action.Link? ==> s'.nodes == s.nodes;
    assert action.Create? ==> forall x :: x in s.nodes ==> s'.nodes[x] == s.nodes[x];
    assert action.Link? ==> Private(s, PhaseOf(s, action.t).node, action.t);
    hide Private;
  }

  lemma StepGrowsLists(s: State, action: Action)
    requires Enabled(s, action) && InFallback(action)
    requires PhaseOk(s, action.t, PhaseOf(s, action.t))
    ensures GrowsLists(s, Apply(s, action), action.t)
  {
    hide Linked, OwnsNone;
    var p, s' := PhaseOf(s, action.t), Apply(s, action);
    if s'.lists != s.lists {
      assert action.Swap? && Private(s, p.node, action.t);
      hide Private;
      assert s'.lists[p.arena] == [p.node] + s.lists[p.arena];
      assert ([p.node] + s.lists[p.arena])[1..] == s.lists[p.arena];
    }
  }

  lemma StepGrows(s: State, action: Action)
    requires Inv(s) && Enabled(s, action) && InFallback(action)
    ensures Grows(s, Apply(s, action), action.t)
  {
    assert PhaseOk(s, action.t, PhaseOf(s, action.t));
    hide Inv, PhaseOk, Apply, Enabled, GrowsLists, GrowsNodes, GrowsRest;
    StepGrowsRest(s, action);
    StepGrowsNodes(s, action);
    StepGrowsLists(s, action);
  }

  lemma GrowsKeepsIds(s: State, s': State, t: Tid)
    requires IdsOk(s) && Grows(s, s', t)
    ensures IdsOk(s')
  {
    assert forall u :: CacheOf(s', u).nextId == CacheOf(s, u).nextId;
    forall u ensures SlotOk(s', u) { assert SlotOk(s, u); }
    assert forall u :: InBatch(s', u) == InBatch(s, u);
  }

  /** Who is on which list only grows, and only by nodes of t. */
  lemma GrowsOnList(s: State, s': State, t: Tid, a: ArenaId, x: Addr, u: Tid)
    requires Grows(s, s', t)
    ensures OnList(s, a, x, u) ==> OnList(s', a, x, u)
    ensures u != t && OnList(s', a, x, u) && a in s.lists ==> OnList(s, a, x, u) || (x in s.lists[a] && x !in s.nodes)
  {
    if a in s.lists {
      SuffixContains(s.lists[a], s'.lists[a]);
      assert x in s'.lists[a] && x !in s.lists[a] ==> Private(s, x, t);
    }
  }

  lemma GrowsKeepsCacheEntry(s: State, s': State, t: Tid, u: Tid)
    requires CacheEntryOk(s, u) && Grows(s, s', t) && CacheOf(s', u) == CacheOf(s, u)
    ensures CacheEntryOk(s', u)
  {
    forall a | a in s'.arenas && s'.arenas[a].tagAndId == CacheOf(s', u).lastId
      ensures OnList(s', a, CacheOf(s', u).lastSerial, u)
    {
      GrowsOnList(s, s', t, a, CacheOf(s', u).lastSerial, u);
    }
  }

  lemma OtherOwnsNone(s: State, s': State, t: Tid, u: Tid, a: ArenaId)
    requires Grows(s, s', t) && u != t && a in s.lists && OwnsNone(s, a, u)
    requires forall x :: x in s.lists[a] ==> x in s.nodes
    ensures OwnsNone(s', a, u)
  {
    forall x | x in s'.lists[a] ensures !OnList(s', a, x, u) {
      GrowsOnList(s, s', t, a, x, u);
    }
  }

  lemma OtherPrivate(s: State, s': State, t: Tid, u: Tid, node: Addr)
    requires Grows(s, s', t) && u != t && Private(s, node, u)
    ensures Private(s', node, u) && s'.nodes[node] == s.nodes[node]
  {
    assert !Private(s, node, t);
    assert forall b :: b in s.lists && node in s'.lists[b] && node !in s.lists[b] ==> Private(s, node, t);
  }

  lemma OtherWalking(s: State, s': State, t: Tid, u: Tid, p: Phase)
    requires Grows(s, s', t) && u != t && p.Walking? && PhaseOk(s, u, p) && ListOk(s, p.arena)
    ensures PhaseOk(s', u, p)
  {
    SuffixTransitive(p.rest, s.lists[p.arena], s'.lists[p.arena]);
    SuffixContains(p.rest, s.lists[p.arena]);
    LinkedFrame(s.nodes, s'.nodes, p.at, p.rest);
    forall x | x in s'.lists[p.arena] && OnList(s', p.arena, x, u) ensures x in p.rest {
      GrowsOnList(s, s', t, p.arena, x, u);
    }
  }

  lemma OtherPhaseOk(s: State, s': State, t: Tid, u: Tid)
    requires Inv(s) && Grows(s, s', t) && u != t
    ensures PhaseOk(s', u, PhaseOf(s', u))
  {
    var p := PhaseOf(s, u);
    assert PhaseOk(s, u, p);
    if !p.Ready? {
      assert ListOk(s, p.arena);
      if p.Walking? {
        OtherWalking(s, s', t, u, p);
      } else if p.Caching? || p.Hinting? {
        GrowsOnList(s, s', t, p.arena, p.node, u);
      } else {
        OtherPrivate(s, s', t, u, p.node);
        OtherOwnsNone(s, s', t, u, p.arena);
      }
    }
  }

  lemma GrowsKeepsTags(s: State, s': State, t: Tid)
    requires TagsOk(s) && GrowsRest(s, s', t)
    ensures TagsOk(s')
  {
  }

  /** The list of an arena the step does not push to. */
  lemma SameListOk(s: State, s': State, t: Tid, a: ArenaId)
    requires a in s.arenas && a in s.lists && ListOk(s, a) && Grows(s, s', t)
    requires a in s'.arenas && a in s'.lists
    requires s'.lists[a] == s.lists[a] && s'.arenas[a].head == s.arenas[a].head
    requires s'.arenas[a].hint == s.arenas[a].hint || s'.arenas[a].hint in s.lists[a]
    ensures ListOk(s', a)
  {
    forall x | x in s.lists[a] ensures !Private(s, x, t) {}
    LinkedFrame(s.nodes, s'.nodes, s.arenas[a].head, s.lists[a]);
  }

  /** The step is a compare-and-swap that succeeds. */
  predicate Pushes(s: State, action: Action)
    requires Enabled(s, action)
  {
    action.Swap? && !action.spurious && s.arenas[PhaseOf(s, action.t).arena].head == PhaseOf(s, action.t).expected
  }

  /** A node with a new owner in front of a list. */
  lemma FrontListOk(s: State, s': State, t: Tid, a: ArenaId, node: Addr)
    requires a in s.arenas && a in s.lists && ListOk(s, a) && OwnsNone(s, a, t)
    requires node != 0 && node in s.nodes && s.nodes[node] == Node(t, s.arenas[a].head)
    requires s'.nodes == s.nodes && a in s'.arenas && s'.arenas[a] == s.arenas[a].(head := node)
    requires a in s'.lists && s'.lists[a] == [node] + s.lists[a]
    ensures ListOk(s', a)
  {
    var list := s.lists[a];
    assert s'.lists[a][1..] == list;
    forall x | x in list ensures s.nodes[x].owner != t {
      assert !OnList(s, a, x, t);
    }
  }

  /** The list a node has just been swapped onto. */
  lemma PushedListOk(s: State, action: Action)
    requires Inv(s) && Enabled(s, action) && Pushes(s, action)
    ensures var a := PhaseOf(s, action.t).arena;
            a in Apply(s, action).arenas && a in Apply(s, action).lists && ListOk(Apply(s, action), a)
  {
    var t, p, s' := action.t, PhaseOf(s, action.t), Apply(s, action);
    assert s'.lists == s.lists[p.arena := [p.node] + s.lists[p.arena]];
    assert s'.nodes == s.nodes && s'.arenas == s.arenas[p.arena := s.arenas[p.arena].(head := p.node)];
    assert s.arenas[p.arena].head == p.expected && p.Swapping?;
    hide Apply, Enabled;
    InvAt(s, t);
    hide Inv, CacheEntryOk, ListOk, OwnsNone, Linked, IsSuffix;
    FrontListOk(s, s', t, p.arena, p.node);
  }

  /** Lists change only by a successful swap, which puts a private node in front. */
  lemma ListsChange(s: State, action: Action)
    requires Enabled(s, action) && InFallback(action) && PhaseOk(s, action.t, PhaseOf(s, action.t))
    ensures var p, s' := PhaseOf(s, action.t), Apply(s, action);
            && (!Pushes(s, action) ==> s'.lists == s.lists)
            && (Pushes(s, action) ==> p.Swapping? && p.arena in s.lists && Private(s, p.node, action.t) &&
                                      s'.lists == s.lists[p.arena := [p.node] + s.lists[p.arena]])
  {
    hide Private, OwnsNone, Linked, IsSuffix;
  }

  /** Elsewhere a step changes at most a hint, and then to a node of the list. */
  lemma ArenaChange(s: State, action: Action, a: ArenaId)
    requires Enabled(s, action) && InFallback(action) && PhaseOk(s, action.t, PhaseOf(s, action.t)) && a in s.arenas &&
        a in s.lists
    ensures var s' := Apply(s, action);
            && a in s'.arenas
            && ((Pushes(s, action) && PhaseOf(s, action.t).arena == a) || s'.arenas[a].head == s.arenas[a].head)
            && (s'.arenas[a].hint == s.arenas[a].hint || s'.arenas[a].hint in s.lists[a])
  {
    hide Private, OwnsNone, Linked, IsSuffix;
  }

  lemma StepKeepsListOk(s: State, action: Action, a: ArenaId)
    requires Inv(s) && Enabled(s, action) && InFallback(action) && a in s.arenas
    ensures a in Apply(s, action).arenas && a in Apply(s, action).lists && ListOk(Apply(s, action), a)
  {
    hide Inv, PhaseOk, ListOk, CacheEntryOk, Grows, Apply, Enabled, Private;
    var t, p, s' := action.t, PhaseOf(s, action.t), Apply(s, action);
    StepGrows(s, action);
    InvAt(s, t);
    InvList(s, a);
    ListsChange(s, action);
    if Pushes(s, action) && a == p.arena {
      PushedListOk(s, action);
    } else {
      ArenaChange(s, action, a);
      SameListOk(s, s', t, a);
    }
  }

  lemma StepKeepsListsApart(s: State, action: Action)
    requires Inv(s) && Enabled(s, action) && InFallback(action)
    ensures var s' := Apply(s, action);
            && s'.lists.Keys == s'.arenas.Keys
            && ListsApart(s')
  {
    var t, p, s' := action.t, PhaseOf(s, action.t), Apply(s, action);
    assert ListsApart(s);
    InvAt(s, t);
    hide Inv, PhaseOk, CacheEntryOk, ListOk, Apply, Enabled;
    StepGrowsRest(s, action);
    ListsChange(s, action);
    if Pushes(s, action) {
      forall a, b, x | a in s'.lists && b in s'.lists && x in s'.lists[a] && x in s'.lists[b] ensures a == b {
        assert x == p.node || (x in s.lists[a] && x in s.lists[b]);
      }
    }
  }

  lemma StepKeepsLists(s: State, action: Action)
    requires Inv(s) && Enabled(s, action) && InFallback(action)
    ensures ListsOk(Apply(s, action))
  {
    var s' := Apply(s, action);
    StepKeepsListsApart(s, action);
    StepGrows(s, action);
    forall a | a in s'.arenas ensures ListOk(s', a) {
      StepKeepsListOk(s, action, a);
    }
  }

  /** Writing the thread cache: the only arena with this tag is the one whose list has the node. */
  lemma CacheStepIs(s: State, action: Action)
    requires Enabled(s, action) && action.Cache?
    ensures var t, p, s' := action.t, PhaseOf(s, action.t), Apply(s, action);
            && p.Caching? && p.arena in s.arenas
            && s'.arenas == s.arenas && s'.lists == s.lists && s'.nodes == s.nodes && s'.issued == s.issued
            && CacheOf(s', t).lastId == s.arenas[p.arena].tagAndId && CacheOf(s', t).lastSerial == p.node
  {
  }

  lemma CacheStepOk(s: State, action: Action)
    requires Inv(s) && Enabled(s, action) && action.Cache?
    ensures CacheEntryOk(Apply(s, action), action.t)
  {
    var t, p := action.t, PhaseOf(s, action.t);
    CacheStepIs(s, action);
    InvAt(s, t);
    assert TagsOk(s) && OnList(s, p.arena, p.node, t);
    hide Inv, PhaseOk, CacheEntryOk, Apply, Enabled, CacheOf;
    OnlyEntry(Apply(s, action), t, p.arena);
  }

  lemma OnlyEntry(s: State, t: Tid, a: ArenaId)
    requires TagsOk(s) && a in s.arenas && CacheOf(s, t).lastId == s.arenas[a].tagAndId &&
        OnList(s, a, CacheOf(s, t).lastSerial, t)
    ensures CacheEntryOk(s, t)
  {
  }

  lemma KeepsOwnCache(s: State, action: Action)
    requires Enabled(s, action) && InFallback(action) && !action.Cache?
    ensures CacheOf(Apply(s, action), action.t) == CacheOf(s, action.t)
  {
  }

  /** The thread's cache entry after its own step. */
  lemma ActorCacheOk(s: State, action: Action)
    requires Inv(s) && Enabled(s, action) && InFallback(action)
    ensures CacheEntryOk(Apply(s, action), action.t)
  {
    hide Inv, PhaseOk, Grows, Apply, Enabled, CacheEntryOk, ListOk;
    if action.Cache? {
      CacheStepOk(s, action);
    } else {
      StepGrows(s, action);
      InvAt(s, action.t);
      KeepsOwnCache(s, action);
      GrowsKeepsCacheEntry(s, Apply(s, action), action.t, action.t);
    }
  }

  /** The search takes one step along the list. */
  lemma WalkPhaseOk(s: State, action: Action)
    requires Inv(s) && Enabled(s, action) && action.Walk?
    ensures PhaseOk(Apply(s, action), action.t, PhaseOf(Apply(s, action), action.t))
  {
    var t, p, s' := action.t, PhaseOf(s, action.t), Apply(s, action);
    InvAt(s, t);
    hide Inv, CacheEntryOk, ListOk;
    var list := s.lists[p.arena];
    assert p.rest != [] && p.at == p.rest[0];
    if s.nodes[p.at].owner == t {
      SuffixContains(p.rest, list);
      assert OnList(s', p.arena, p.at, t);
      hide IsSuffix, Linked;
    } else {
      SuffixTail(p.rest, list);
      forall x | x in list && OnList(s', p.arena, x, t) ensures x in p.rest[1..] {
        assert OnList(s, p.arena, x, t) && x in p.rest;
      }
      hide IsSuffix, OnList;
    }
  }

  lemma SuffixTail(a: seq<Addr>, b: seq<Addr>)
    requires IsSuffix(a, b) && a != []
    ensures IsSuffix(a[1..], b)
    ensures forall x :: x in a && x != a[0] ==> x in a[1..]
  {
    assert b[|b| - |a[1..]|..] == a[1..];
  }

  /** The search has run off the list, so the thread has no node there and makes a new one. */
  lemma CreatePhaseOk(s: State, action: Action)
    requires Inv(s) && Enabled(s, action) && action.Create?
    ensures PhaseOk(Apply(s, action), action.t, PhaseOf(Apply(s, action), action.t))
  {
    var t, p, s' := action.t, PhaseOf(s, action.t), Apply(s, action);
    assert PhaseOk(s, t, p) && ListOk(s, p.arena);
    forall x | x in s.lists[p.arena] ensures !OnList(s', p.arena, x, t) {
      assert !OnList(s, p.arena, x, t);
    }
    forall b | b in s.lists ensures action.node !in s.lists[b] {
      assert ListOk(s, b);
    }
  }

  /** The thread points its node at the head it has read. */
  lemma LinkPhaseOk(s: State, action: Action)
    requires Inv(s) && Enabled(s, action) && action.Link?
    ensures PhaseOk(Apply(s, action), action.t, PhaseOf(Apply(s, action), action.t))
  {
    var t, p, s' := action.t, PhaseOf(s, action.t), Apply(s, action);
    InvAt(s, t);
    hide Inv, CacheEntryOk, ListOk, IsSuffix, Linked;
    assert s'.lists == s.lists && s'.arenas == s.arenas;
    forall x | x in s.lists[p.arena] ensures !OnList(s', p.arena, x, t) {
      assert !OnList(s, p.arena, x, t);
    }
  }

  /** A step that changes only the phase of t keeps its node private. */
  lemma StillPrivate(s: State, t: Tid, p: Phase, expected: Addr)
    requires PhaseOk(s, t, p) && (p.Loading? || p.Swapping?)
    ensures PhaseOk(Move(s, t, Linking(p.arena, p.node, expected)), t, Linking(p.arena, p.node, expected))
  {
    hide IsSuffix, Linked;
    var s' := Move(s, t, Linking(p.arena, p.node, expected));
    forall x | x in s.lists[p.arena] ensures !OnList(s', p.arena, x, t) {
      assert !OnList(s, p.arena, x, t);
    }
  }

  lemma PushesPhaseOk(s: State, action: Action)
    requires Inv(s) && Enabled(s, action) && Pushes(s, action)
    ensures PhaseOk(Apply(s, action), action.t, PhaseOf(Apply(s, action), action.t))
  {
    hide Inv, CacheEntryOk, ListOk, PhaseOk;
    var t, p, s' := action.t, PhaseOf(s, action.t), Apply(s, action);
    assert PhaseOf(s', t) == Caching(p.arena, p.node) && p.arena in s'.arenas && s'.nodes == s.nodes;
    InvAt(s, t);
    ListsChange(s, action);
    hide Apply, Enabled;
    OnListNow(s', t, p.arena, p.node);
  }

  lemma OnListNow(s: State, t: Tid, a: ArenaId, node: Addr)
    requires a in s.arenas && a in s.lists && s.lists[a] != [] && s.lists[a][0] == node
    requires node in s.nodes && s.nodes[node].owner == t
    ensures PhaseOk(s, t, Caching(a, node))
  {
  }

  /** The thread is on its way to push its node, or has just pushed it. */
  lemma PushingPhaseOk(s: State, action: Action)
    requires Inv(s) && Enabled(s, action) && (action.LoadHead? || action.Swap?)
    ensures PhaseOk(Apply(s, action), action.t, PhaseOf(Apply(s, action), action.t))
  {
    hide Inv, CacheEntryOk, ListOk, IsSuffix, Linked, PhaseOk;
    var t, p := action.t, PhaseOf(s, action.t);
    if Pushes(s, action) {
      PushesPhaseOk(s, action);
    } else {
      InvAt(s, t);
      StillPrivate(s, t, p, s.arenas[p.arena].head);
    }
  }

  lemma ActorPhaseOk(s: State, action: Action)
    requires Inv(s) && Enabled(s, action) && InFallback(action)
    ensures PhaseOk(Apply(s, action), action.t, PhaseOf(Apply(s, action), action.t))
  {
    var t, p, s' := action.t, PhaseOf(s, action.t), Apply(s, action);
    InvAt(s, t);
    hide Inv, CacheEntryOk, Private, OwnsNone;
    if action.Begin? {
      InvList(s, action.a);
    } else if action.Walk? {
      WalkPhaseOk(s, action);
    } else if action.Create? {
      CreatePhaseOk(s, action);
    } else if action.Link? {
      LinkPhaseOk(s, action);
    } else if action.LoadHead? || action.Swap? {
      PushingPhaseOk(s, action);
    } else {
      assert OnList(s', p.arena, p.node, t);
    }
  }

  lemma FallbackKeepsIdsAndTags(s: State, action: Action)
    requires Inv(s) && Enabled(s, action) && InFallback(action)
    ensures IdsOk(Apply(s, action)) && TagsOk(Apply(s, action))
  {
    StepGrows(s, action);
    assert IdsOk(s) && TagsOk(s) && GrowsRest(s, Apply(s, action), action.t);
    hide Inv, Apply, Enabled, Grows, GrowsRest, TagsOk, IdsOk;
    GrowsKeepsIds(s, Apply(s, action), action.t);
    GrowsKeepsTags(s, Apply(s, action), action.t);
  }

  lemma EveryCacheOk(s: State, action: Action, u: Tid)
    requires Inv(s) && Enabled(s, action) && InFallback(action)
    ensures CacheEntryOk(Apply(s, action), u)
  {
    StepGrows(s, action);
    hide Inv, Apply, Enabled, Grows, CacheEntryOk, CacheOf;
    if u == action.t {
      ActorCacheOk(s, action);
    } else {
      GrowsUnchangedCache(s, Apply(s, action), action.t, u);
      GrowsKeepsCacheEntry(s, Apply(s, action), action.t, u);
    }
  }

  lemma EveryPhaseOk(s: State, action: Action, u: Tid)
    requires Inv(s) && Enabled(s, action) && InFallback(action)
    ensures PhaseOk(Apply(s, action), u, PhaseOf(Apply(s, action), u))
  {
    StepGrows(s, action);
    hide Inv, Apply, Enabled, Grows, PhaseOk, PhaseOf;
    if u == action.t {
      ActorPhaseOk(s, action);
    } else {
      OtherPhaseOk(s, Apply(s, action), action.t, u);
    }
  }

  lemma FallbackKeepsInv(s: State, action: Action)
    requires Inv(s) && Enabled(s, action) && InFallback(action)
    ensures Inv(Apply(s, action))
  {
    FallbackKeepsIdsAndTags(s, action);
    StepKeepsLists(s, action);
    hide Apply, Enabled, ListsOk, TagsOk, IdsOk, PhaseOk, CacheEntryOk;
    forall u ensures CacheEntryOk(Apply(s, action), u) { EveryCacheOk(s, action, u); }
    forall u ensures PhaseOk(Apply(s, action), u, PhaseOf(Apply(s, action), u)) { EveryPhaseOk(s, action, u); }
  }

  lemma GrowsUnchangedCache(s: State, s': State, t: Tid, u: Tid)
    requires Inv(s) && Grows(s, s', t) && u != t
    ensures CacheOf(s', u) == CacheOf(s, u) && CacheEntryOk(s, u)
  {
  }
}
