/**
 When the fast path of a ThreadSafeArena hits: over every run, exactly if the last thing written to the thread's cache,
 or to the arena's hint, was written for this thread in the present life of the arena.
 */
module ArenaCaches {
  import opened Wrappers
  import opened ThreadSafeArena
  import opened ThreadSafeRuns

  // ---------------------------------------------------------------- who wrote last

  predicate EndsLife(action: Action, a: ArenaId) {
    (action.Init? || action.Reset? || action.Destroy?) && action.a == a
  }

  /** Init or Reset of the arena by thread t with a block of the user's. */
  predicate StartsLifeFor(action: Action, t: Tid, a: ArenaId) {
    (action.Init? || action.Reset?) && action.a == a && action.t == t && action.initial != 0
  }

  /** The action writes the cache of thread t. */
  predicate WritesCache(action: Action, t: Tid) {
    || ((action.Cache? || action.Restart?) && action.t == t)
    || ((action.Init? || action.Reset?) && action.t == t && action.initial != 0)
  }

  /** It writes it for arena a. */
  predicate FillsCache(s: State, action: Action, t: Tid, a: ArenaId)
    requires Enabled(s, action)
  {
    (action.Cache? && action.t == t && PhaseOf(s, t).arena == a) || StartsLifeFor(action, t, a)
  }

  /** Along the run, the last write to the cache of thread t is for arena a, and a's life goes on since; now says
      whether it is so before the run. */
  predicate CacheIsFor(s: State, run: seq<Action>, t: Tid, a: ArenaId, now: bool)
    decreases |run|
  {
    if run == [] || !Enabled(s, run[0]) then now
    else
      CacheIsFor(Apply(s, run[0]), run[1..], t, a,
                 FillsCache(s, run[0], t, a) || (!WritesCache(run[0], t) && !EndsLife(run[0], a) && now))
  }

  predicate WritesHint(s: State, action: Action, a: ArenaId)
    requires Enabled(s, action)
  {
    action.Hint? && PhaseOf(s, action.t).arena == a
  }

  /** Along the run, the last write to the hint of arena a in its present life is by thread t. */
  predicate HintIsOf(s: State, run: seq<Action>, t: Tid, a: ArenaId, now: bool)
    decreases |run|
  {
    if run == [] || !Enabled(s, run[0]) then now
    else
      HintIsOf(Apply(s, run[0]), run[1..], t, a,
               if EndsLife(run[0], a) then StartsLifeFor(run[0], t, a)
               else if WritesHint(s, run[0], a) then run[0].t == t
               else now)
  }

  // ---------------------------------------------------------------- what the caches say

  predicate CacheHits(s: State, t: Tid, a: ArenaId) {
    a in s.arenas && CacheOf(s, t).lastId == s.arenas[a].tagAndId
  }

  predicate HintHits(s: State, t: Tid, a: ArenaId) {
    && a in s.arenas && s.arenas[a].hint != 0
    && s.arenas[a].hint in s.nodes && s.nodes[s.arenas[a].hint].owner == t
  }

  lemma InitCache(s: State, t: Tid, a: ArenaId, owned: bool, initial: Addr, u: Tid, b: ArenaId)
    requires IdsOk(s) && TagsOk(s) && CacheEntryOk(s, u) && a !in s.arenas
    requires IdAvailable(s.counter, CacheOf(s, t), owned)
    ensures var s' := Initialize(s, t, a, owned, initial);
            CacheHits(s', u, b) <==>
            if u == t && initial != 0 then b == a else b != a && CacheHits(s, u, b)
  {
    TakenIdIsNew(s, t);
    hide IdsOk, TakenId, CounterAfter;
    TagsApart(TakenId(s.counter, CacheOf(s, t)), owned);
    hide Tagged, IdOf, OnList;
  }

  lemma InitHint(s: State, t: Tid, a: ArenaId, owned: bool, initial: Addr, u: Tid, b: ArenaId)
    requires ListsOk(s) && a !in s.arenas && (initial == 0 || FreshAddr(s, initial))
    ensures var s' := Initialize(s, t, a, owned, initial);
            HintHits(s', u, b) <==> if b == a then u == t && initial != 0 else HintHits(s, u, b)
  {
    hide TakenId, CounterAfter, Tagged, ListsApart, Linked;
    if b in s.arenas && b != a && s.arenas[b].hint != 0 {
      HintExists(s, b);
    }
  }

  lemma HintExists(s: State, b: ArenaId)
    requires ListsOk(s) && b in s.arenas && s.arenas[b].hint != 0
    ensures b in s.lists && s.arenas[b].hint in s.lists[b] && s.arenas[b].hint in s.nodes
  {
    assert ListOk(s, b);
  }

  lemma DestroyCaches(s: State, a: ArenaId, u: Tid, b: ArenaId)
    requires ListsOk(s) && a in s.arenas
    ensures CacheHits(Destroyed(s, a), u, b) <==> b != a && CacheHits(s, u, b)
    ensures HintHits(Destroyed(s, a), u, b) <==> b != a && HintHits(s, u, b)
  {
    hide ListOk;
    if b in s.arenas && b != a && s.arenas[b].hint != 0 {
      HintExists(s, b);
    }
  }

  lemma HintStepIs(s: State, action: Action, b: ArenaId)
    requires Enabled(s, action) && InFallback(action) && b in s.arenas
    ensures b in Apply(s, action).arenas
    ensures Apply(s, action).arenas[b].hint ==
            if WritesHint(s, action, b) then PhaseOf(s, action.t).node else s.arenas[b].hint
  {
  }

  lemma FallbackCache(s: State, action: Action, u: Tid, b: ArenaId)
    requires Inv(s) && Enabled(s, action) && InFallback(action)
    ensures CacheHits(Apply(s, action), u, b) <==>
            FillsCache(s, action, u, b) || (!WritesCache(action, u) && CacheHits(s, u, b))
  {
    StepGrowsRest(s, action);
    assert TagsOk(s);
    hide Inv, TagsOk;
    if action.Cache? {
      CacheStepIs(s, action);
      hide Apply, Enabled;
      if b in s.arenas && b != PhaseOf(s, action.t).arena {
        TagsDiffer(s, b, PhaseOf(s, action.t).arena);
      }
    } else if u == action.t {
      KeepsOwnCache(s, action);
    }
    hide Apply, Enabled;
  }

  lemma TagsDiffer(s: State, a: ArenaId, b: ArenaId)
    requires TagsOk(s) && a in s.arenas && b in s.arenas && a != b
    ensures s.arenas[a].tagAndId != s.arenas[b].tagAndId
  {
    assert IdOf(s.arenas[a].tagAndId) != IdOf(s.arenas[b].tagAndId);
  }

  lemma FallbackHint(s: State, action: Action, u: Tid, b: ArenaId)
    requires Inv(s) && Enabled(s, action) && InFallback(action)
    ensures HintHits(Apply(s, action), u, b) <==>
            if WritesHint(s, action, b) then action.t == u else HintHits(s, u, b)
  {
    StepGrows(s, action);
    assert GrowsNodes(s, Apply(s, action), action.t) && GrowsRest(s, Apply(s, action), action.t);
    InvLists(s);
    if b in s.arenas {
      HintStepIs(s, action, b);
      if WritesHint(s, action, b) {
        HintedNode(s, action.t);
      } else if s.arenas[b].hint != 0 {
        HintExists(s, b);
      }
    }
    hide Inv, Apply, Enabled, ListsOk, Private, Grows, CacheOf, PhaseOf;
  }

  lemma HintedNode(s: State, t: Tid)
    requires Inv(s) && PhaseOf(s, t).Hinting?
    ensures var x := PhaseOf(s, t).node; x != 0 && x in s.nodes && s.nodes[x].owner == t
  {
    InvAt(s, t);
    InvLists(s);
    assert ListOk(s, PhaseOf(s, t).arena) && OnList(s, PhaseOf(s, t).arena, PhaseOf(s, t).node, t);
    hide Inv, ListsOk, CacheEntryOk, PhaseOk;
  }

  lemma StepCaches(s: State, action: Action, u: Tid, b: ArenaId)
    requires Inv(s) && Enabled(s, action)
    ensures CacheHits(Apply(s, action), u, b) <==>
            FillsCache(s, action, u, b) || (!WritesCache(action, u) && !EndsLife(action, b) && CacheHits(s, u, b))
    ensures HintHits(Apply(s, action), u, b) <==>
            if EndsLife(action, b) then StartsLifeFor(action, u, b)
            else if WritesHint(s, action, b) then action.t == u
            else HintHits(s, u, b)
  {
    hide Inv, CacheHits, HintHits, Apply, Enabled;
    if InFallback(action) {
      FallbackCache(s, action, u, b);
      FallbackHint(s, action, u, b);
    } else {
      hide PhaseOf;
      if action.Init? {
        InitCaches(s, action, u, b);
      } else if action.Reset? {
        ResetCaches(s, action.t, action.a, action.initial, u, b);
      } else if action.Destroy? {
        DestroyActionIs(s, action);
        InvLists(s);
        DestroyCaches(s, action.a, u, b);
      } else {
        RestartCaches(s, action.t, u, b);
      }
    }
  }

  lemma DestroyActionIs(s: State, action: Action)
    requires Enabled(s, action) && action.Destroy?
    ensures action.a in s.arenas && Apply(s, action) == Destroyed(s, action.a)
  {
    hide WithoutList;
  }

  lemma InitCaches(s: State, action: Action, u: Tid, b: ArenaId)
    requires Inv(s) && Enabled(s, action) && action.Init?
    ensures var s', t, a := Apply(s, action), action.t, action.a;
            && (CacheHits(s', u, b) <==> if u == t && action.initial != 0 then b == a else b != a && CacheHits(s, u, b))
            && (HintHits(s', u, b) <==> if b == a then u == t && action.initial != 0 else HintHits(s, u, b))
  {
    InvAt(s, u);
    InvLists(s);
    hide CacheHits, HintHits, PhaseOk, ListsOk, IdsOk, TagsOk, CacheEntryOk, Initialize;
    InitCache(s, action.t, action.a, action.owned, action.initial, u, b);
    InitHint(s, action.t, action.a, action.owned, action.initial, u, b);
  }

  lemma ResetCaches(s: State, t: Tid, a: ArenaId, initial: Addr, u: Tid, b: ArenaId)
    requires Inv(s) && Enabled(s, Reset(t, a, initial))
    ensures var s' := Apply(s, Reset(t, a, initial));
            && (CacheHits(s', u, b) <==> if u == t && initial != 0 then b == a else b != a && CacheHits(s, u, b))
            && (HintHits(s', u, b) <==> if b == a then u == t && initial != 0 else HintHits(s, u, b))
  {
    var owned := s.arenas[a].tagAndId % 2 == 1;
    InvLists(s);
    DestroyKeepsInv(s, a);
    InvAt(Destroyed(s, a), u);
    InvLists(Destroyed(s, a));
    ResetIsDestroyThenInit(s, t, a, initial);
    assert IdsOk(Destroyed(s, a)) && TagsOk(Destroyed(s, a));
    assert initial == 0 || FreshAddr(Destroyed(s, a), initial);
    hide Inv, CacheHits, HintHits, PhaseOk, ListsOk, IdsOk, TagsOk, CacheEntryOk, Initialize, WithoutList;
    DestroyCaches(s, a, u, b);
    InitCache(Destroyed(s, a), t, a, owned, initial, u, b);
    InitHint(Destroyed(s, a), t, a, owned, initial, u, b);
  }

  lemma RestartCaches(s: State, t: Tid, u: Tid, b: ArenaId)
    requires Inv(s) && Enabled(s, Restart(t))
    ensures var s' := Apply(s, Restart(t));
            && (CacheHits(s', u, b) <==> u != t && CacheHits(s, u, b))
            && (HintHits(s', u, b) <==> HintHits(s, u, b))
  {
  }

  // ---------------------------------------------------------------- every run

  lemma {:induction false} RunCaches(s: State, run: seq<Action>, t: Tid, a: ArenaId)
    requires Inv(s) && Run(s, run).Some?
    ensures var end := Run(s, run).value;
            && (CacheHits(end, t, a) <==> CacheIsFor(s, run, t, a, CacheHits(s, t, a)))
            && (HintHits(end, t, a) <==> HintIsOf(s, run, t, a, HintHits(s, t, a)))
    decreases |run|
  {
    hide Inv, CacheHits, HintHits, Enabled, Apply, FillsCache, WritesCache, WritesHint, EndsLife, StartsLifeFor;
    if run != [] {
      StepCaches(s, run[0], t, a);
      StepKeepsInv(s, run[0]);
      RunCaches(Apply(s, run[0]), run[1..], t, a);
    }
  }

  /** In every run the fast path hits if and only if the last write to the thread's cache was for the present life of
      the arena, or the last write to the hint in that life was by the thread. */
  lemma FastHitsExactly(run: seq<Action>, t: Tid, a: ArenaId)
    requires Run(START, run).Some? && a in Run(START, run).value.arenas
    ensures Fast(Run(START, run).value, t, a).Some? <==>
            CacheIsFor(START, run, t, a, false) || HintIsOf(START, run, t, a, false)
  {
    assert Inv(START);
    hide Inv;
    RunCaches(START, run, t, a);
    hide Run, CacheIsFor, HintIsOf;
  }

  /** A thread about to write the hint has the fast path through its own cache already. */
  predicate CachedFirst(s: State, t: Tid) {
    PhaseOf(s, t).Hinting? ==> CacheHits(s, t, PhaseOf(s, t).arena)
  }

  /** A thread comes to write the hint by writing its cache, and by nothing else. */
  lemma HintingFrom(s: State, action: Action, t: Tid)
    requires Enabled(s, action) && InFallback(action) && PhaseOf(Apply(s, action), t).Hinting?
    ensures !PhaseOf(s, t).Ready? && PhaseOf(Apply(s, action), t).arena == PhaseOf(s, t).arena
    ensures || (action == Cache(t) && PhaseOf(s, t).Caching?)
            || (PhaseOf(s, t).Hinting? && !(action.Cache? && action.t == t))
  {
  }

  lemma OthersKeepPhaseOf(s: State, action: Action, t: Tid)
    requires Enabled(s, action) && !InFallback(action)
    ensures PhaseOf(Apply(s, action), t) == PhaseOf(s, t)
  {
    hide WithoutList, CacheOf, IdAvailable, FreshAddr;
  }

  lemma OthersLeaveLife(s: State, action: Action, t: Tid)
    requires Inv(s) && Enabled(s, action) && !InFallback(action) && !PhaseOf(s, t).Ready?
    ensures !EndsLife(action, PhaseOf(s, t).arena) && !WritesCache(action, t)
  {
    InvAt(s, t);
    hide Inv, CacheEntryOk, WithoutList, CacheOf, IdAvailable, FreshAddr;
  }

  lemma StepCachesFirst(s: State, action: Action, t: Tid)
    requires Inv(s) && Enabled(s, action) && CachedFirst(s, t)
    ensures CachedFirst(Apply(s, action), t)
  {
    hide Inv, CacheHits, HintHits, Apply, Enabled;
    if PhaseOf(Apply(s, action), t).Hinting? {
      if InFallback(action) {
        HintingFrom(s, action, t);
      } else {
        OthersKeepPhaseOf(s, action, t);
        OthersLeaveLife(s, action, t);
      }
      StepCaches(s, action, t, PhaseOf(s, t).arena);
    }
  }

  lemma {:induction false} RunCachesFirst(s: State, run: seq<Action>, t: Tid)
    requires Inv(s) && CachedFirst(s, t) && Run(s, run).Some?
    ensures CachedFirst(Run(s, run).value, t)
    decreases |run|
  {
    hide Inv, CachedFirst, Enabled, Apply;
    if run != [] {
      StepCachesFirst(s, run[0], t);
      StepKeepsInv(s, run[0]);
      RunCachesFirst(Apply(s, run[0]), run[1..], t);
    }
  }

  /** Both caches lead thread t to node x of arena a. */
  predicate BothLeadTo(s: State, t: Tid, a: ArenaId, x: Addr) {
    && CacheHits(s, t, a) && HintHits(s, t, a)
    && CacheOf(s, t).lastSerial == x && s.arenas[a].hint == x
  }

  /** In every run the fallback path ends with both caches filled, whether its node was found or made. */
  lemma FallbackFillsBoth(run: seq<Action>, t: Tid)
    requires Run(START, run).Some? && Enabled(Run(START, run).value, Hint(t))
    ensures var s := Run(START, run).value;
            BothLeadTo(Apply(s, Hint(t)), t, PhaseOf(s, t).arena, PhaseOf(s, t).node)
  {
    assert Inv(START);
    hide Inv;
    RunCachesFirst(START, run, t);
    RunKeepsInv(START, run);
    hide Run;
    HintFillsBoth(Run(START, run).value, t);
  }

  lemma HintFillsBoth(s: State, t: Tid)
    requires Inv(s) && Enabled(s, Hint(t)) && CachedFirst(s, t)
    ensures BothLeadTo(Apply(s, Hint(t)), t, PhaseOf(s, t).arena, PhaseOf(s, t).node)
  {
    var a := PhaseOf(s, t).arena;
    assert WritesHint(s, Hint(t), a) && !WritesCache(Hint(t), t) && !EndsLife(Hint(t), a);
    StepCaches(s, Hint(t), t, a);
    HintStepIs(s, Hint(t), a);
    KeepsOwnCache(s, Hint(t));
    assert CacheHits(s, t, a);
    CachedNode(s, t, a);
    hide Inv;
  }

  /** A thread that hits through its cache, and is about to write the hint, has cached the node it found. */
  lemma CachedNode(s: State, t: Tid, a: ArenaId)
    requires Inv(s) && PhaseOf(s, t).Hinting? && PhaseOf(s, t).arena == a && CacheHits(s, t, a)
    ensures CacheOf(s, t).lastSerial == PhaseOf(s, t).node
  {
    InvAt(s, t);
    InvList(s, a);
    hide Inv, Linked;
    assert OnList(s, a, CacheOf(s, t).lastSerial, t) && OnList(s, a, PhaseOf(s, t).node, t);
  }

  /** Nobody but t writes the hint of a, and the arena lives on. */
  predicate LeftTo(s: State, run: seq<Action>, t: Tid, a: ArenaId)
    decreases |run|
  {
    run != [] && Enabled(s, run[0]) ==>
      && !EndsLife(run[0], a)
      && (WritesHint(s, run[0], a) ==> run[0].t == t)
      && LeftTo(Apply(s, run[0]), run[1..], t, a)
  }

  lemma {:induction false} HintStays(s: State, run: seq<Action>, t: Tid, a: ArenaId)
    requires LeftTo(s, run, t, a)
    ensures HintIsOf(s, run, t, a, true)
    decreases |run|
  {
    if run != [] && Enabled(s, run[0]) {
      HintStays(Apply(s, run[0]), run[1..], t, a);
    }
  }

  /** Once a thread has got its SerialArena on each of some arenas by the fallback path, it never needs that path again
      there, however often it changes from one to the other, until another thread uses it on them or they are reset. */
  lemma NoMoreFallback(s: State, run: seq<Action>, t: Tid, a: ArenaId)
    requires Inv(s) && HintHits(s, t, a) && Run(s, run).Some? && LeftTo(s, run, t, a)
    ensures a in Run(s, run).value.arenas && Fast(Run(s, run).value, t, a).Some?
  {
    RunCaches(s, run, t, a);
    HintStays(s, run, t, a);
    hide Inv, Run, HintIsOf, CacheIsFor, LeftTo;
  }

  /** One thread on two arenas: after the fallback path has ended on both, whatever the thread does next, the fast path
      hits on both. */
  lemma AlternatingHits(s: State, run: seq<Action>, t: Tid, a: ArenaId, b: ArenaId)
    requires Inv(s) && HintHits(s, t, a) && Run(s, [Hint(t)]).Some? && PhaseOf(s, t).arena == b && a != b
    requires Run(Apply(s, Hint(t)), run).Some?
    requires LeftTo(Apply(s, Hint(t)), run, t, a) && LeftTo(Apply(s, Hint(t)), run, t, b)
    ensures var end := Run(Apply(s, Hint(t)), run).value;
            && a in end.arenas && Fast(end, t, a).Some?
            && b in end.arenas && Fast(end, t, b).Some?
  {
    assert Enabled(s, Hint(t)) && WritesHint(s, Hint(t), b) && !WritesHint(s, Hint(t), a);
    hide Inv, HintHits, Run, LeftTo, Enabled, Apply;
    StepCaches(s, Hint(t), t, a);
    StepCaches(s, Hint(t), t, b);
    StepKeepsInv(s, Hint(t));
    NoMoreFallback(Apply(s, Hint(t)), run, t, a);
    NoMoreFallback(Apply(s, Hint(t)), run, t, b);
  }
}
