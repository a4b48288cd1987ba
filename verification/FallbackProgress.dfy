/**
 The fallback path comes to its end: a thread left alone needs one step for each node of the list still ahead and at
 most six more, and then the fast path hits.
 */
module FallbackProgress {
  import opened Wrappers
  import opened ThreadSafeArena
  import opened ThreadSafeRuns
  import opened ArenaCaches

  /** All steps of the run are steps of thread t on the fallback path. */
  predicate OnlyBy(run: seq<Action>, t: Tid) {
    forall action :: action in run ==> InFallback(action) && action.t == t
  }

  /** The steps left to thread t if nobody interferes. A head read before another thread's push costs two more. */
  function StepsLeft(s: State, t: Tid): nat {
    match PhaseOf(s, t)
    case Ready => 0
    case Walking(_, _, rest) => |rest| + 6
    case Loading(_, _) => 5
    case Linking(a, _, expected) => if a in s.arenas && s.arenas[a].head == expected then 4 else 6
    case Swapping(a, _, expected) => if a in s.arenas && s.arenas[a].head == expected then 3 else 5
    case Caching(_, _) => 2
    case Hinting(_, _) => 1
  }

  lemma FreshNode(nodes: map<Addr, Node>) returns (x: Addr)
    ensures x != 0 && x !in nodes
  {
    var keys, bound: nat := nodes.Keys, 1;
    while keys != {}
      invariant keys <= nodes.Keys && bound > 0
      invariant forall k :: k in nodes && k !in keys ==> k < bound
      decreases keys
    {
      var k :| k in keys;
      keys := keys - {k};
      bound := if k < bound then bound else k + 1;
    }
    x := bound;
  }

  /** The next step of thread t, which can always be taken. */
  lemma NextStep(s: State, t: Tid) returns (action: Action)
    requires Inv(s) && !PhaseOf(s, t).Ready?
    ensures Enabled(s, action) && InFallback(action) && !action.Begin? && action.t == t
    ensures action.Swap? ==> !action.spurious
    ensures action.Walk? ==> PhaseOf(s, t).rest != []
    ensures action.Create? ==> PhaseOf(s, t).rest == []
  {
    hide Inv, CacheEntryOk, ListOk, IsSuffix, OwnsNone, IdAvailable, Untouched;
    var p := PhaseOf(s, t);
    InvAt(s, t);
    match p {
      case Walking(_, at, _) =>
        if at == 0 {
          var x := FreshNode(s.nodes);
          action := Create(t, x);
        } else {
          action := Walk(t);
        }
      case Loading(_, _) => action := LoadHead(t);
      case Linking(_, _, _) => action := Link(t);
      case Swapping(_, _, _) => action := Swap(t, false);
      case Caching(_, _) => action := Cache(t);
      case Hinting(_, _) => action := Hint(t);
    }
  }

  lemma StepGoesOn(s: State, t: Tid, action: Action)
    requires Enabled(s, action) && InFallback(action) && !action.Begin? && action.t == t
    requires action.Swap? ==> !action.spurious
    requires action.Walk? ==> PhaseOf(s, t).rest != []
    ensures StepsLeft(Apply(s, action), t) < StepsLeft(s, t)
    ensures PhaseOf(Apply(s, action), t).Ready? <==> action.Hint?
    ensures !action.Hint? ==> PhaseOf(Apply(s, action), t).arena == PhaseOf(s, t).arena
  {
  }

  /** In every state with the two invariants of all runs, a thread on the fallback path can come to its end by steps of
      its own, and then has the fast path on that arena, through its own cache and through the hint. */
  lemma AloneFinishes(s: State, t: Tid) returns (run: seq<Action>)
    requires Inv(s) && CachedFirst(s, t) && !PhaseOf(s, t).Ready?
    ensures OnlyBy(run, t) && |run| <= StepsLeft(s, t) && Run(s, run).Some?
    ensures var a, end := PhaseOf(s, t).arena, Run(s, run).value;
            PhaseOf(end, t).Ready? && CacheHits(end, t, a) && HintHits(end, t, a)
    decreases StepsLeft(s, t)
  {
    hide Inv, Apply, Enabled, PhaseOf, StepsLeft, CacheHits, HintHits, CachedFirst;
    var a := PhaseOf(s, t).arena;
    var action := NextStep(s, t);
    StepGoesOn(s, t, action);
    StepKeepsInv(s, action);
    StepCachesFirst(s, action, t);
    if action.Hint? {
      HintFillsBoth(s, t);
      assert [action][1..] == [] && StepsLeft(s, t) > 0;
      run := [action];
    } else {
      var rest := AloneFinishes(Apply(s, action), t);
      run := [action] + rest;
      assert run[1..] == rest;
    }
  }

  /** So a thread can use any arena there is, in at most one step for each SerialArena of its list and seven more. */
  lemma AnyArenaCanBeUsed(s: State, t: Tid, a: ArenaId) returns (run: seq<Action>)
    requires Inv(s) && PhaseOf(s, t).Ready? && a in s.arenas
    ensures a in s.lists && OnlyBy(run, t) && |run| <= |s.lists[a]| + 7 && Run(s, run).Some?
    ensures var end := Run(s, run).value; CacheHits(end, t, a) && HintHits(end, t, a)
  {
    InvList(s, a);
    StepKeepsInv(s, Begin(t, a));
    var s1 := Apply(s, Begin(t, a));
    assert PhaseOf(s1, t) == Walking(a, s.arenas[a].head, s.lists[a]);
    var rest := AloneFinishes(s1, t);
    run := [Begin(t, a)] + rest;
    assert run[1..] == rest;
  }
}
