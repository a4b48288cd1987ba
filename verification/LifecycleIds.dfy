/**
 The order of lifecycle ids: a thread takes the 256 ids of a batch one after the other, and the shared counter moves
 once per batch.
 */
module LifecycleIds {
  import opened Wrappers
  import opened ThreadSafeArena
  import opened ThreadSafeRuns

  /** The ids that start a batch. */
  function Starts(ids: seq<nat>): seq<nat> {
    if ids == [] then [] else (if ids[0] % 512 == 0 then [ids[0]] else []) + Starts(ids[1..])
  }

  function BatchStarts(lo: nat, hi: nat): seq<nat>
    requires lo <= hi
    decreases hi - lo
  {
    if lo == hi then [] else [512 * lo] + BatchStarts(lo + 1, hi)
  }

  predicate TakesId(action: Action) {
    action.Init? || action.Reset?
  }

  /** What a step does to the counter and to the next id of a thread. */
  lemma StepIds(s: State, action: Action, t: Tid)
    requires Enabled(s, action)
    ensures var s' := Apply(s, action);
            && (!TakesId(action) ==> s'.counter == s.counter)
            && (TakesId(action) ==>
                  var id := TakenId(s.counter, CacheOf(s, action.t));
                  && (if id % 512 == 0 then id == 512 * s.counter && s'.counter == s.counter + 1
                      else s'.counter == s.counter)
                  && (if CacheOf(s, action.t).nextId % 512 == 0 then id % 512 == 0
                      else id == CacheOf(s, action.t).nextId)
                  && CacheOf(s', action.t).nextId == id + 2)
            && (!(TakesId(action) && action.t == t) && action != Restart(t) ==>
                  CacheOf(s', t).nextId == CacheOf(s, t).nextId)
  {
    if TakesId(action) {
      Remainder(s.counter);
    }
    hide WithoutList, IdAvailable, Tagged;
  }

  lemma Remainder(n: nat)
    ensures FirstId(n) == 512 * n && FirstId(n) % 512 == 0
  {
    DivideBy512(n, 0);
    assert 512 * n + 0 == FirstId(n);
  }

  lemma {:induction false} BatchesFrom(s: State, run: seq<Action>)
    requires Run(s, run).Some?
    ensures s.counter <= Run(s, run).value.counter
    ensures Starts(Taken(s, run)) == BatchStarts(s.counter, Run(s, run).value.counter)
    decreases |run|
  {
    if run != [] {
      StepIds(s, run[0], 0);
      hide Apply, Enabled, TakenId;
      BatchesFrom(Apply(s, run[0]), run[1..]);
      if TakesId(run[0]) {
        var id := TakenId(s.counter, CacheOf(s, run[0].t));
        assert Taken(s, run) == [id] + Taken(Apply(s, run[0]), run[1..]);
        assert ([id] + Taken(Apply(s, run[0]), run[1..]))[1..] == Taken(Apply(s, run[0]), run[1..]);
      }
    }
  }

  /** In every run the batches are handed out in order, each once: the counter moves exactly when a batch is begun. */
  lemma CounterMovesPerBatch(run: seq<Action>)
    requires Run(START, run).Some?
    ensures Starts(Taken(START, run)) == BatchStarts(0, Run(START, run).value.counter)
  {
    BatchesFrom(START, run);
  }

  /** The ids thread t takes along a run, in order. */
  function IdsOf(s: State, run: seq<Action>, t: Tid): seq<nat>
    decreases |run|
  {
    if run == [] || !Enabled(s, run[0]) then []
    else
      var rest := IdsOf(Apply(s, run[0]), run[1..], t);
      if TakesId(run[0]) && run[0].t == t then [TakenId(s.counter, CacheOf(s, t))] + rest else rest
  }

  /** From next on: each id is the one after the last, or begins a batch when the last batch is used up. */
  predicate Follow(next: nat, ids: seq<nat>)
    decreases |ids|
  {
    ids == [] ||
    ((if next % 512 == 0 then ids[0] % 512 == 0 else ids[0] == next) && Follow(ids[0] + 2, ids[1..]))
  }

  lemma {:induction false} IdsFollow(s: State, run: seq<Action>, t: Tid)
    requires Run(s, run).Some? && Restart(t) !in run
    ensures Follow(CacheOf(s, t).nextId, IdsOf(s, run, t))
    decreases |run|
  {
    if run != [] {
      StepIds(s, run[0], t);
      assert run[0] in run && forall action :: action in run[1..] ==> action in run;
      hide Apply, Enabled, TakenId, CacheOf;
      IdsFollow(Apply(s, run[0]), run[1..], t);
      if TakesId(run[0]) && run[0].t == t {
        var rest := IdsOf(Apply(s, run[0]), run[1..], t);
        assert ([TakenId(s.counter, CacheOf(s, t))] + rest)[1..] == rest;
      }
    }
  }

  lemma {:induction false} FollowMeans(next: nat, ids: seq<nat>, i: nat)
    requires Follow(next, ids) && i < |ids| && next % 2 == 0
    ensures ids[i] % 512 == (next + 2 * i) % 512
    ensures (next + 2 * i) % 512 != 0 ==> ids[i] == if i == 0 then next else ids[i - 1] + 2
    decreases i
  {
    if i > 0 {
      SameRemainder(next, ids[0]);
      NextRemainder(ids[0], next, i);
      FollowMeans(ids[0] + 2, ids[1..], i - 1);
      assert ids[i] == ids[1..][i - 1];
      assert i > 1 ==> ids[i - 1] == ids[1..][i - 2];
    }
  }

  lemma SameRemainder(next: nat, id: nat)
    requires if next % 512 == 0 then id % 512 == 0 else id == next
    requires next % 2 == 0
    ensures id % 512 == next % 512 && id % 2 == 0
  {
    assert id == 2 * (256 * (id / 512)) + id % 512;
  }

  lemma NextRemainder(id: nat, next: nat, i: nat)
    requires id % 512 == next % 512 && i > 0 && id % 2 == 0
    ensures (id + 2 + 2 * (i - 1)) % 512 == (next + 2 * i) % 512
    ensures (id + 2) % 2 == 0
  {
    assert id + 2 + 2 * (i - 1) == id + 2 * i;
  }

  /** In every run, a thread that is not restarted takes its ids in steps of 2 through batches of 256: the id number i
      is at place i % 256 of its batch, and follows the last one unless it begins a batch. */
  lemma IdsOfThread(run: seq<Action>, t: Tid, i: nat)
    requires Run(START, run).Some? && Restart(t) !in run && i < |IdsOf(START, run, t)|
    ensures var ids := IdsOf(START, run, t);
            && ids[i] % 512 == 2 * (i % 256)
            && (i % 256 != 0 ==> ids[i] == ids[i - 1] + 2)
  {
    IdsFollow(START, run, t);
    hide Run, IdsOf, Follow;
    FollowMeans(0, IdsOf(START, run, t), i);
    PlaceInBatch(i);
  }

  lemma PlaceInBatch(i: nat)
    ensures (0 + 2 * i) % 512 == 2 * (i % 256)
  {
    DivideBy512(i / 256, 2 * (i % 256));
    assert 512 * (i / 256) + 2 * (i % 256) == 2 * i;
  }
}
