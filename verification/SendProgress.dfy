/**
 Progress of the send side: while nothing fails, every step of the remaining work brings the queue closer to empty, some
 thread can always take one, and when nothing is left to do all that waited has been accepted by WSASend.
 */
module SendProgress {
  import opened Framing
  import opened SendProtocol

  /** The failure path puts the token down over a queue that no Send is about to look at. */
  ghost predicate Strands(s: State, a: Action) {
    a.Release? && s.sh.queue != [] && !Locked(s)
  }

  /** A step strands buffers exactly when it is the failure path lowering the flag over a nonempty queue with no
      Send about to look at the flag. */
  lemma StrandedExactly(s: State, a: Action)
    requires Inv(s) && Enabled(s, a) && !Stranded(s)
    ensures Stranded(Apply(s, a)) <==> Strands(s, a)
  {
    OwnershipStep(s, a);
    if !a.SetConnected? {
      assert PhaseFact(s, PhaseOf(s, a.t));
    }
  }

  ghost function OwnerPhase(s: State): Phase {
    if Owned(s) then var t :| Owns(s, t); PhaseOf(s, t) else Idle
  }

  lemma OwnerPhaseIs(s: State, t: Tid)
    requires Exclusive(s) && Owns(s, t)
    ensures OwnerPhase(s) == PhaseOf(s, t)
  {
  }

  /** RegisterSend is on its failure path. */
  predicate AfterRefusal(p: Phase) {
    p.Failing? || p.Clearing? || p.Releasing?
  }

  /** ProcessSend has got a completion of zero bytes. */
  predicate AfterZeroBytes(p: Phase) {
    p == Completing(0) || p == Completed(0)
  }

  ghost predicate SomeonePrepares(s: State) {
    exists t :: PhaseOf(s, t).Preparing?
  }

  ghost predicate SomeoneRegisters(s: State) {
    exists t :: PhaseOf(s, t).Registering?
  }

  /** RegisterSend is not going to find the session down: it is up, or what is queued has passed the test already. */
  ghost predicate PassesTest(s: State) {
    s.sh.connected || (!SomeoneRegisters(s) && (s.sh.queue == [] || SomeonePrepares(s)))
  }

  /** What the owner is doing is what anyone is doing. */
  lemma OneOwner(s: State, t: Tid)
    requires Exclusive(s) && Owns(s, t)
    ensures forall u :: u != t ==> PhaseOf(s, u).Idle? || PhaseOf(s, u).Exchanging?
    ensures SomeonePrepares(s) <==> PhaseOf(s, t).Preparing?
    ensures SomeoneRegisters(s) <==> PhaseOf(s, t).Registering?
    ensures s.inFlight == 0 && s.sh.registered
  {
    forall u | u != t ensures PhaseOf(s, u).Idle? || PhaseOf(s, u).Exchanging? {
      assert !Owns(s, u);
    }
  }

  /** The token is not lost, nothing is stranded, the connection is up while it is needed, and no failure is being
      handled. What failed earlier does not matter. */
  ghost predicate Healthy(s: State) {
    && Inv(s) && !s.dropped && !Stranded(s) && PassesTest(s)
    && (forall t :: !AfterRefusal(PhaseOf(s, t)) && !AfterZeroBytes(PhaseOf(s, t)))
  }

  /** An action that is neither a new Send nor a failure. */
  predicate Calm(a: Action) {
    match a
    case Push(_, _) => false
    case Submit(_, accepted) => accepted
    case Complete(_, bytes) => bytes > 0
    case SetConnected(_) => false
    case _ => true
  }

  predicate AllCalm(run: seq<Action>) {
    forall a :: a in run ==> Calm(a)
  }

  function Completions(run: seq<Action>): nat {
    if run == [] then 0 else (if run[0].Complete? then 1 else 0) + Completions(run[1..])
  }

  /** A Send has pushed and is going to find the flag down. */
  ghost predicate Claiming(s: State) {
    Locked(s) && !s.sh.registered
  }

  /** The steps still ahead of the token. */
  ghost function TokenSteps(s: State): nat {
    var q := s.sh.queue == [];
    match OwnerPhase(s)
    case Registering => 7
    case Preparing => 6
    case Submitting => if q then 5 else 12
    case Completing(_) => if q then 3 else 10
    case Completed(_) => if q then 2 else 9
    case Finishing => if q then 1 else 8
    case _ => if s.inFlight > 0 then (if q then 4 else 11) else if Claiming(s) then 7 else 0
  }

  ghost function Steps(s: State): nat {
    TokenSteps(s) + if Locked(s) then 1 else 0
  }

  /** The completions still needed to empty the queue. */
  ghost function Rounds(s: State): nat {
    var q := s.sh.queue == [];
    match OwnerPhase(s)
    case Registering => 1
    case Preparing => 1
    case Submitting => if q then 1 else 2
    case Completing(_) => if q then 0 else 1
    case Completed(_) => if q then 0 else 1
    case Finishing => if q then 0 else 1
    case _ => if s.inFlight > 0 then (if q then 1 else 2) else if Claiming(s) then 1 else 0
  }

  ghost predicate Quiescent(s: State) {
    s.sh.queue == [] && !s.sh.registered && s.inFlight == 0 && !Owned(s) && !Locked(s)
  }

  /** Who has the token after a calm step. */
  lemma OwnerPhaseStep(s: State, a: Action)
    requires Healthy(s) && Enabled(s, a) && Calm(a)
    ensures a.Exchange? && s.sh.registered ==> OwnerPhase(Apply(s, a)) == OwnerPhase(s)
    ensures !(a.Exchange? && s.sh.registered) ==>
              OwnerPhase(Apply(s, a)) == (if Owns(Apply(s, a), a.t) then PhaseOf(Apply(s, a), a.t) else Idle)
    ensures !a.Exchange? && !a.Complete? ==> Owns(s, a.t) && OwnerPhase(s) == PhaseOf(s, a.t)
    ensures a.Complete? || (a.Exchange? && !s.sh.registered) ==> !Owned(s)
  {
    var s' := Apply(s, a);
    OthersStay(s, a);
    OwnershipStep(s, a);
    StepKeepsInv(s, a);
    assert PhaseFact(s, PhaseOf(s, a.t));
    if Owns(s', a.t) {
      OwnerPhaseIs(s', a.t);
    }
    if a.Exchange? && s.sh.registered && Owned(s) {
      var t :| Owns(s, t);
      OwnerPhaseIs(s, t);
      OwnerPhaseIs(s', t);
    }
    if !a.Exchange? && !a.Complete? {
      OwnerPhaseIs(s, a.t);
    }
  }

  lemma CalmStepStaysHealthy(s: State, a: Action)
    requires Healthy(s) && Enabled(s, a) && Calm(a)
    ensures Healthy(Apply(s, a))
  {
    assert Inv(s) && !Stranded(s);
    CalmStepKeepsOutOfFailure(s, a);
    CalmStepPassesTest(s, a);
    hide Inv, Stranded, PassesTest, Apply, PhaseOf;
    StepKeepsInv(s, a);
    StrandedExactly(s, a);
  }

  /** With every batch accepted and no completion of zero bytes, no thread gets onto a failure path. */
  lemma CalmStepKeepsOutOfFailure(s: State, a: Action)
    requires Healthy(s) && Enabled(s, a) && Calm(a)
    ensures var s' := Apply(s, a);
            && !Strands(s, a) && !s'.dropped
            && (forall t :: !AfterRefusal(PhaseOf(s', t)) && !AfterZeroBytes(PhaseOf(s', t)))
  {
    OthersStay(s, a);
    var p := PhaseOf(s, a.t);
    assert !AfterRefusal(p) && !AfterZeroBytes(p);
    assert p.Registering? ==> SomeoneRegisters(s);
    hide Inv, Stranded, Locked;
  }

  /** With the session down, nobody comes to the test again. */
  lemma CalmStepPassesTest(s: State, a: Action)
    requires Healthy(s) && Enabled(s, a) && Calm(a)
    ensures PassesTest(Apply(s, a))
  {
    OthersStay(s, a);
    var p, s' := PhaseOf(s, a.t), Apply(s, a);
    assert PhaseFact(s, p) && !AfterRefusal(p);
    if !s.sh.connected {
      assert !p.Registering?;
      if u :| PhaseOf(s, u).Preparing? {
        OneOwner(s, u);
        assert a.t == u || (a.Exchange? && PhaseOf(s', u).Preparing?);
      }
    }
  }

  /** Every calm step brings the queue closer to empty, and each completion uses up one round. */
  lemma CalmStepProgresses(s: State, a: Action)
    requires Healthy(s) && Enabled(s, a) && Calm(a)
    ensures Steps(Apply(s, a)) < Steps(s)
    ensures Rounds(Apply(s, a)) + (if a.Complete? then 1 else 0) <= Rounds(s)
  {
    OwnerPhaseStep(s, a);
    OwnershipStep(s, a);
    LockFreeMeansUnlocked(s);
    assert PhaseFact(s, PhaseOf(s, a.t));
  }

  lemma FreshThread(threads: map<Tid, Phase>) returns (t: Tid)
    ensures t !in threads
  {
    var keys, bound: nat := threads.Keys, 0;
    while keys != {}
      invariant keys <= threads.Keys
      invariant forall k :: k in threads && k !in keys ==> k < bound
      decreases keys
    {
      var k :| k in keys;
      keys := keys - {k};
      bound := if k < bound then bound else k + 1;
    }
    t := bound;
  }

  /** While anything is left to do, some thread can do it. */
  lemma CalmActionEnabled(s: State) returns (a: Action)
    requires Healthy(s) && !Quiescent(s)
    ensures Enabled(s, a) && Calm(a)
  {
    LockFreeMeansUnlocked(s);
    if Locked(s) {
      var t :| HoldsLock(s, t);
      a := Exchange(t);
    } else if Owned(s) {
      var t :| Owns(s, t);
      assert PhaseFact(s, PhaseOf(s, t));
      match PhaseOf(s, t) {
        case Registering => a := TestConnected(t);
        case Preparing => a := Drain(t);
        case Submitting => a := Submit(t, true);
        case Completing(_) => a := Clear(t);
        case Completed(_) => a := TestBytes(t);
        case _ => a := Finish(t);
      }
    } else {
      assert s.inFlight == 1;
      var t := FreshThread(s.threads);
      a := Complete(t, 1);
    }
  }

  lemma {:induction false} CalmRunProgresses(s: State, run: seq<Action>)
    requires Healthy(s) && AllCalm(run) && Run(s, run).Some?
    ensures Healthy(Run(s, run).value)
    ensures |run| + Steps(Run(s, run).value) <= Steps(s)
    ensures Completions(run) + Rounds(Run(s, run).value) <= Rounds(s)
    ensures Run(s, run).value.pushed == s.pushed
    decreases |run|
  {
    if run != [] {
      CalmStepStaysHealthy(s, run[0]);
      CalmStepProgresses(s, run[0]);
      assert forall a :: a in run[1..] ==> a in run;
      CalmRunProgresses(Apply(s, run[0]), run[1..]);
    }
  }

  /** The batches that WSASend took. */
  function AcceptedOf(bs: seq<Batch>): seq<Batch> {
    if bs == [] then []
    else AcceptedOf(bs[..|bs| - 1]) + if bs[|bs| - 1].accepted then [bs[|bs| - 1]] else []
  }

  lemma {:induction false} AcceptedAppend(bs: seq<Batch>, more: seq<Batch>)
    requires forall b :: b in more ==> b.accepted
    ensures AcceptedOf(bs + more) == AcceptedOf(bs) + more
    decreases |more|
  {
    if more == [] {
      assert bs + more == bs;
    } else {
      var most := more[..|more| - 1];
      assert (bs + more)[..|bs + more| - 1] == bs + most;
      AcceptedAppend(bs, most);
    }
  }

  lemma {:induction false} FlattenConcat(bs: seq<Batch>, more: seq<Batch>)
    ensures Flatten(bs + more) == Flatten(bs) + Flatten(more)
    decreases |more|
  {
    if more == [] {
      assert bs + more == bs;
    } else {
      var most := more[..|more| - 1];
      assert (bs + more)[..|bs + more| - 1] == bs + most;
      FlattenConcat(bs, most);
    }
  }

  /** Calm steps only add batches that are accepted. */
  lemma {:induction false} CalmRunSubmits(s: State, run: seq<Action>) returns (more: seq<Batch>)
    requires AllCalm(run) && Run(s, run).Some?
    ensures Run(s, run).value.batches == s.batches + more && forall b :: b in more ==> b.accepted
    decreases |run|
  {
    if run == [] {
      more := [];
    } else {
      var first := CalmStepSubmits(s, run[0]);
      assert Calm(run[0]) && forall a :: a in run[1..] ==> a in run;
      hide Apply, Calm;
      var rest := CalmRunSubmits(Apply(s, run[0]), run[1..]);
      more := first + rest;
      assert (s.batches + first) + rest == s.batches + more;
    }
  }

  lemma CalmStepSubmits(s: State, a: Action) returns (more: seq<Batch>)
    requires Enabled(s, a) && Calm(a)
    ensures Apply(s, a).batches == s.batches + more && forall b :: b in more ==> b.accepted
  {
    more := if a.Submit? then [Batch(s.sh.eventBufs, true)] else [];
  }

  /** No lost wakeup, with a bound. Once Send calls stop, any schedule of the remaining work has at most 13 steps and
      two completions; until it is done some thread can take a step; and when it is done the queue is empty, the flag
      is down, and what waited in the owner's hands and in the queue has been accepted by WSASend, in order. */
  lemma NoLostWakeup(s: State, run: seq<Action>)
    requires Healthy(s) && AllCalm(run) && Run(s, run).Some?
    ensures var end := Run(s, run).value;
            && |run| <= 13 && Completions(run) <= 2
            && (!Quiescent(end) ==> exists a :: Enabled(end, a) && Calm(a))
            && (Quiescent(end) ==>
                  && Flatten(end.batches) == s.pushed
                  && Flatten(AcceptedOf(end.batches)) == Flatten(AcceptedOf(s.batches)) + (Pending(s) + s.sh.queue))
    ensures AllAccepted(s) ==> AllAccepted(Run(s, run).value)
  {
    CalmRunProgresses(s, run);
    var end := Run(s, run).value;
    assert Inv(s) && Inv(end);
    if !Quiescent(end) {
      var a := CalmActionEnabled(end);
    }
    hide Healthy, Inv, Run, Calm, Quiescent, Enabled, AllCalm, Steps, Rounds, Pending, Flatten, AcceptedOf, Completions;
    if Quiescent(end) {
      CalmRunAccepts(s, run);
    }
    var more := CalmRunSubmits(s, run);
  }

  /** A calm run that leaves nothing to do has got everything accepted that waited when it began. */
  lemma CalmRunAccepts(s: State, run: seq<Action>)
    requires Inv(s) && AllCalm(run) && Run(s, run).Some? && Inv(Run(s, run).value)
    requires Quiescent(Run(s, run).value) && Run(s, run).value.pushed == s.pushed
    ensures var end := Run(s, run).value;
            && Flatten(end.batches) == s.pushed
            && Flatten(AcceptedOf(end.batches)) == Flatten(AcceptedOf(s.batches)) + (Pending(s) + s.sh.queue)
  {
    var more := CalmRunSubmits(s, run);
    QuiescentSentEverything(Run(s, run).value);
    WaitingIs(s);
    hide Inv, Run, AllCalm, Quiescent, Pending, Flatten, AcceptedOf;
    AcceptedRest(s.batches, more, Pending(s) + s.sh.queue);
  }

  lemma WaitingIs(s: State)
    requires Inv(s)
    ensures s.pushed == Flatten(s.batches) + (Pending(s) + s.sh.queue)
  {
    assert Conserved(s);
    hide Inv, Flatten, Pending;
  }

  lemma AcceptedRest(bs: seq<Batch>, more: seq<Batch>, rest: seq<Bytes>)
    requires Flatten(bs + more) == Flatten(bs) + rest && forall b :: b in more ==> b.accepted
    ensures Flatten(AcceptedOf(bs + more)) == Flatten(AcceptedOf(bs)) + rest
  {
    hide Flatten, AcceptedOf;
    AcceptedAppend(bs, more);
    FlattenConcat(bs, more);
    FlattenConcat(AcceptedOf(bs), more);
    SameRest(Flatten(bs), Flatten(more), rest);
  }

  lemma SameRest<T>(front: seq<T>, a: seq<T>, b: seq<T>)
    requires front + a == front + b
    ensures a == b
  {
    assert a == (front + a)[|front|..] && b == (front + b)[|front|..];
  }

  /** When nothing is under way, the batches given to WSASend are exactly what was pushed. */
  lemma QuiescentSentEverything(s: State)
    requires Inv(s) && Quiescent(s)
    ensures Flatten(s.batches) == s.pushed
  {
    assert forall t :: PhaseOf(s, t).Submitting? ==> Owns(s, t);
    assert Flatten(s.batches) + [] + [] == Flatten(s.batches);
  }
}
