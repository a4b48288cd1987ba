/**
 When progress fails: over every run, exactly when buffers are stranded, exactly when the token is lost, and from
 exactly which states the queue can still drain; with a run for each way to get stuck.
 */
module LostWakeups {
  import opened Wrappers
  import opened Framing
  import opened SendProtocol
  import opened SendProgress

  // ---------------------------------------------------------------- exactly when a wakeup is lost

  /** A step leaves buffers stranded if they were and no Send comes, or if it strands them. */
  lemma StrandedStep(s: State, a: Action)
    requires Inv(s) && Enabled(s, a)
    ensures Stranded(Apply(s, a)) <==> (Stranded(s) && !a.Push?) || Strands(s, a)
  {
    if Stranded(s) {
      OwnershipStep(s, a);
      LockFreeMeansUnlocked(s);
      assert a.SetConnected? || (!Owns(s, a.t) && !HoldsLock(s, a.t));
    } else {
      StrandedExactly(s, a);
    }
  }

  predicate NoPush(run: seq<Action>) {
    forall a :: a in run ==> !a.Push?
  }

  /** Some step of the run strands buffers, and no Send pushes after it. */
  ghost predicate EndsStranded(s: State, run: seq<Action>)
    decreases |run|
  {
    && run != [] && Enabled(s, run[0])
    && ((Strands(s, run[0]) && NoPush(run[1..])) || EndsStranded(Apply(s, run[0]), run[1..]))
  }

  lemma {:induction false} StrandedAfter(s: State, run: seq<Action>)
    requires Inv(s) && Run(s, run).Some?
    ensures Stranded(Run(s, run).value) <==> (Stranded(s) && NoPush(run)) || EndsStranded(s, run)
    decreases |run|
  {
    hide Inv, Strands, Stranded, NoPush;
    NoPushSplits(run);
    if run != [] {
      StrandedStep(s, run[0]);
      StepKeepsInv(s, run[0]);
      hide Apply, Enabled;
      StrandedAfter(Apply(s, run[0]), run[1..]);
    }
  }

  lemma NoPushSplits(run: seq<Action>)
    ensures run == [] ==> NoPush(run)
    ensures run != [] ==> (NoPush(run) <==> !run[0].Push? && NoPush(run[1..]))
  {
    if run != [] {
      assert run == [run[0]] + run[1..];
    }
  }

  /** Over every run: buffers are stranded at its end if and only if the failure path has put the token down over a
      nonempty queue with no Send under way, and no Send has come since. */
  lemma StrandedRunExactly(run: seq<Action>)
    requires Run(INIT, run).Some?
    ensures Stranded(Run(INIT, run).value) <==> EndsStranded(INIT, run)
  {
    assert forall t :: PhaseOf(INIT, t).Idle?;
    StrandedAfter(INIT, run);
  }

  /** The two places where a thread goes away with the flag still up. */
  predicate LosesTokenAt(s: State, a: Action) {
    (a.TestConnected? && !s.sh.connected) || (a.TestBytes? && PhaseOf(s, a.t) == Completed(0))
  }

  /** Some RegisterSend of the run has found the session not connected, or some completion has come with zero bytes. */
  predicate LosesToken(s: State, run: seq<Action>)
    decreases |run|
  {
    && run != [] && Enabled(s, run[0])
    && (LosesTokenAt(s, run[0]) || LosesToken(Apply(s, run[0]), run[1..]))
  }

  lemma {:induction false} DroppedAfter(s: State, run: seq<Action>)
    requires Run(s, run).Some?
    ensures Run(s, run).value.dropped <==> s.dropped || LosesToken(s, run)
    decreases |run|
  {
    if run != [] {
      DroppedAfter(Apply(s, run[0]), run[1..]);
    }
  }

  /** Over every run: the flag is up at its end with no thread and no completion behind it if and only if some
      RegisterSend has found the session not connected, or some completion has come with zero bytes. */
  lemma TokenLostExactly(run: seq<Action>)
    requires Run(INIT, run).Some?
    ensures var end := Run(INIT, run).value;
            && (end.dropped <==> LosesToken(INIT, run))
            && (end.sh.registered && !Owned(end) && end.inFlight == 0 <==> LosesToken(INIT, run))
  {
    DroppedAfter(INIT, run);
    EveryRunIsSafe(Run(INIT, run).value);
  }

  // ---------------------------------------------------------------- the connection

  /** What a step makes of the connection: up, down, or neither. The send side takes it down where WSASend reports that
      the connection is lost, and where a completion comes with zero bytes. */
  function Switch(s: State, a: Action): Option<bool> {
    match a
    case SetConnected(up) => Some(up)
    case HandleError(_, true) => Some(false)
    case TestBytes(t) => if PhaseOf(s, t) == Completed(0) then Some(false) else None
    case _ => None
  }

  /** The last switch of the run. */
  function LastSwitch(s: State, run: seq<Action>): Option<bool>
    decreases |run|
  {
    if run == [] || !Enabled(s, run[0]) then None
    else
      var later := LastSwitch(Apply(s, run[0]), run[1..]);
      if later.Some? then later else Switch(s, run[0])
  }

  lemma {:induction false} ConnectedAfter(s: State, run: seq<Action>)
    requires Run(s, run).Some?
    ensures Run(s, run).value.sh.connected ==
            match LastSwitch(s, run) { case Some(up) => up case None => s.sh.connected }
    decreases |run|
  {
    if run != [] {
      ConnectedAfter(Apply(s, run[0]), run[1..]);
    }
  }

  /** In every run the session is connected at the end if and only if the last of all connects and disconnects was a
      connect; a lost connection reported by WSASend and a completion of zero bytes count as disconnects. */
  lemma ConnectedExactly(run: seq<Action>)
    requires Run(INIT, run).Some?
    ensures Run(INIT, run).value.sh.connected <==> LastSwitch(INIT, run) == Some(true)
  {
    ConnectedAfter(INIT, run);
  }

  lemma {:induction false} NoSwitchUp(s: State, run: seq<Action>)
    requires Run(s, run).Some? && SetConnected(true) !in run
    ensures LastSwitch(s, run) != Some(true)
    decreases |run|
  {
    if run != [] {
      assert run[0] in run && forall a :: a in run[1..] ==> a in run;
      NoSwitchUp(Apply(s, run[0]), run[1..]);
    }
  }

  /** After a disconnect, until the next connect, every RegisterSend finds the session down and loses the token. */
  lemma DownUntilConnect(s: State, a: Action, run: seq<Action>, t: Tid)
    requires Enabled(s, a) && Switch(s, a) == Some(false)
    requires Run(Apply(s, a), run).Some? && SetConnected(true) !in run
    requires Enabled(Run(Apply(s, a), run).value, TestConnected(t))
    ensures var end := Apply(Run(Apply(s, a), run).value, TestConnected(t));
            end.dropped && PhaseOf(end, t).Idle? && !end.sh.connected
  {
    ConnectedAfter(Apply(s, a), run);
    NoSwitchUp(Apply(s, a), run);
    hide Run, LastSwitch;
  }

  // ---------------------------------------------------------------- exactly when the queue can still drain

  /** Buffers wait that no Send is about to look at, and a refusal is being handled. */
  ghost predicate WillStrand(s: State) {
    s.sh.queue != [] && !Locked(s) && exists t :: AfterRefusal(PhaseOf(s, t))
  }

  /** What is under way is going to lose the token or to strand buffers. */
  ghost predicate WillFail(s: State) {
    || (exists t :: AfterZeroBytes(PhaseOf(s, t)))
    || !PassesTest(s)
    || WillStrand(s)
  }

  ghost predicate CannotDrain(s: State) {
    s.dropped || Stranded(s) || WillFail(s)
  }

  /** Some schedule of the remaining work, with no new Send and no failure, leaves nothing to do. */
  ghost predicate CanDrain(s: State) {
    exists run :: Drains(s, run)
  }

  ghost predicate Drains(s: State, run: seq<Action>) {
    AllCalm(run) && Run(s, run).Some? && Quiescent(Run(s, run).value)
  }

  lemma ZeroBytesStep(s: State, a: Action, t: Tid)
    requires Inv(s) && Enabled(s, a) && Calm(a) && AfterZeroBytes(PhaseOf(s, t))
    ensures CannotDrain(Apply(s, a))
  {
    OthersStay(s, a);
    assert Owns(s, t);
    var s' := Apply(s, a);
    if a.t == t {
      assert s'.dropped || AfterZeroBytes(PhaseOf(s', t));
    } else {
      assert AfterZeroBytes(PhaseOf(s', t));
    }
  }

  /** A session that is down stays down, and sooner or later a thread finds that out. */
  lemma FailsTestStep(s: State, a: Action)
    requires Inv(s) && Enabled(s, a) && Calm(a) && !PassesTest(s)
    ensures CannotDrain(Apply(s, a))
  {
    OthersStay(s, a);
    var p, s' := PhaseOf(s, a.t), Apply(s, a);
    assert PhaseFact(s, p);
    if t :| PhaseOf(s, t).Registering? {
      assert Owns(s, t);
      assert a.t == t || PhaseOf(s', t).Registering?;
    } else if a.Release? {
      OwnershipStep(s, a);
      WaitingReleased(s, a);
    } else {
      assert !p.Preparing? && s'.sh.queue != [];
      forall u ensures !PhaseOf(s', u).Preparing? {
        assert u != a.t ==> PhaseOf(s', u) == PhaseOf(s, u);
      }
    }
  }

  lemma WaitingReleased(s: State, a: Action)
    requires Inv(s) && Enabled(s, a) && a.Release? && s.sh.queue != []
    ensures !SomeonePrepares(Apply(s, a))
  {
    OthersStay(s, a);
    OneOwner(s, a.t);
  }

  lemma RefusalStep(s: State, a: Action, t: Tid)
    requires Inv(s) && Enabled(s, a) && Calm(a)
    requires AfterRefusal(PhaseOf(s, t)) && s.sh.queue != [] && !Locked(s)
    ensures CannotDrain(Apply(s, a))
  {
    OwnershipStep(s, a);
    LockFreeMeansUnlocked(s);
    OneOwner(s, t);
    var s' := Apply(s, a);
    assert a.t == t by { assert !HoldsLock(s, a.t); }
    if a.Release? {
      assert Stranded(s');
    } else {
      assert AfterRefusal(PhaseOf(s', t));
    }
  }

  lemma CannotDrainStep(s: State, a: Action)
    requires Inv(s) && Enabled(s, a) && Calm(a) && CannotDrain(s)
    ensures CannotDrain(Apply(s, a))
  {
    StrandedStep(s, a);
    if t :| AfterZeroBytes(PhaseOf(s, t)) {
      ZeroBytesStep(s, a, t);
    } else if !PassesTest(s) {
      FailsTestStep(s, a);
    } else if !s.dropped && !Stranded(s) {
      var t :| AfterRefusal(PhaseOf(s, t));
      RefusalStep(s, a, t);
    }
    hide Inv, Stranded;
  }

  lemma {:induction false} CannotDrainStays(s: State, run: seq<Action>)
    requires Inv(s) && AllCalm(run) && Run(s, run).Some? && CannotDrain(s)
    ensures !Quiescent(Run(s, run).value)
    decreases |run|
  {
    if run == [] {
      assert forall t :: !Owns(s, t) ==> !AfterZeroBytes(PhaseOf(s, t)) && !AfterRefusal(PhaseOf(s, t));
      assert forall t :: !Owns(s, t) ==> !PhaseOf(s, t).Registering?;
    } else {
      CannotDrainStep(s, run[0]);
      StepKeepsInv(s, run[0]);
      assert forall a :: a in run[1..] ==> a in run;
      CannotDrainStays(Apply(s, run[0]), run[1..]);
    }
  }

  lemma DrainsFirst(s: State, a: Action, run: seq<Action>)
    requires Enabled(s, a) && Calm(a) && Drains(Apply(s, a), run)
    ensures Drains(s, [a] + run)
  {
    assert ([a] + run)[1..] == run;
  }

  lemma HealthyDrains(s: State) returns (run: seq<Action>)
    requires Healthy(s)
    ensures Drains(s, run)
    decreases Steps(s)
  {
    if Quiescent(s) {
      run := [];
    } else {
      var a := CalmActionEnabled(s);
      CalmStepStaysHealthy(s, a);
      CalmStepProgresses(s, a);
      var rest := HealthyDrains(Apply(s, a));
      DrainsFirst(s, a, rest);
      run := [a] + rest;
    }
  }

  function RefusalSteps(p: Phase): nat {
    if p.Failing? then 3 else if p.Clearing? then 2 else 1
  }

  function RefusalAction(p: Phase, t: Tid): Action {
    if p.Failing? then HandleError(t, false) else if p.Clearing? then Clear(t) else Release(t)
  }

  lemma RefusalActionIs(s: State, t: Tid)
    requires Inv(s) && PassesTest(s) && AfterRefusal(PhaseOf(s, t))
    requires s.sh.queue == [] || Locked(s)
    ensures var a := RefusalAction(PhaseOf(s, t), t);
            && Enabled(s, a) && Calm(a)
            && var s' := Apply(s, a);
            && PassesTest(s') && (s'.sh.queue == [] || Locked(s'))
            && (if PhaseOf(s, t).Releasing? then Healthy(s')
                else AfterRefusal(PhaseOf(s', t)) && RefusalSteps(PhaseOf(s', t)) < RefusalSteps(PhaseOf(s, t)))
  {
    var a := RefusalAction(PhaseOf(s, t), t);
    OwnershipStep(s, a);
    OthersStay(s, a);
    StepKeepsInv(s, a);
    assert Owns(s, t) && forall u :: u != t ==> !Owns(s, u);
    var s' := Apply(s, a);
    OneOwner(s, t);
    assert forall u :: u != t ==> !PhaseOf(s', u).Registering?;
    assert !SomeoneRegisters(s');
    if PhaseOf(s, t).Releasing? {
      forall u ensures !AfterRefusal(PhaseOf(s', u)) && !AfterZeroBytes(PhaseOf(s', u)) {
        assert !Owns(s', u);
      }
    }
  }

  lemma RefusalDrains(s: State, t: Tid) returns (run: seq<Action>)
    requires Inv(s) && PassesTest(s) && AfterRefusal(PhaseOf(s, t))
    requires s.sh.queue == [] || Locked(s)
    ensures Drains(s, run)
    decreases RefusalSteps(PhaseOf(s, t))
  {
    var a := RefusalAction(PhaseOf(s, t), t);
    RefusalActionIs(s, t);
    StepKeepsInv(s, a);
    var rest: seq<Action>;
    if PhaseOf(s, t).Releasing? {
      rest := HealthyDrains(Apply(s, a));
    } else {
      rest := RefusalDrains(Apply(s, a), t);
    }
    DrainsFirst(s, a, rest);
    run := [a] + rest;
  }

  /** In every reachable state: all that was pushed can still be given to WSASend, with no new Send, no change of the
      connection and no failure, if and only if the token is not lost, no completion of zero bytes is being processed,
      the session is up or nothing is left to test it, nothing is stranded, and no refusal is being handled while
      buffers wait that no Send is about to look at. */
  lemma DrainsExactly(s: State)
    requires Reachable(s)
    ensures CanDrain(s) <==> !CannotDrain(s)
  {
    EveryRunIsSafe(s);
    if CannotDrain(s) {
      forall run | AllCalm(run) && Run(s, run).Some? ensures !Quiescent(Run(s, run).value) {
        CannotDrainStays(s, run);
      }
    } else if t :| AfterRefusal(PhaseOf(s, t)) {
      var run := RefusalDrains(s, t);
    } else {
      var run := HealthyDrains(s);
    }
  }

  /** The same in terms of what has happened, over every run: some schedule of the remaining work leaves nothing to do
      if and only if no token was lost in the run, the run does not end with buffers stranded, and nothing is under way
      that is going to fail. While no failure is being handled every schedule then does, by NoLostWakeup. */
  lemma NoLostWakeupExactly(run: seq<Action>)
    requires Run(INIT, run).Some?
    ensures var s := Run(INIT, run).value;
            && (CanDrain(s) <==> !LosesToken(INIT, run) && !EndsStranded(INIT, run) && !WillFail(s))
            && ((forall t :: !AfterRefusal(PhaseOf(s, t)) && !AfterZeroBytes(PhaseOf(s, t))) ==>
                  && (CanDrain(s) <==> Healthy(s))
                  && (s.sh.connected ==> !WillFail(s)))
  {
    var s := Run(INIT, run).value;
    EveryRunIsSafe(s);
    DrainsExactly(s);
    TokenLostExactly(run);
    StrandedRunExactly(run);
    hide Inv, Run, CanDrain, LosesToken, EndsStranded, Stranded;
  }

  /** Once the token is lost nothing is ever sent again, even if the session is connected later. */
  lemma {:induction false} LostTokenSendsNothing(s: State, run: seq<Action>)
    requires Inv(s) && s.dropped && Run(s, run).Some?
    ensures Run(s, run).value.batches == s.batches && Run(s, run).value.dropped
    decreases |run|
  {
    if run != [] {
      StepKeepsInv(s, run[0]);
      if run[0].Submit? {
        assert Owns(s, run[0].t);
      }
      LostTokenSendsNothing(Apply(s, run[0]), run[1..]);
    }
  }

  lemma {:induction false} RunAppend(s: State, run: seq<Action>, a: Action)
    requires Run(s, run).Some? && Enabled(Run(s, run).value, a)
    ensures Run(s, run + [a]) == Some(Apply(Run(s, run).value, a))
    decreases |run|
  {
    if run == [] {
      assert (run + [a])[1..] == [];
    } else {
      assert (run + [a])[1..] == run[1..] + [a];
      RunAppend(Apply(s, run[0]), run[1..], a);
    }
  }

  lemma ReachStep(s: State, a: Action)
    requires Reachable(s) && Enabled(s, a)
    ensures Reachable(Apply(s, a))
  {
    var run :| Run(INIT, run) == Some(s);
    RunAppend(INIT, run, a);
  }

  lemma ReachInit()
    ensures Reachable(INIT)
  {
    assert Run(INIT, []) == Some(INIT);
  }

  /** One buffer has been pushed, drained and refused by WSASend; the owner is about to handle the error. */
  function Refused(b: Bytes): State {
    State(Shared([], true, true, [b]), map[0 := Failing], 0, [b], [Batch([b], false)], false)
  }

  /** The buffer has been pushed and its Send is about to call RegisterSend. */
  function Registered(b: Bytes): State {
    State(Shared([b], true, true, []), map[0 := Registering], 0, [b], [], false)
  }

  lemma ReachRegistered(b: Bytes)
    ensures Reachable(Registered(b))
  {
    ReachInit();
    var s1 := Apply(INIT, SetConnected(true));
    ReachStep(INIT, SetConnected(true));
    var s2 := Apply(s1, Push(0, b));
    ReachStep(s1, Push(0, b));
    ReachStep(s2, Exchange(0));
    assert Apply(s2, Exchange(0)) == Registered(b);
  }

  /** The owner has drained the queue and is about to call WSASend. */
  function AboutToSubmit(b: Bytes): State {
    State(Shared([], true, true, [b]), map[0 := Submitting], 0, [b], [], false)
  }

  lemma ReachAboutToSubmit(b: Bytes)
    ensures Reachable(AboutToSubmit(b))
  {
    ReachRegistered(b);
    var s3 := Registered(b);
    var s4 := Apply(s3, TestConnected(0));
    ReachStep(s3, TestConnected(0));
    ReachStep(s4, Drain(0));
    assert [] + [b] == [b];
    assert Apply(s4, Drain(0)) == AboutToSubmit(b);
  }

  lemma ReachRefused(b: Bytes)
    ensures Reachable(Refused(b))
  {
    ReachAboutToSubmit(b);
    ReachStep(AboutToSubmit(b), Submit(0, false));
    assert [] + [Batch([b], false)] == [Batch([b], false)];
    assert Apply(AboutToSubmit(b), Submit(0, false)) == Refused(b);
  }

  /** A completion of zero bytes takes the session down and loses the token: even if the session is connected again, the
      flag stays up. */
  lemma ZeroBytesLoseToken(b: Bytes)
    ensures exists s :: Reachable(s) && s.sh == Shared([], true, false, []) && s.dropped
                        && s.batches == [Batch([b], true)]
    ensures exists s :: Reachable(s) && s.sh == Shared([], true, true, []) && s.dropped
                        && s.batches == [Batch([b], true)]
  {
    ReachAboutToSubmit(b);
    hide Reachable;
    var s1 := Apply(AboutToSubmit(b), Submit(0, true));
    ReachStep(AboutToSubmit(b), Submit(0, true));
    assert s1.batches == [] + [Batch([b], true)] == [Batch([b], true)];
    var s2 := Apply(s1, Complete(0, 0));
    ReachStep(s1, Complete(0, 0));
    var s3 := Apply(s2, Clear(0));
    ReachStep(s2, Clear(0));
    var s4 := Apply(s3, TestBytes(0));
    ReachStep(s3, TestBytes(0));
    assert s4.sh == Shared([], true, false, []);
    ReachStep(s4, SetConnected(true));
  }

  /** A second buffer has entered the queue, and its Send has gone away because the flag was up. */
  function RefusedAndPushed(b: Bytes, c: Bytes): State {
    State(Shared([c], true, true, [b]), map[0 := Failing, 1 := Idle], 0, [b, c], [Batch([b], false)], false)
  }

  lemma ReachRefusedAndPushed(b: Bytes, c: Bytes)
    ensures Reachable(RefusedAndPushed(b, c))
  {
    ReachRefused(b);
    hide Reachable;
    var s6 := Refused(b);
    var s7 := Apply(s6, Push(1, c));
    ReachStep(s6, Push(1, c));
    ReachStep(s7, Exchange(1));
    assert Apply(s7, Exchange(1)) == RefusedAndPushed(b, c);
  }

  /** The run in which a wakeup is lost: thread 0's batch is refused; before it lowers the flag thread 1 pushes, finds
      the flag up and goes away; then the flag goes down. The session is connected, the buffer waits, nobody cares. */
  lemma RefusedBatchStrandsBuffer(b: Bytes, c: Bytes)
    ensures exists s :: Reachable(s) && Stranded(s)
                        && s.sh == Shared([c], false, true, []) && !Owned(s) && s.inFlight == 0
  {
    ReachRefusedAndPushed(b, c);
    var s8 := RefusedAndPushed(b, c);
    var s9 := Apply(s8, HandleError(0, false));
    ReachStep(s8, HandleError(0, false));
    var s10 := Apply(s9, Clear(0));
    ReachStep(s9, Clear(0));
    var s11 := Apply(s10, Release(0));
    ReachStep(s10, Release(0));
    assert forall t :: PhaseOf(s11, t).Idle?;
    assert Stranded(s11);
  }

  /** A Send on a session that is not connected yet loses the token: after the connection comes up the flag is still
      up, and by LostTokenSendsNothing no buffer will ever leave this session. */
  lemma EarlySendLosesToken(b: Bytes)
    ensures exists s :: Reachable(s) && s.sh.connected && s.dropped && s.sh.queue == [b]
  {
    ReachInit();
    var s1 := Apply(INIT, Push(0, b));
    ReachStep(INIT, Push(0, b));
    var s2 := Apply(s1, Exchange(0));
    ReachStep(s1, Exchange(0));
    var s3 := Apply(s2, TestConnected(0));
    ReachStep(s2, TestConnected(0));
    ReachStep(s3, SetConnected(true));
  }
}
