/**
 The send side of a session: any number of threads call Send, one atomic flag (_sendRegistered) is the token for
 the right to use _sendEvent, and completions come back from the port on any thread. The lock protects _sendQueue;
 the flag is also written without it (the failure path of RegisterSend), so Send's push and its exchange are two
 steps of the machine, taken while the lock is held. WSASend either accepts the batch, and then gives exactly one
 completion, or refuses it at once and gives none.
 */
module SendProtocol {
  import opened Wrappers
  import opened Framing

  type Tid = nat

  // ---------------------------------------------------------------- shared data

  /** The fields of Session the send side shares between threads. */
  datatype Shared = Shared(
    queue: seq<Bytes>,       // _sendQueue
    registered: bool,        // _sendRegistered
    connected: bool,         // _connected
    eventBufs: seq<Bytes>)   // _sendEvent.sendBuffers

  // What each critical section and each atomic access does to them.

  function Pushed(sh: Shared, buf: Bytes): Shared {
    sh.(queue := sh.queue + [buf])
  }

  function Exchanged(sh: Shared): Shared {
    sh.(registered := true)
  }

  function Drained(sh: Shared): Shared {
    sh.(queue := [], eventBufs := sh.eventBufs + sh.queue)
  }

  function Cleared(sh: Shared): Shared {
    sh.(eventBufs := [])
  }

  function Lowered(sh: Shared): Shared {
    sh.(registered := false)
  }

  function Finished(sh: Shared): Shared {
    if sh.queue == [] then Lowered(sh) else sh
  }

  /** The critical sections and atomic accesses of Session.cpp, as the code performs them. */
  class SendSide {
    var sendQueue: seq<Bytes>
    var sendRegistered: bool
    var connected: bool
    var sendBuffers: seq<Bytes>

    ghost function View(): Shared
      reads this
    {
      Shared(sendQueue, sendRegistered, connected, sendBuffers)
    }

    constructor ()
      ensures View() == Shared([], false, false, [])
    {
      sendQueue, sendRegistered, connected, sendBuffers := [], false, false, [];
    }

    method Push(sendBuffer: Bytes)
      modifies this`sendQueue
      ensures View() == Pushed(old(View()), sendBuffer)
    {
      sendQueue := sendQueue + [sendBuffer];
    }

    method Exchange() returns (was: bool)
      modifies this`sendRegistered
      ensures was == old(sendRegistered) && View() == Exchanged(old(View()))
    {
      was := sendRegistered;
      sendRegistered := true;
    }

    /** Send, under the lock: the caller that finds the flag down becomes the one to call RegisterSend. The failure path
        may lower the flag between the two accesses, so the machine takes them as two steps. */
    method PushAndExchange(sendBuffer: Bytes) returns (registerSend: bool)
      modifies this
      ensures registerSend == !old(sendRegistered)
      ensures View() == Exchanged(Pushed(old(View()), sendBuffer))
    {
      Push(sendBuffer);
      var was := Exchange();
      registerSend := was == false;
    }

    method ClearBuffers()
      modifies this`sendBuffers
      ensures View() == Cleared(old(View()))
    {
      sendBuffers := [];
    }

    method LowerFlag()
      modifies this`sendRegistered
      ensures View() == Lowered(old(View()))
    {
      sendRegistered := false;
    }

    /** RegisterSend, under the lock: the whole queue moves to the event, front first. */
    method DrainQueue()
      modifies this
      ensures View() == Drained(old(View()))
    {
      while sendQueue != []
        invariant sendBuffers + sendQueue == old(sendBuffers + sendQueue)
        invariant sendRegistered == old(sendRegistered) && connected == old(connected)
        decreases |sendQueue|
      {
        var sendBuffer := sendQueue[0];
        sendQueue := sendQueue[1..];
        sendBuffers := sendBuffers + [sendBuffer];
      }
    }

    /** ProcessSend, under the lock: put the token down, or keep it and register again. */
    method FinishOrRegister() returns (registerSend: bool)
      modifies this
      ensures registerSend == (old(sendQueue) != [])
      ensures View() == Finished(old(View()))
    {
      registerSend := false;
      if sendQueue == [] {
        LowerFlag();
      } else {
        registerSend := true;
      }
    }
  }

  // ---------------------------------------------------------------- the machine

  /** What a thread is about to do. */
  datatype Phase =
    | Idle
    | Exchanging              // Send: holds the lock, has pushed, has not exchanged the flag
    | Registering             // RegisterSend: about to test IsConnected
    | Preparing               // RegisterSend: connected; about to drain the queue under the lock
    | Submitting              // RegisterSend: about to call WSASend
    | Failing                 // WSASend refused the batch: about to run HandleError
    | Clearing                // failure path: about to clear sendBuffers
    | Releasing               // failure path: about to store false into the flag
    | Completing(bytes: nat)  // ProcessSend: completion dequeued, about to clear sendBuffers
    | Completed(bytes: nat)   // ProcessSend: about to look at numOfBytes
    | Finishing               // ProcessSend: about to test the queue under the lock

  /** A call of WSASend: what it was given and whether it was accepted. */
  datatype Batch = Batch(bufs: seq<Bytes>, accepted: bool)

  datatype State = State(
    sh: Shared,
    threads: map<Tid, Phase>,  // a thread not listed is idle
    inFlight: nat,             // accepted operations on _sendEvent whose completion has not been dequeued
    pushed: seq<Bytes>,        // history: buffers in the order they entered the queue
    batches: seq<Batch>,       // history: calls of WSASend
    dropped: bool)             // history: some thread gave up the token with the flag still up

  datatype Action =
    | Push(t: Tid, buf: Bytes)
    | Exchange(t: Tid)
    | TestConnected(t: Tid)
    | Drain(t: Tid)
    | Submit(t: Tid, accepted: bool)
    | HandleError(t: Tid, disconnects: bool)
    | Clear(t: Tid)
    | Release(t: Tid)
    | Complete(t: Tid, bytes: nat)
    | TestBytes(t: Tid)
    | Finish(t: Tid)
    | SetConnected(up: bool)   // ProcessConnect, or a Disconnect from elsewhere

  const INIT := State(Shared([], false, false, []), map[], 0, [], [], false)

  function PhaseOf(s: State, t: Tid): Phase {
    if t in s.threads then s.threads[t] else Idle
  }

  function Move(s: State, t: Tid, p: Phase): State {
    s.(threads := s.threads[t := p])
  }

  predicate LockFree(s: State) {
    forall t :: t in s.threads ==> s.threads[t] != Exchanging
  }

  predicate Enabled(s: State, a: Action) {
    match a
    case Push(t, _) => PhaseOf(s, t).Idle? && LockFree(s)
    case Exchange(t) => PhaseOf(s, t).Exchanging?
    case TestConnected(t) => PhaseOf(s, t).Registering?
    case Drain(t) => PhaseOf(s, t).Preparing? && LockFree(s)
    case Submit(t, _) => PhaseOf(s, t).Submitting?
    case HandleError(t, _) => PhaseOf(s, t).Failing?
    case Clear(t) => PhaseOf(s, t).Clearing? || PhaseOf(s, t).Completing?
    case Release(t) => PhaseOf(s, t).Releasing?
    case Complete(t, _) => PhaseOf(s, t).Idle? && s.inFlight > 0
    case TestBytes(t) => PhaseOf(s, t).Completed?
    case Finish(t) => PhaseOf(s, t).Finishing? && LockFree(s)
    case SetConnected(_) => true
  }

  function Apply(s: State, a: Action): State
    requires Enabled(s, a)
  {
    match a
    case Push(t, buf) =>
      Move(s.(sh := Pushed(s.sh, buf), pushed := s.pushed + [buf]), t, Exchanging)
    case Exchange(t) =>
      Move(s.(sh := Exchanged(s.sh)), t, if s.sh.registered then Idle else Registering)
    case TestConnected(t) =>
      if s.sh.connected then Move(s, t, Preparing) else Move(s.(dropped := true), t, Idle)
    case Drain(t) =>
      Move(s.(sh := Drained(s.sh)), t, Submitting)
    case Submit(t, accepted) =>
      var s' := s.(batches := s.batches + [Batch(s.sh.eventBufs, accepted)]);
      if accepted then Move(s'.(inFlight := s.inFlight + 1), t, Idle) else Move(s', t, Failing)
    case HandleError(t, disconnects) =>
      Move(s.(sh := s.sh.(connected := s.sh.connected && !disconnects)), t, Clearing)
    case Clear(t) =>
      var p := PhaseOf(s, t);
      Move(s.(sh := Cleared(s.sh)), t, if p.Completing? then Completed(p.bytes) else Releasing)
    case Release(t) =>
      Move(s.(sh := Lowered(s.sh)), t, Idle)
    case Complete(t, bytes) =>
      Move(s.(inFlight := s.inFlight - 1), t, Completing(bytes))
    case TestBytes(t) =>
      if PhaseOf(s, t).bytes == 0
      then Move(s.(sh := s.sh.(connected := false), dropped := true), t, Idle)
      else Move(s, t, Finishing)
    case Finish(t) =>
      Move(s.(sh := Finished(s.sh)), t, if s.sh.queue == [] then Idle else Registering)
    case SetConnected(up) =>
      s.(sh := s.sh.(connected := up))
  }

  /** The state after a run, if every action of it was enabled when its turn came. */
  function Run(s: State, run: seq<Action>): Option<State>
    decreases |run|
  {
    if run == [] then Some(s)
    else if Enabled(s, run[0]) then Run(Apply(s, run[0]), run[1..])
    else None
  }

  ghost predicate Reachable(s: State) {
    exists run :: Run(INIT, run) == Some(s)
  }

  // ---------------------------------------------------------------- the invariant

  /** The phases in which a thread holds the token and may touch _sendEvent. */
  predicate Owning(p: Phase) {
    !p.Idle? && !p.Exchanging?
  }

  predicate Owns(s: State, t: Tid) {
    Owning(PhaseOf(s, t))
  }

  predicate HoldsLock(s: State, t: Tid) {
    PhaseOf(s, t).Exchanging?
  }

  ghost predicate Owned(s: State) {
    exists t :: Owns(s, t)
  }

  ghost predicate Locked(s: State) {
    exists t :: HoldsLock(s, t)
  }

  /** At most one thread or outstanding operation has the token, and while any has it the flag is up. */
  ghost predicate Exclusive(s: State) {
    && (forall t, u :: Owns(s, t) && Owns(s, u) ==> t == u)
    && (forall t, u :: HoldsLock(s, t) && HoldsLock(s, u) ==> t == u)
    && s.inFlight <= 1
    && (s.inFlight == 1 ==> !Owned(s))
    && (Owned(s) || s.inFlight == 1 ==> s.sh.registered)
    && (s.dropped ==> s.sh.registered && !Owned(s) && s.inFlight == 0)
    && (s.sh.registered ==> Owned(s) || s.inFlight == 1 || s.dropped)
  }

  function Flatten(bs: seq<Batch>): seq<Bytes> {
    if bs == [] then [] else Flatten(bs[..|bs| - 1]) + bs[|bs| - 1].bufs
  }

  /** What the owner has taken off the queue and not yet given to WSASend. */
  ghost function Pending(s: State): seq<Bytes> {
    if SomeoneSubmits(s) then s.sh.eventBufs else []
  }

  ghost predicate SomeoneSubmits(s: State) {
    exists t :: PhaseOf(s, t).Submitting?
  }

  /** Buffers are never lost, doubled or reordered between the queue and WSASend. */
  ghost predicate Conserved(s: State) {
    s.pushed == Flatten(s.batches) + Pending(s) + s.sh.queue
  }

  predicate NonemptyBatches(s: State) {
    forall b :: b in s.batches ==> b.bufs != []
  }

  /** What a thread in phase p knows about the event, the queue and the batches. */
  predicate PhaseFact(s: State, p: Phase) {
    && (p.Exchanging? || p.Registering? || p.Preparing? ==> s.sh.queue != [])
    && (p.Registering? || p.Preparing? || p.Releasing? || p.Completed? || p.Finishing? ==> s.sh.eventBufs == [])
    && (p.Submitting? ==> s.sh.eventBufs != [])
    && (p.Failing? || p.Clearing? || p.Releasing? ==> s.batches != [] && !s.batches[|s.batches| - 1].accepted)
  }

  ghost predicate PhaseFacts(s: State) {
    forall t :: PhaseFact(s, PhaseOf(s, t))
  }

  /** With no token out the event is empty; while the kernel has a batch the event keeps its buffers alive. */
  ghost predicate EventFacts(s: State) {
    && (!Owned(s) && s.inFlight == 0 ==> s.sh.eventBufs == [])
    && (s.inFlight == 1 ==> s.batches != [] && s.batches[|s.batches| - 1] == Batch(s.sh.eventBufs, true))
  }

  predicate AllAccepted(s: State) {
    forall b :: b in s.batches ==> b.accepted
  }

  /** Buffers wait in the queue, nobody has the token, and no Send is about to take it. */
  ghost predicate Stranded(s: State) {
    !s.sh.registered && s.sh.queue != [] && !Locked(s)
  }

  ghost predicate Inv(s: State) {
    && Exclusive(s)
    && Conserved(s)
    && NonemptyBatches(s)
    && PhaseFacts(s)
    && EventFacts(s)
    && (AllAccepted(s) ==> !Stranded(s))
  }

  // ---------------------------------------------------------------- every step keeps the invariant

  lemma {:induction false} FlattenAppend(bs: seq<Batch>, b: Batch)
    ensures Flatten(bs + [b]) == Flatten(bs) + b.bufs
  {
    assert (bs + [b])[..|bs|] == bs;
  }

  predicate IsActor(a: Action, t: Tid) {
    !a.SetConnected? && a.t == t
  }

  /** A step changes the phase of nobody but its own thread. */
  lemma OthersStay(s: State, a: Action)
    requires Enabled(s, a)
    ensures var s' := Apply(s, a);
            && (forall t :: !IsActor(a, t) ==> PhaseOf(s', t) == PhaseOf(s, t))
            && (forall t :: !IsActor(a, t) ==> Owns(s', t) == Owns(s, t))
            && (forall t :: !IsActor(a, t) ==> HoldsLock(s', t) == HoldsLock(s, t))
  {
  }

  lemma LockFreeMeansUnlocked(s: State)
    ensures LockFree(s) <==> !Locked(s)
  {
    if !LockFree(s) {
      var t :| t in s.threads && s.threads[t] == Exchanging;
      assert HoldsLock(s, t);
    }
  }

  /** How a step changes who owns and who locks. */
  lemma OwnershipStep(s: State, a: Action)
    requires Inv(s) && Enabled(s, a)
    ensures var s' := Apply(s, a);
            && (a.SetConnected? ==> Owned(s') == Owned(s) && Locked(s') == Locked(s))
            && (!a.SetConnected? && Owns(s, a.t) ==> Owned(s') == Owns(s', a.t))
            && (!a.SetConnected? && !Owns(s, a.t) && !Owns(s', a.t) ==> Owned(s') == Owned(s))
            && (!a.SetConnected? && Owns(s', a.t) ==> Owned(s'))
            && (a.Push? ==> Locked(s'))
            && (a.Exchange? ==> !Locked(s'))
            && (!a.Push? && !a.Exchange? ==> Locked(s') == Locked(s))
  {
    var s' := Apply(s, a);
    OthersStay(s, a);
    LockFreeMeansUnlocked(s);
    if a.SetConnected? {
      if Owned(s) { var t :| Owns(s, t); assert Owns(s', t); }
      if Locked(s) { var t :| HoldsLock(s, t); assert HoldsLock(s', t); }
    } else {
      assert HoldsLock(s, a.t) <==> a.Exchange?;
      assert HoldsLock(s', a.t) <==> a.Push?;
      if Owned(s) { var t :| Owns(s, t); assert t == a.t || Owns(s', t); }
      if Locked(s) { var t :| HoldsLock(s, t); assert t == a.t || HoldsLock(s', t); }
    }
  }

  lemma StepKeepsOneEach(s: State, a: Action)
    requires Exclusive(s) && Enabled(s, a)
    ensures var s' := Apply(s, a);
            && (forall t, u :: Owns(s', t) && Owns(s', u) ==> t == u)
            && (forall t, u :: HoldsLock(s', t) && HoldsLock(s', u) ==> t == u)
  {
    OthersStay(s, a);
    LockFreeMeansUnlocked(s);
    if !a.SetConnected? {
      assert Owns(s, a.t) <==> !a.Push? && !a.Exchange? && !a.Complete?;
      assert a.Push? ==> forall t :: !HoldsLock(s, t);
      assert a.Complete? || (a.Exchange? && !s.sh.registered) ==> forall t :: !Owns(s, t);
    }
  }

  lemma StepKeepsExclusive(s: State, a: Action)
    requires Inv(s) && Enabled(s, a)
    ensures Exclusive(Apply(s, a))
  {
    StepKeepsOneEach(s, a);
    OwnershipStep(s, a);
    if !a.SetConnected? {
      assert PhaseFact(s, PhaseOf(s, a.t));
      assert Owns(s, a.t) <==> !a.Push? && !a.Exchange? && !a.Complete?;
      assert Owns(s, a.t) ==> Owned(s);
    }
    hide Owned, Locked, LockFree;
  }

  /** The batch in the owner's hands appears with Drain, leaves with Submit, and nothing else touches it. */
  lemma PendingStep(s: State, a: Action)
    requires Inv(s) && Enabled(s, a)
    ensures var s' := Apply(s, a);
            && (a.Drain? ==> Pending(s) == [] && Pending(s') == s.sh.queue)
            && (a.Submit? ==> Pending(s) == s.sh.eventBufs && Pending(s') == [])
            && (!a.Drain? && !a.Submit? ==> Pending(s') == Pending(s))
  {
    var s' := Apply(s, a);
    OthersStay(s, a);
    if a.Drain? || a.Submit? {
      assert Owns(s, a.t) && PhaseFact(s, PhaseOf(s, a.t));
      assert forall t :: PhaseOf(s, t).Submitting? ==> Owns(s, t);
      assert forall t :: t != a.t && PhaseOf(s', t).Submitting? ==> Owns(s, t);
      assert PhaseOf(s', a.t).Submitting? <==> a.Drain?;
    } else {
      assert a.SetConnected? || (!PhaseOf(s', a.t).Submitting? && !PhaseOf(s, a.t).Submitting?);
      if SomeoneSubmits(s) {
        var t :| PhaseOf(s, t).Submitting?;
        assert Owns(s, t) && PhaseOf(s', t).Submitting?;
        assert a.SetConnected? || !Owns(s, a.t);
      }
    }
  }

  /** How a step changes what was pushed, what was given to WSASend and what is queued. */
  lemma BufferStep(s: State, a: Action)
    requires Enabled(s, a)
    ensures var s' := Apply(s, a);
            && s'.pushed == (if a.Push? then s.pushed + [a.buf] else s.pushed)
            && s'.sh.queue == (if a.Push? then s.sh.queue + [a.buf] else if a.Drain? then [] else s.sh.queue)
            && Flatten(s'.batches) == (if a.Submit? then Flatten(s.batches) + s.sh.eventBufs else Flatten(s.batches))
  {
    if a.Submit? {
      FlattenAppend(s.batches, Batch(s.sh.eventBufs, a.accepted));
    }
  }

  lemma Regroup<T>(f: seq<T>, p: seq<T>, q: seq<T>, x: seq<T>)
    ensures (f + p + q) + x == f + p + (q + x)
    ensures f + [] + q == f + q + []
    ensures f + p + q == (f + p) + [] + q
  {
  }

  lemma StepKeepsConserved(s: State, a: Action)
    requires Inv(s) && Enabled(s, a)
    ensures Conserved(Apply(s, a))
  {
    PendingStep(s, a);
    BufferStep(s, a);
    Regroup(Flatten(s.batches), Pending(s), s.sh.queue, if a.Push? then [a.buf] else []);
  }

  lemma StepKeepsNonemptyBatches(s: State, a: Action)
    requires Inv(s) && Enabled(s, a)
    ensures NonemptyBatches(Apply(s, a))
  {
    if a.Submit? {
      assert PhaseFact(s, PhaseOf(s, a.t));
    }
  }

  /** What a thread knows is not disturbed by a step of another one. */
  lemma OtherFactStays(s: State, a: Action, t: Tid)
    requires Inv(s) && Enabled(s, a) && !IsActor(a, t)
    ensures PhaseFact(Apply(s, a), PhaseOf(s, t))
  {
    assert PhaseFact(s, PhaseOf(s, t));
    LockFreeMeansUnlocked(s);
    if !a.SetConnected? {
      assert Owns(s, t) ==> !Owns(s, a.t);
      assert HoldsLock(s, t) ==> Locked(s);
    }
  }

  lemma StepKeepsPhaseFacts(s: State, a: Action)
    requires Inv(s) && Enabled(s, a)
    ensures PhaseFacts(Apply(s, a))
  {
    var s' := Apply(s, a);
    OthersStay(s, a);
    forall t ensures PhaseFact(s', PhaseOf(s', t)) {
      if !IsActor(a, t) {
        OtherFactStays(s, a, t);
      } else {
        assert PhaseFact(s, PhaseOf(s, t));
        assert !Owns(s, t) && !Owned(s) && s.inFlight == 0 ==> s.sh.eventBufs == [];
      }
    }
  }

  lemma StepKeepsEventFacts(s: State, a: Action)
    requires Inv(s) && Enabled(s, a)
    ensures EventFacts(Apply(s, a))
  {
    OwnershipStep(s, a);
    if !a.SetConnected? {
      assert PhaseFact(s, PhaseOf(s, a.t));
      assert Owns(s, a.t) <==> !a.Push? && !a.Exchange? && !a.Complete?;
    }
  }

  /** Only the failure path can strand buffers. */
  lemma StepKeepsUnstranded(s: State, a: Action)
    requires Inv(s) && Enabled(s, a) && AllAccepted(Apply(s, a))
    ensures AllAccepted(s) && !Stranded(Apply(s, a))
  {
    var s' := Apply(s, a);
    OwnershipStep(s, a);
    assert forall b :: b in s.batches ==> b in s'.batches;
    if !a.SetConnected? {
      assert PhaseFact(s, PhaseOf(s, a.t));
    }
  }

  lemma StepKeepsInv(s: State, a: Action)
    requires Inv(s) && Enabled(s, a)
    ensures Inv(Apply(s, a))
  {
    StepKeepsExclusive(s, a);
    StepKeepsConserved(s, a);
    StepKeepsNonemptyBatches(s, a);
    StepKeepsPhaseFacts(s, a);
    StepKeepsEventFacts(s, a);
    if AllAccepted(Apply(s, a)) {
      StepKeepsUnstranded(s, a);
    }
  }

  lemma {:induction false} RunKeepsInv(s: State, run: seq<Action>)
    requires Inv(s) && Run(s, run).Some?
    ensures Inv(Run(s, run).value)
    decreases |run|
  {
    if run != [] {
      StepKeepsInv(s, run[0]);
      RunKeepsInv(Apply(s, run[0]), run[1..]);
    }
  }

  // ---------------------------------------------------------------- safety, over every run

  /** The whole safety claim for a reachable state, in terms of threads, the kernel and the buffers. */
  ghost predicate Safe(s: State) {
    // one thread or one outstanding operation uses _sendEvent
    && (forall t, u :: Owns(s, t) && Owns(s, u) ==> t == u)
    && s.inFlight <= 1
    && (s.inFlight == 1 ==> forall t :: !Owns(s, t))
    // the batches given to WSASend, then the batch in the owner's hands, then the queue: the pushes, in lock order
    && s.pushed == Flatten(s.batches) + Pending(s) + s.sh.queue
    && (forall b :: b in s.batches ==> b.bufs != [])
    // the event holds on to the buffers the kernel is reading
    && (s.inFlight == 1 ==> s.batches != [] && s.sh.eventBufs == s.batches[|s.batches| - 1].bufs)
    // the flag is up while anything is under way, and down only if nothing waits
    && (Owned(s) || s.inFlight == 1 ==> s.sh.registered)
    && (AllAccepted(s) && !s.sh.registered ==> s.sh.queue == [] || Locked(s))
    // the token is lost exactly when the flag is up with nothing behind it
    && (s.dropped <==> s.sh.registered && !Owned(s) && s.inFlight == 0)
  }

  /** Every interleaving of sends, completions, failures, connects and disconnects is safe. */
  lemma EveryRunIsSafe(s: State)
    requires Reachable(s)
    ensures Inv(s) && Safe(s)
  {
    var run :| Run(INIT, run) == Some(s);
    assert forall t :: PhaseOf(INIT, t).Idle?;
    RunKeepsInv(INIT, run);
  }
}
