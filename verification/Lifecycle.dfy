/**
 Connecting and disconnecting: Session::ProcessConnect, Session::Disconnect and the session table of Service with its
 redundant counter. Any number of threads and completions call Disconnect; the atomic exchange on _connected elects one.
 */
module Lifecycle {
  import opened Wrappers

  type Tid = nat
  type Sid = nat

  // ---------------------------------------------------------------- the session table

  /** _sessions and _sessionCount. */
  datatype Table = Table(sessions: set<Sid>, count: int)

  function Inserted(table: Table, sid: Sid): Table {
    Table(table.sessions + {sid}, table.count + 1)
  }

  /** The assert fails, and the counter is left alone, if there is nothing to erase. */
  function Erased(table: Table, sid: Sid): Table {
    if sid in table.sessions then Table(table.sessions - {sid}, table.count - 1) else table
  }

  /** The part of Service the lock protects. */
  class Service {
    var sessions: set<Sid>
    var sessionCount: int

    ghost function View(): Table
      reads this
    {
      Table(sessions, sessionCount)
    }

    constructor ()
      ensures View() == Table({}, 0)
    {
      sessions, sessionCount := {}, 0;
    }

    /** The counter follows the set exactly when the session was not in it. */
    method AddSession(session: Sid)
      modifies this
      ensures View() == Inserted(old(View()), session)
      ensures old(sessionCount) == |old(sessions)| ==> (sessionCount == |sessions| <==> session !in old(sessions))
    {
      sessionCount := sessionCount + 1;
      sessions := sessions + {session};
    }

    /** assert(_sessions.erase(session) != 0), taken as executed; asserted reports whether it held. */
    method ReleaseSession(session: Sid) returns (asserted: bool)
      modifies this
      ensures asserted <==> session in old(sessions)
      ensures View() == Erased(old(View()), session)
      ensures old(sessionCount) == |old(sessions)| ==> sessionCount == |sessions|
    {
      var erased := session in sessions;
      sessions := sessions - {session};
      if !erased {
        return false;
      }
      sessionCount := sessionCount - 1;
      return true;
    }
  }

  // ---------------------------------------------------------------- the machine

  /** What a thread is about to do for a session. */
  datatype Phase =
    | Idle
    | Adding(sid: Sid)      // ProcessConnect: has stored true into _connected; about to call AddSession
    | Notifying(sid: Sid)   // Disconnect: won the exchange; about to call OnDisconnected
    | Removing(sid: Sid)    // Disconnect: about to call ReleaseSession

  datatype Event = Connecting(sid: Sid) | Disconnected(sid: Sid) | Released(sid: Sid)

  datatype State = State(
    connected: set<Sid>,       // sessions whose _connected is true
    sessions: set<Sid>,        // Service::_sessions
    sessionCount: int,         // Service::_sessionCount
    threads: map<Tid, Phase>,
    log: seq<Event>,           // history: callbacks and table operations
    assertFailed: bool)        // history: the assert in ReleaseSession failed

  datatype Action =
    | BeginConnect(t: Tid, sid: Sid)
    | Add(t: Tid)
    | CallDisconnect(t: Tid, sid: Sid)
    | Notify(t: Tid)
    | Remove(t: Tid)

  const INIT := State({}, {}, 0, map[], [], false)

  function PhaseOf(s: State, t: Tid): Phase {
    if t in s.threads then s.threads[t] else Idle
  }

  function TableOf(s: State): Table {
    Table(s.sessions, s.sessionCount)
  }

  function Move(s: State, t: Tid, p: Phase): State {
    s.(threads := s.threads[t := p])
  }

  predicate Enabled(s: State, a: Action) {
    match a
    case BeginConnect(t, _) => PhaseOf(s, t).Idle?
    case Add(t) => PhaseOf(s, t).Adding?
    case CallDisconnect(t, _) => PhaseOf(s, t).Idle?
    case Notify(t) => PhaseOf(s, t).Notifying?
    case Remove(t) => PhaseOf(s, t).Removing?
  }

  function Apply(s: State, a: Action): State
    requires Enabled(s, a)
  {
    match a
    case BeginConnect(t, sid) =>
      Move(s.(connected := s.connected + {sid}, log := s.log + [Connecting(sid)]), t, Adding(sid))
    case Add(t) =>
      var sid := PhaseOf(s, t).sid;
      var table := Inserted(TableOf(s), sid);
      Move(s.(sessions := table.sessions, sessionCount := table.count), t, Idle)
    case CallDisconnect(t, sid) =>
      if sid in s.connected then Move(s.(connected := s.connected - {sid}), t, Notifying(sid)) else s
    case Notify(t) =>
      var sid := PhaseOf(s, t).sid;
      Move(s.(log := s.log + [Disconnected(sid)]), t, Removing(sid))
    case Remove(t) =>
      var sid := PhaseOf(s, t).sid;
      var table := Erased(TableOf(s), sid);
      if sid in s.sessions
      then Move(s.(sessions := table.sessions, sessionCount := table.count, log := s.log + [Released(sid)]), t, Idle)
      else Move(s.(assertFailed := true), t, Idle)
  }

  function Run(s: State, run: seq<Action>): Option<State>
    decreases |run|
  {
    if run == [] then Some(s)
    else if Enabled(s, run[0]) then Run(Apply(s, run[0]), run[1..])
    else None
  }

  // ---------------------------------------------------------------- the discipline

  predicate AddsNow(s: State, t: Tid, sid: Sid) { PhaseOf(s, t) == Adding(sid) }

  predicate NotifiesNow(s: State, t: Tid, sid: Sid) { PhaseOf(s, t) == Notifying(sid) }

  predicate RemovesNow(s: State, t: Tid, sid: Sid) { PhaseOf(s, t) == Removing(sid) }

  ghost predicate Adds(s: State, sid: Sid) { exists t :: AddsNow(s, t, sid) }

  ghost predicate Notifies(s: State, sid: Sid) { exists t :: NotifiesNow(s, t, sid) }

  ghost predicate Removes(s: State, sid: Sid) { exists t :: RemovesNow(s, t, sid) }

  /** Some thread is in the middle of Disconnect for the session. */
  ghost predicate Leaves(s: State, sid: Sid) { Notifies(s, sid) || Removes(s, sid) }

  /** A session is only connected when nothing of an earlier connection is left. The code does not check it. */
  ghost predicate Polite(s: State, a: Action) {
    a.BeginConnect? ==>
      a.sid !in s.connected && a.sid !in s.sessions && !Adds(s, a.sid) && !Leaves(s, a.sid)
  }

  /** Disconnect is not called between the store in ProcessConnect and its AddSession. Not checked either. */
  predicate Patient(s: State, a: Action) {
    a.CallDisconnect? && a.sid in s.connected ==> a.sid in s.sessions
  }

  ghost predicate PoliteRun(s: State, run: seq<Action>)
    decreases |run|
  {
    run == [] || (Enabled(s, run[0]) && Polite(s, run[0]) && PoliteRun(Apply(s, run[0]), run[1..]))
  }

  ghost predicate PatientRun(s: State, run: seq<Action>)
    decreases |run|
  {
    run == [] || (Enabled(s, run[0]) && Patient(s, run[0]) && PatientRun(Apply(s, run[0]), run[1..]))
  }

  // ---------------------------------------------------------------- the invariant

  function Count(log: seq<Event>, e: Event): nat {
    if log == [] then 0 else Count(log[..|log| - 1], e) + if log[|log| - 1] == e then 1 else 0
  }

  /** At most one thread does each kind of work on a session. */
  ghost predicate Unique(s: State, sid: Sid) {
    && (forall t, u :: AddsNow(s, t, sid) && AddsNow(s, u, sid) ==> t == u)
    && (forall t, u :: NotifiesNow(s, t, sid) && NotifiesNow(s, u, sid) ==> t == u)
    && (forall t, u :: RemovesNow(s, t, sid) && RemovesNow(s, u, sid) ==> t == u)
  }

  /** Where a session stands: who works on it, whether it is in the table, and what the log says. */
  ghost predicate Standing(s: State, sid: Sid) {
    && !(Notifies(s, sid) && Removes(s, sid))
    && !(sid in s.connected && Leaves(s, sid))
    && (Adds(s, sid) ==> sid !in s.sessions && (sid in s.connected || Leaves(s, sid)))
    && (!Adds(s, sid) ==> (sid in s.sessions <==> sid in s.connected || Leaves(s, sid)))
    && Count(s.log, Connecting(sid)) ==
         Count(s.log, Disconnected(sid)) + (if sid in s.connected || Notifies(s, sid) then 1 else 0)
    && Count(s.log, Disconnected(sid)) == Count(s.log, Released(sid)) + (if Removes(s, sid) then 1 else 0)
  }

  ghost predicate Facts(s: State, sid: Sid) {
    Unique(s, sid) && Standing(s, sid)
  }

  ghost predicate Inv(s: State) {
    && (forall sid :: Facts(s, sid))
    && s.sessionCount == |s.sessions|
    && !s.assertFailed
  }

  lemma CountAppend(log: seq<Event>, e: Event, x: Event)
    ensures Count(log + [e], x) == Count(log, x) + if e == x then 1 else 0
  {
    assert (log + [e])[..|log|] == log;
  }

  /** The session an action is about. */
  function Subject(s: State, a: Action): Sid
    requires Enabled(s, a)
  {
    match a
    case BeginConnect(_, sid) => sid
    case CallDisconnect(_, sid) => sid
    case _ => PhaseOf(s, a.t).sid
  }

  lemma LogStep(s: State, a: Action, x: Event)
    requires Enabled(s, a)
    ensures var sid := Subject(s, a);
            Count(Apply(s, a).log, x) == Count(s.log, x) +
              if (a.BeginConnect? && x == Connecting(sid)) || (a.Notify? && x == Disconnected(sid)) ||
                 (a.Remove? && sid in s.sessions && x == Released(sid)) then 1 else 0
  {
    var sid := Subject(s, a);
    CountAppend(s.log, Connecting(sid), x);
    CountAppend(s.log, Disconnected(sid), x);
    CountAppend(s.log, Released(sid), x);
  }

  /** A step changes the phase of nobody but its own thread, and nobody's work on another session. */
  lemma OthersStay(s: State, a: Action)
    requires Enabled(s, a)
    ensures var s' := Apply(s, a);
            forall t, sid :: t != a.t || sid != Subject(s, a) ==>
              && AddsNow(s', t, sid) == AddsNow(s, t, sid)
              && NotifiesNow(s', t, sid) == NotifiesNow(s, t, sid)
              && RemovesNow(s', t, sid) == RemovesNow(s, t, sid)
  {
  }

  /** How a step changes who works on a session, when at most one thread does each kind of work on it. */
  lemma WorkStep(s: State, a: Action, sid: Sid)
    requires Enabled(s, a) && Unique(s, sid)
    ensures var s' := Apply(s, a); var mine := sid == Subject(s, a);
            && (Adds(s', sid) <==> if mine && a.BeginConnect? then true
                                   else if mine && a.Add? then false else Adds(s, sid))
            && (Notifies(s', sid) <==> if mine && a.CallDisconnect? && sid in s.connected then true
                                       else if mine && a.Notify? then false else Notifies(s, sid))
            && (Removes(s', sid) <==> if mine && a.Notify? then true
                                      else if mine && a.Remove? then false else Removes(s, sid))
  {
    var s' := Apply(s, a);
    OthersStay(s, a);
    if sid == Subject(s, a) {
      assert AddsNow(s, a.t, sid) <==> a.Add?;
      assert NotifiesNow(s, a.t, sid) <==> a.Notify?;
      assert RemovesNow(s, a.t, sid) <==> a.Remove?;
      assert AddsNow(s', a.t, sid) <==> a.BeginConnect?;
      assert NotifiesNow(s', a.t, sid) <==> a.CallDisconnect? && sid in s.connected;
      assert RemovesNow(s', a.t, sid) <==> a.Notify?;
    }
    if Adds(s, sid) { var t :| AddsNow(s, t, sid); assert t == a.t || AddsNow(s', t, sid); }
    if Notifies(s, sid) { var t :| NotifiesNow(s, t, sid); assert t == a.t || NotifiesNow(s', t, sid); }
    if Removes(s, sid) { var t :| RemovesNow(s, t, sid); assert t == a.t || RemovesNow(s', t, sid); }
  }

  /** In a polite run the assert in ReleaseSession fails exactly when the AddSession of the same session is still to
      come. */
  lemma PoliteStepFailsExactly(s: State, a: Action)
    requires Inv(s) && Enabled(s, a)
    ensures Apply(s, a).assertFailed <==> a.Remove? && Adds(s, Subject(s, a))
  {
    var sid := Subject(s, a);
    assert Facts(s, sid);
    if a.Remove? {
      assert RemovesNow(s, a.t, sid);
    }
  }

  /** A new kind of work only starts when nobody does it yet. */
  lemma StepKeepsUnique(s: State, a: Action, sid: Sid)
    requires Facts(s, sid) && Enabled(s, a) && Polite(s, a)
    ensures Unique(Apply(s, a), sid)
  {
    OthersStay(s, a);
    if sid == Subject(s, a) {
      assert a.BeginConnect? ==> forall t :: !AddsNow(s, t, sid);
      assert a.Notify? ==> NotifiesNow(s, a.t, sid) && forall t :: !RemovesNow(s, t, sid);
      assert a.CallDisconnect? && sid in s.connected ==> forall t :: !NotifiesNow(s, t, sid);
    }
  }

  /** The table and the flags after a step. */
  lemma TableStep(s: State, a: Action, sid: Sid)
    requires Enabled(s, a)
    ensures var s' := Apply(s, a); var mine := sid == Subject(s, a);
            && (sid in s'.connected <==> if mine && a.BeginConnect? then true
                                         else if mine && a.CallDisconnect? then false else sid in s.connected)
            && (sid in s'.sessions <==> if mine && a.Add? then true
                                        else if mine && a.Remove? then false else sid in s.sessions)
            && (s'.assertFailed <==> s.assertFailed || (a.Remove? && Subject(s, a) !in s.sessions))
  {
  }

  /** A thread at work on a session shows in what is being done for it. */
  lemma WorkShows(s: State, a: Action)
    requires Enabled(s, a)
    ensures a.Add? ==> Adds(s, Subject(s, a))
    ensures a.Notify? ==> Notifies(s, Subject(s, a))
    ensures a.Remove? ==> Removes(s, Subject(s, a))
  {
    var sid := Subject(s, a);
    assert a.Add? ==> AddsNow(s, a.t, sid);
    assert a.Notify? ==> NotifiesNow(s, a.t, sid);
    assert a.Remove? ==> RemovesNow(s, a.t, sid);
  }

  lemma StepKeepsStanding(s: State, a: Action, sid: Sid)
    requires Facts(s, sid) && Enabled(s, a) && Polite(s, a) && !Apply(s, a).assertFailed
    ensures Standing(Apply(s, a), sid)
  {
    WorkStep(s, a, sid);
    WorkShows(s, a);
    TableStep(s, a, sid);
    LogStep(s, a, Connecting(sid));
    LogStep(s, a, Disconnected(sid));
    LogStep(s, a, Released(sid));
    hide Adds, Notifies, Removes, Count, Apply, Subject, Enabled, Unique;
  }

  lemma StepKeepsInv(s: State, a: Action)
    requires Inv(s) && Enabled(s, a) && Polite(s, a) && !Apply(s, a).assertFailed
    ensures Inv(Apply(s, a))
  {
    forall sid ensures Facts(Apply(s, a), sid) {
      assert Facts(s, sid);
      StepKeepsUnique(s, a, sid);
      StepKeepsStanding(s, a, sid);
    }
    assert Facts(s, Subject(s, a));
    WorkShows(s, a);
  }

  lemma AssertStaysFailed(s: State, run: seq<Action>)
    requires s.assertFailed && Run(s, run).Some?
    ensures Run(s, run).value.assertFailed
    decreases |run|
  {
  }

  lemma {:induction false} PoliteRunKeepsInv(s: State, run: seq<Action>)
    requires Inv(s) && PoliteRun(s, run)
    ensures Run(s, run).Some?
    ensures Run(s, run).value.assertFailed || Inv(Run(s, run).value)
    decreases |run|
  {
    if run != [] {
      var next := Apply(s, run[0]);
      if next.assertFailed {
        PoliteRunRuns(next, run[1..]);
        AssertStaysFailed(next, run[1..]);
      } else {
        StepKeepsInv(s, run[0]);
        PoliteRunKeepsInv(next, run[1..]);
      }
    }
  }

  lemma PoliteRunRuns(s: State, run: seq<Action>)
    requires PoliteRun(s, run)
    ensures Run(s, run).Some?
    decreases |run|
  {
  }

  lemma InitInv()
    ensures Inv(INIT)
  {
    assert forall t :: PhaseOf(INIT, t).Idle?;
    assert forall t, sid :: !AddsNow(INIT, t, sid) && !NotifiesNow(INIT, t, sid) && !RemovesNow(INIT, t, sid);
  }

  /** In polite runs, until the assert in ReleaseSession fails: each connection is announced as disconnected, and
      released after that, at most once before the next begins; the counter is the size of the set; and the table holds
      exactly the sessions that are connected, as soon as nobody is at work on them. */
  lemma PoliteRunsAgree(run: seq<Action>)
    requires PoliteRun(INIT, run)
    ensures Run(INIT, run).Some?
    ensures var s := Run(INIT, run).value;
            !s.assertFailed ==>
              && s.sessionCount == |s.sessions|
              && (forall sid ::
                    Count(s.log, Released(sid)) <= Count(s.log, Disconnected(sid))
                    <= Count(s.log, Connecting(sid)) <= Count(s.log, Released(sid)) + 1)
              && (forall sid :: !Adds(s, sid) && !Leaves(s, sid) ==> (sid in s.sessions <==> sid in s.connected))
  {
    InitInv();
    PoliteRunKeepsInv(INIT, run);
    var s := Run(INIT, run).value;
    if !s.assertFailed {
      forall sid
        ensures Count(s.log, Released(sid)) <= Count(s.log, Disconnected(sid))
                <= Count(s.log, Connecting(sid)) <= Count(s.log, Released(sid)) + 1
        ensures !Adds(s, sid) && !Leaves(s, sid) ==> (sid in s.sessions <==> sid in s.connected)
      {
        assert Facts(s, sid);
      }
    }
  }

  /** Nobody disconnects a session whose AddSession is still to come. */
  ghost predicate NoRace(s: State) {
    forall sid :: Adds(s, sid) ==> !Leaves(s, sid)
  }

  lemma {:induction false} PatientRunNeverFails(s: State, run: seq<Action>)
    requires Inv(s) && NoRace(s) && PoliteRun(s, run) && PatientRun(s, run)
    ensures Run(s, run).Some? && Inv(Run(s, run).value)
    decreases |run|
  {
    if run != [] {
      var a := run[0];
      var next := Apply(s, a);
      PoliteStepFailsExactly(s, a);
      if a.Remove? {
        assert RemovesNow(s, a.t, Subject(s, a));
      }
      StepKeepsInv(s, a);
      forall sid | Adds(next, sid) ensures !Leaves(next, sid) {
        assert Facts(s, sid);
        WorkStep(s, a, sid);
        assert a.Notify? ==> NotifiesNow(s, a.t, Subject(s, a));
      }
      PatientRunNeverFails(next, run[1..]);
    }
  }

  /** In a polite run in which Disconnect is called only on sessions whose ProcessConnect has reached AddSession, the
      assert always holds. Neither discipline is enough alone: see the last section. */
  lemma EraseAlwaysSucceeds(run: seq<Action>)
    requires PoliteRun(INIT, run) && PatientRun(INIT, run)
    ensures Run(INIT, run).Some? && !Run(INIT, run).value.assertFailed
  {
    InitInv();
    assert forall t :: PhaseOf(INIT, t).Idle?;
    PatientRunNeverFails(INIT, run);
  }

  // ---------------------------------------------------------------- all runs, polite or not

  /** The critical sections of Service in the order in which a run enters them. */
  datatype TableOp = Insert(sid: Sid) | Erase(sid: Sid)

  function OpOf(s: State, a: Action): seq<TableOp>
    requires Enabled(s, a)
  {
    if a.Add? then [Insert(PhaseOf(s, a.t).sid)] else if a.Remove? then [Erase(PhaseOf(s, a.t).sid)] else []
  }

  function TableOps(s: State, run: seq<Action>): seq<TableOp>
    decreases |run|
  {
    if run == [] || !Enabled(s, run[0]) then [] else OpOf(s, run[0]) + TableOps(Apply(s, run[0]), run[1..])
  }

  /** Before operation k the session has been inserted, and not erased since. */
  predicate InsertedBefore(ops: seq<TableOp>, k: nat, sid: Sid)
    requires k <= |ops|
  {
    exists i :: 0 <= i < k && ops[i] == Insert(sid) && (forall m :: i < m < k ==> ops[m] != Erase(sid))
  }

  /** Some session is released that has not been added since it was last released. */
  predicate ErasesAbsent(ops: seq<TableOp>) {
    exists k :: 0 <= k < |ops| && ops[k].Erase? && !InsertedBefore(ops, k, ops[k].sid)
  }

  /** Some session is added that has not been released since it was last added. */
  predicate InsertsTwice(ops: seq<TableOp>) {
    exists k :: 0 <= k < |ops| && ops[k].Insert? && InsertedBefore(ops, k, ops[k].sid)
  }

  /** What the table and the assertion have come to after these operations. */
  ghost predicate ShowsOps(s: State, ops: seq<TableOp>) {
    && (forall sid :: sid in s.sessions <==> InsertedBefore(ops, |ops|, sid))
    && (s.assertFailed <==> ErasesAbsent(ops))
    && s.sessionCount >= |s.sessions|
    && (s.sessionCount == |s.sessions| <==> !InsertsTwice(ops))
  }

  lemma PrefixInserted(ops: seq<TableOp>, op: TableOp, k: nat, sid: Sid)
    requires k <= |ops|
    ensures InsertedBefore(ops + [op], k, sid) == InsertedBefore(ops, k, sid)
  {
    var now := ops + [op];
    assert forall i :: 0 <= i < k ==> now[i] == ops[i];
    if InsertedBefore(ops, k, sid) {
      var i :| 0 <= i < k && ops[i] == Insert(sid) && (forall m :: i < m < k ==> ops[m] != Erase(sid));
      assert now[i] == Insert(sid);
    }
  }

  lemma LastInserted(ops: seq<TableOp>, op: TableOp, sid: Sid)
    ensures InsertedBefore(ops + [op], |ops| + 1, sid) <==>
            op == Insert(sid) || (op != Erase(sid) && InsertedBefore(ops, |ops|, sid))
  {
    var now := ops + [op];
    assert now[|ops|] == op && forall i :: 0 <= i < |ops| ==> now[i] == ops[i];
    if InsertedBefore(ops, |ops|, sid) && op != Erase(sid) {
      var i :| 0 <= i < |ops| && ops[i] == Insert(sid) && (forall m :: i < m < |ops| ==> ops[m] != Erase(sid));
      assert now[i] == Insert(sid);
    }
  }

  lemma OneMoreOp(ops: seq<TableOp>, op: TableOp)
    ensures ErasesAbsent(ops + [op]) <==> ErasesAbsent(ops) || (op.Erase? && !InsertedBefore(ops, |ops|, op.sid))
    ensures InsertsTwice(ops + [op]) <==> InsertsTwice(ops) || (op.Insert? && InsertedBefore(ops, |ops|, op.sid))
  {
    var now := ops + [op];
    assert now[|ops|] == op && forall k :: 0 <= k < |ops| ==> now[k] == ops[k];
    forall k, sid | 0 <= k <= |ops| ensures InsertedBefore(now, k, sid) == InsertedBefore(ops, k, sid) {
      PrefixInserted(ops, op, k, sid);
    }
    hide InsertedBefore;
    if ErasesAbsent(ops) {
      var k :| 0 <= k < |ops| && ops[k].Erase? && !InsertedBefore(ops, k, ops[k].sid);
      assert now[k].Erase? && !InsertedBefore(now, k, now[k].sid);
    }
    if InsertsTwice(ops) {
      var k :| 0 <= k < |ops| && ops[k].Insert? && InsertedBefore(ops, k, ops[k].sid);
      assert now[k].Insert? && InsertedBefore(now, k, now[k].sid);
    }
    assert op.Erase? ==> now[|ops|].Erase?;
  }

  /** The table and the assertion after one more operation of the table. */
  lemma OpIs(s: State, a: Action)
    requires Enabled(s, a) && (a.Add? || a.Remove?)
    ensures var s' := Apply(s, a);
            && OpOf(s, a) == [if a.Add? then Insert(Subject(s, a)) else Erase(Subject(s, a))]
            && s'.sessions == (if a.Add? then s.sessions + {Subject(s, a)} else s.sessions - {Subject(s, a)})
            && s'.assertFailed == (s.assertFailed || (a.Remove? && Subject(s, a) !in s.sessions))
            && s'.sessionCount == s.sessionCount +
               (if a.Add? then 1 else if Subject(s, a) in s.sessions then -1 else 0)
  {
  }

  lemma StepShowsOp(s: State, a: Action, ops: seq<TableOp>)
    requires ShowsOps(s, ops) && Enabled(s, a) && (a.Add? || a.Remove?)
    ensures ShowsOps(Apply(s, a), ops + OpOf(s, a))
  {
    OpIs(s, a);
    var sid, s', now := Subject(s, a), Apply(s, a), ops + OpOf(s, a);
    assert |now| == |ops| + 1 && (sid in s.sessions <==> InsertedBefore(ops, |ops|, sid));
    OneMoreOp(ops, OpOf(s, a)[0]);
    forall other ensures other in s'.sessions <==> InsertedBefore(now, |now|, other) {
      LastInserted(ops, OpOf(s, a)[0], other);
      assert other in s.sessions <==> InsertedBefore(ops, |ops|, other);
    }
    SizeStep(s.sessions, sid);
    hide InsertedBefore, ErasesAbsent, InsertsTwice, OpOf, Apply, Subject, Enabled;
  }

  lemma SizeStep(sessions: set<Sid>, sid: Sid)
    ensures |sessions + {sid}| == |sessions| + if sid in sessions then 0 else 1
    ensures |sessions - {sid}| == |sessions| - if sid in sessions then 1 else 0
  {
    if sid in sessions {
      assert sessions + {sid} == sessions;
    } else {
      assert sessions - {sid} == sessions;
    }
  }

  lemma StepShowsOps(s: State, a: Action, ops: seq<TableOp>)
    requires ShowsOps(s, ops) && Enabled(s, a)
    ensures ShowsOps(Apply(s, a), ops + OpOf(s, a))
  {
    if a.Add? || a.Remove? {
      StepShowsOp(s, a, ops);
    } else {
      assert ops + [] == ops;
      hide InsertedBefore, ErasesAbsent, InsertsTwice;
    }
  }

  lemma {:induction false} RunShowsOps(s: State, run: seq<Action>, ops: seq<TableOp>)
    requires ShowsOps(s, ops) && Run(s, run).Some?
    ensures ShowsOps(Run(s, run).value, ops + TableOps(s, run))
    decreases |run|
  {
    hide ShowsOps;
    if run == [] {
      assert ops + [] == ops;
    } else {
      StepShowsOps(s, run[0], ops);
      RunShowsOps(Apply(s, run[0]), run[1..], ops + OpOf(s, run[0]));
      assert ops + OpOf(s, run[0]) + TableOps(Apply(s, run[0]), run[1..]) == ops + TableOps(s, run);
    }
  }

  lemma EveryRunShowsOps(run: seq<Action>)
    requires Run(INIT, run).Some?
    ensures ShowsOps(Run(INIT, run).value, TableOps(INIT, run))
  {
    RunShowsOps(INIT, run, []);
    assert [] + TableOps(INIT, run) == TableOps(INIT, run);
  }

  /** In every run the assert in ReleaseSession fails if and only if some session is released that has not been added
      since it was last released, and the table holds the sessions added and not released since. */
  lemma AssertFailsExactly(run: seq<Action>)
    requires Run(INIT, run).Some?
    ensures Run(INIT, run).value.assertFailed <==> ErasesAbsent(TableOps(INIT, run))
    ensures forall sid :: sid in Run(INIT, run).value.sessions <==>
                          InsertedBefore(TableOps(INIT, run), |TableOps(INIT, run)|, sid)
  {
    EveryRunShowsOps(run);
    hide Run, TableOps;
  }

  /** In every run the counter is never below the size of the set, and equal to it if and only if no session was added
      that had not been released since it was last added. */
  lemma CounterIsSizeExactly(run: seq<Action>)
    requires Run(INIT, run).Some?
    ensures var s := Run(INIT, run).value;
            && s.sessionCount >= |s.sessions|
            && (s.sessionCount == |s.sessions| <==> !InsertsTwice(TableOps(INIT, run)))
  {
    EveryRunShowsOps(run);
    hide Run, TableOps;
  }

  function Notifiers(s: State, sid: Sid): set<Tid> {
    set t | t in s.threads && s.threads[t] == Notifying(sid)
  }

  function Removers(s: State, sid: Sid): set<Tid> {
    set t | t in s.threads && s.threads[t] == Removing(sid)
  }

  /** Each exchange that finds true uses up one ProcessConnect, and each of those threads disconnects and releases
      once. */
  ghost predicate OncePerConnect(s: State, sid: Sid) {
    && Count(s.log, Connecting(sid)) >=
         Count(s.log, Disconnected(sid)) + |Notifiers(s, sid)| + (if sid in s.connected then 1 else 0)
    && Count(s.log, Disconnected(sid)) >= Count(s.log, Released(sid)) + |Removers(s, sid)|
  }

  /** How a step changes who is on the way through Disconnect. */
  lemma WorkersStep(s: State, a: Action, sid: Sid)
    requires Enabled(s, a)
    ensures var s' := Apply(s, a); var mine := sid == Subject(s, a);
            && Notifiers(s', sid) == (if mine && a.CallDisconnect? && sid in s.connected then Notifiers(s, sid) + {a.t}
                                      else if mine && a.Notify? then Notifiers(s, sid) - {a.t} else Notifiers(s, sid))
            && Removers(s', sid) == (if mine && a.Notify? then Removers(s, sid) + {a.t}
                                     else if mine && a.Remove? then Removers(s, sid) - {a.t} else Removers(s, sid))
            && (mine && a.Notify? ==> a.t in Notifiers(s, sid))
            && (mine && a.Remove? ==> a.t in Removers(s, sid))
  {
  }

  lemma StepKeepsOnce(s: State, a: Action, sid: Sid)
    requires OncePerConnect(s, sid) && Enabled(s, a)
    ensures OncePerConnect(Apply(s, a), sid)
  {
    WorkersStep(s, a, sid);
    TableStep(s, a, sid);
    LogStep(s, a, Connecting(sid));
    LogStep(s, a, Disconnected(sid));
    LogStep(s, a, Released(sid));
    hide Notifiers, Removers, Count, Apply, Subject, Enabled;
  }

  lemma {:induction false} RunKeepsOnce(s: State, run: seq<Action>, sid: Sid)
    requires OncePerConnect(s, sid) && Run(s, run).Some?
    ensures OncePerConnect(Run(s, run).value, sid)
    decreases |run|
  {
    if run != [] {
      hide OncePerConnect, Apply, Enabled;
      StepKeepsOnce(s, run[0], sid);
      RunKeepsOnce(Apply(s, run[0]), run[1..], sid);
    }
  }

  /** However many threads and completions call Disconnect, and whatever they race with, OnDisconnected runs at most
      once per ProcessConnect, and ReleaseSession takes a session out of the table at most once per OnDisconnected. */
  lemma DisconnectOnce(run: seq<Action>, sid: Sid)
    requires Run(INIT, run).Some?
    ensures var log := Run(INIT, run).value.log;
            Count(log, Released(sid)) <= Count(log, Disconnected(sid)) <= Count(log, Connecting(sid))
  {
    assert OncePerConnect(INIT, sid);
    RunKeepsOnce(INIT, run, sid);
    hide Run, Count;
  }

  // ---------------------------------------------------------------- both conditions are needed

  /** A Disconnect that slips in between the store in ProcessConnect and AddSession makes the assert fail. */
  lemma EarlyDisconnectFailsAssert(sid: Sid)
    ensures var run := [BeginConnect(0, sid), CallDisconnect(1, sid), Notify(1), Remove(1)];
            PoliteRun(INIT, run) && Run(INIT, run).Some? && Run(INIT, run).value.assertFailed
  {
    var run := [BeginConnect(0, sid), CallDisconnect(1, sid), Notify(1), Remove(1)];
    assert forall t :: PhaseOf(INIT, t).Idle?;
    assert !Adds(INIT, sid) && !Leaves(INIT, sid);
    var s1 := Apply(INIT, run[0]);
    var s2 := Apply(s1, run[1]);
    var s3 := Apply(s2, run[2]);
    var s4 := Apply(s3, run[3]);
    assert run[1..][1..][1..] == [run[3]];
    assert PoliteRun(s3, [run[3]]) && Run(s3, [run[3]]) == Some(s4);
    assert PoliteRun(s2, run[1..][1..]) && Run(s2, run[1..][1..]) == Some(s4);
    assert PoliteRun(s1, run[1..]) && Run(s1, run[1..]) == Some(s4);
  }

  /** A reconnect between the exchange in Disconnect and ReleaseSession leaves the counter above the set for good. */
  lemma EarlyReconnectBreaksCounter(sid: Sid)
    ensures var run := [BeginConnect(0, sid), Add(0), CallDisconnect(1, sid), BeginConnect(0, sid), Add(0)];
            Run(INIT, run).Some? && Run(INIT, run).value.sessionCount == 2 && Run(INIT, run).value.sessions == {sid}
  {
    var run := [BeginConnect(0, sid), Add(0), CallDisconnect(1, sid), BeginConnect(0, sid), Add(0)];
    var s1 := Apply(INIT, run[0]);
    var s2 := Apply(s1, run[1]);
    var s3 := Apply(s2, run[2]);
    var s4 := Apply(s3, run[3]);
    var s5 := Apply(s4, run[4]);
    assert run[1..][1..][1..][1..] == [run[4]];
    assert Run(s4, [run[4]]) == Some(s5);
    assert Run(s3, run[1..][1..][1..]) == Some(s5);
    assert Run(s2, run[1..][1..]) == Some(s5);
    assert Run(s1, run[1..]) == Some(s5);
  }

  /** A reconnect before ReleaseSession also makes the assert fail, although every Disconnect waits for AddSession: two
      threads release the session, which was added twice but is in the set once. */
  lemma EarlyReconnectFailsAssert(sid: Sid)
    ensures var run := [BeginConnect(0, sid), Add(0), CallDisconnect(1, sid), BeginConnect(0, sid), Add(0),
                        CallDisconnect(2, sid), Notify(1), Remove(1), Notify(2), Remove(2)];
            PatientRun(INIT, run) && Run(INIT, run).Some? && Run(INIT, run).value.assertFailed
  {
    SecondConnect(sid);
    SecondRelease(sid);
    var first := [BeginConnect(0, sid), Add(0), CallDisconnect(1, sid), BeginConnect(0, sid), Add(0)];
    var second := [CallDisconnect(2, sid), Notify(1), Remove(1), Notify(2), Remove(2)];
    assert first + second == [BeginConnect(0, sid), Add(0), CallDisconnect(1, sid), BeginConnect(0, sid), Add(0),
                              CallDisconnect(2, sid), Notify(1), Remove(1), Notify(2), Remove(2)];
    hide Enabled, Apply, Patient;
    RunConcat(INIT, first, second);
  }

  lemma SecondConnect(sid: Sid)
    ensures var run := [BeginConnect(0, sid), Add(0), CallDisconnect(1, sid), BeginConnect(0, sid), Add(0)];
            && PatientRun(INIT, run)
            && Run(INIT, run) == Some(State({sid}, {sid}, 2, map[0 := Idle, 1 := Notifying(sid)],
              [Connecting(sid), Connecting(sid)], false))
  {
    var run := [BeginConnect(0, sid), Add(0), CallDisconnect(1, sid), BeginConnect(0, sid), Add(0)];
    var s1 := Apply(INIT, run[0]);
    var s2 := Apply(s1, run[1]);
    var s3 := Apply(s2, run[2]);
    var s4 := Apply(s3, run[3]);
    var s5 := Apply(s4, run[4]);
    assert s5 == State({sid}, {sid}, 2, map[0 := Idle, 1 := Notifying(sid)], [Connecting(sid), Connecting(sid)], false);
    OneStep(s4, run[4]);
    TwoSteps(s3, run[3], [run[4]]);
    TwoSteps(s2, run[2], [run[3], run[4]]);
    TwoSteps(s1, run[1], [run[2], run[3], run[4]]);
    TwoSteps(INIT, run[0], [run[1], run[2], run[3], run[4]]);
  }

  lemma SecondRelease(sid: Sid)
    ensures var s := State({sid}, {sid}, 2, map[0 := Idle, 1 := Notifying(sid)], [Connecting(sid), Connecting(sid)],
        false);
            var run := [CallDisconnect(2, sid), Notify(1), Remove(1), Notify(2), Remove(2)];
            PatientRun(s, run) && Run(s, run).Some? && Run(s, run).value.assertFailed
  {
    var s := State({sid}, {sid}, 2, map[0 := Idle, 1 := Notifying(sid)], [Connecting(sid), Connecting(sid)], false);
    var run := [CallDisconnect(2, sid), Notify(1), Remove(1), Notify(2), Remove(2)];
    var s1 := Apply(s, run[0]);
    var s2 := Apply(s1, run[1]);
    var s3 := Apply(s2, run[2]);
    var s4 := Apply(s3, run[3]);
    OneStep(s4, run[4]);
    TwoSteps(s3, run[3], [run[4]]);
    TwoSteps(s2, run[2], [run[3], run[4]]);
    TwoSteps(s1, run[1], [run[2], run[3], run[4]]);
    TwoSteps(s, run[0], [run[1], run[2], run[3], run[4]]);
  }

  lemma OneStep(s: State, a: Action)
    requires Enabled(s, a) && Patient(s, a)
    ensures PatientRun(s, [a]) && Run(s, [a]) == Some(Apply(s, a))
  {
    assert [a][1..] == [];
    assert Run(Apply(s, a), []) == Some(Apply(s, a));
  }

  lemma TwoSteps(s: State, a: Action, rest: seq<Action>)
    requires Enabled(s, a) && Patient(s, a)
    requires PatientRun(Apply(s, a), rest)
    ensures PatientRun(s, [a] + rest) && Run(s, [a] + rest) == Run(Apply(s, a), rest)
  {
    assert ([a] + rest)[1..] == rest;
  }

  lemma {:induction false} RunConcat(s: State, first: seq<Action>, second: seq<Action>)
    requires PatientRun(s, first) && Run(s, first).Some? && PatientRun(Run(s, first).value, second)
    ensures PatientRun(s, first + second) && Run(s, first + second) == Run(Run(s, first).value, second)
    decreases |first|
  {
    if first == [] {
      assert first + second == second;
    } else {
      RunConcat(Apply(s, first[0]), first[1..], second);
      assert (first + second)[1..] == first[1..] + second;
    }
  }
}
