/**
  What the calls of a task manager wait for: exactly when a call that has no answer yet can
  go on without a task's own Start or Stop returning, when a caller's context is looked at,
  and how a Wait that nobody has prepared holds up every later StopAll.
 */
module ManagerProgress {
  import opened Common
  import opened TaskErrors
  import opened Manager
  import opened ManagerRuns

  /** The steps that only a caller's expired context can take. */
  predicate TimesOut(a: Action) {
    a.StopTimesOut? || a.WorkerTimesOut?
  }

  /** A call that brings in a new caller. */
  predicate NewCall(a: Action) {
    a.StartCall? || a.StopCall? || a.StopAllCall? || a.WaitCall?
  }

  /** The return of a task's own Start or Stop. */
  predicate TaskReturns(a: Action) {
    a.StartReturns? || a.StopReturns?
  }

  predicate Pending(s: System, who: nat) {
    who in s.clients && !s.clients[who].Done?
  }

  // ----------------------------------------------------- the steps a call waits for

  predicate StartSteps(a: Action, id: nat) {
    a == BeginStart(id) || a == FinishStart(id) || (a.StartReturns? && a.id == id)
  }

  predicate StopSteps(a: Action, id: nat) {
    a == BeginStop(id) || a == FinishStop(id) || (a.StopReturns? && a.id == id)
  }

  /** The goroutine whose signal the worker waits for. */
  predicate WorkerServed(w: Worker, a: Action) {
    match w.pc
    case AwaitingStop => StopSteps(a, w.id)
    case AwaitingDone => StartSteps(a, w.id)
    case _ => false
  }

  /** Steps of a caller that is past its lock, or of a goroutine that it waits for. */
  predicate Progresses(s: System, who: nat, a: Action)
    requires who in s.clients
  {
    match s.clients[who]
    case Locking(_) => false
    case Inserting(_) => a == InsertTask(who)
    case Snapshotting => a.Snapshot? && a.who == who
    case StoppingAll(workers, _) =>
      || a == JoinWorkers(who)
      || exists k :: 0 <= k < |workers| && (a == AdvanceWorker(who, k) || WorkerServed(workers[k], a))
    case Waiting =>
      || a == JoinRuns(who)
      || exists i :: 0 <= i < |s.entries| && !s.entries[i].start.Exited? && (StartSteps(a, i) || a == BeginStop(i))
    case Reading(_, _, _) => a == ReadStartErrs(who)
    case ReadingStop(_, _, _, _) => a == ReadStopErrs(who)
    case Releasing(_) => a == Release(who)
    case StopTask(w) => a == AdvanceStop(who) || a == ReadStopErr(who) || WorkerServed(w, a)
    case Done(_) => false
  }

  /** Steps on which a call depends: its own, and those of the holder of opsMu that it waits behind. */
  predicate Serves(s: System, who: nat, a: Action) {
    && who in s.clients
    && if !s.clients[who].Locking? then Progresses(s, who, a)
       else if s.ops.None? then a == Acquire(who)
       else s.ops.value in s.clients && Progresses(s, s.ops.value, a)
  }

  /** Who has to move for the call to go on: the holder of opsMu, if it waits for opsMu. */
  function Mover(s: System, who: nat): nat
    requires who in s.clients
  {
    if s.clients[who].Locking? && s.ops.Some? then s.ops.value else who
  }

  // -------------------------------------------- waiting for the tasks themselves

  /** The goroutine that the worker waits for is inside the task's own Stop or Start. */
  predicate WorkerBlocked(w: Worker, entries: seq<Entry>) {
    && w.id < |entries|
    && ((w.pc.AwaitingStop? && entries[w.id].stop.InStop?) || (w.pc.AwaitingDone? && entries[w.id].start.InStart?))
  }

  predicate WorkerJoined(w: Worker) {
    w.pc.Finished? || w.pc.TimedOut?
  }

  /** Everybody the caller waits for is inside a task. */
  ghost predicate Blocked(c: Client, entries: seq<Entry>) {
    match c
    case StoppingAll(workers, _) =>
      && !WorkersJoined(workers)
      && forall k :: 0 <= k < |workers| ==> WorkerJoined(workers[k]) || WorkerBlocked(workers[k], entries)
    case Waiting =>
      && !AllExited(entries)
      && forall i :: 0 <= i < |entries| && !entries[i].start.Exited? ==>
           entries[i].start.InStart? && !entries[i].stop.Requested?
    case StopTask(w) => WorkerBlocked(w, entries)
    case _ => false
  }

  lemma StartMoves(s: System, i: nat) returns (a: Action)
    requires i < |s.entries| && !s.entries[i].start.Exited? && !s.entries[i].start.InStart?
    ensures StartSteps(a, i) && Enabled(s, a) && !TaskReturns(a)
  {
    a := if s.entries[i].start.Spawned? then BeginStart(i) else FinishStart(i);
  }

  lemma StopMoves(s: System, i: nat) returns (a: Action)
    requires i < |s.entries|
    requires !s.entries[i].stop.NotRequested? && !s.entries[i].stop.Signalled? && !s.entries[i].stop.InStop?
    ensures StopSteps(a, i) && Enabled(s, a) && !TaskReturns(a)
  {
    a := if s.entries[i].stop.Requested? then BeginStop(i) else FinishStop(i);
  }

  /** A worker that is not blocked is ready itself, or has its goroutine move. */
  lemma WorkerMoves(s: System, w: Worker) returns (a: Option<Action>)
    requires WorkerInv(w, s.entries) && !WorkerJoined(w) && !WorkerBlocked(w, s.entries)
    ensures a.None? ==> WorkerReady(w, s.entries)
    ensures a.Some? ==> WorkerServed(w, a.value) && Enabled(s, a.value) && !TaskReturns(a.value)
  {
    a := None;
    if !WorkerReady(w, s.entries) {
      var b;
      if w.pc.AwaitingStop? { b := StopMoves(s, w.id); } else { b := StartMoves(s, w.id); }
      a := Some(b);
    }
  }

  /** The names in the map can be listed, each once. */
  lemma {:induction false} Listed(names: set<string>) returns (order: seq<string>)
    ensures Distinct(order) && forall name :: name in order <==> name in names
  {
    if names == {} { return []; }
    var first :| first in names;
    var rest := Listed(names - {first});
    order := rest + [first];
    forall i, j | 0 <= i < j < |order| ensures order[i] != order[j] {
      assert rest[i] in rest;
    }
    assert forall name :: name in order <==> name in rest || name == first;
  }

  lemma StopAllMoves(s: System, who: nat) returns (a: Action)
    requires who in s.clients && s.clients[who].StoppingAll? && !Blocked(s.clients[who], s.entries)
    requires ClientInv(s.clients[who], s.entries, s.tasks, s.startErrs)
    ensures Progresses(s, who, a) && Enabled(s, a) && !TaskReturns(a)
  {
    var workers := s.clients[who].workers;
    if WorkersJoined(workers) { return JoinWorkers(who); }
    var k :| 0 <= k < |workers| && !WorkerJoined(workers[k]) && !WorkerBlocked(workers[k], s.entries);
    var b := WorkerMoves(s, workers[k]);
    a := if b.Some? then b.value else AdvanceWorker(who, k);
  }

  lemma WaitMoves(s: System, who: nat) returns (a: Action)
    requires Balanced(s) && who in s.clients && s.clients[who].Waiting? && !Blocked(s.clients[who], s.entries)
    ensures Progresses(s, who, a) && Enabled(s, a) && !TaskReturns(a)
  {
    BalancedRunning(s);
    if AllExited(s.entries) { return JoinRuns(who); }
    var i :| 0 <= i < |s.entries| && !s.entries[i].start.Exited?
             && (!s.entries[i].start.InStart? || s.entries[i].stop.Requested?);
    if s.entries[i].start.InStart? { return BeginStop(i); }
    a := StartMoves(s, i);
  }

  lemma RegionMoves(s: System, who: nat) returns (a: Action)
    requires who in s.clients && Holding(s.clients[who])
    requires !s.clients[who].StoppingAll? && !s.clients[who].Waiting?
    ensures Progresses(s, who, a) && Enabled(s, a) && !TaskReturns(a)
  {
    match s.clients[who] {
      case Inserting(_) => a := InsertTask(who);
      case Snapshotting =>
        var order := Listed(s.tasks.Keys);
        a := Snapshot(who, order);
      case Reading(_, _, _) => a := ReadStartErrs(who);
      case ReadingStop(_, _, _, _) => a := ReadStopErrs(who);
      case Releasing(_) => a := Release(who);
    }
  }

  lemma StopperMoves(s: System, who: nat) returns (a: Action)
    requires who in s.clients && s.clients[who].StopTask? && !Blocked(s.clients[who], s.entries)
    requires ClientInv(s.clients[who], s.entries, s.tasks, s.startErrs)
    ensures Progresses(s, who, a) && Enabled(s, a) && !TaskReturns(a)
  {
    var w := s.clients[who].worker;
    if w.pc.Finished? { return ReadStopErr(who); }
    var b := WorkerMoves(s, w);
    a := if b.Some? then b.value else AdvanceStop(who);
  }

  /** A caller past its lock that is not blocked has a step. */
  lemma Moves(s: System, who: nat) returns (a: Action)
    requires Inv(s) && Balanced(s) && Pending(s, who) && !s.clients[who].Locking?
    requires !Blocked(s.clients[who], s.entries)
    ensures Progresses(s, who, a) && Enabled(s, a) && !TaskReturns(a)
  {
    assert ClientInv(s.clients[who], s.entries, s.tasks, s.startErrs);
    if s.clients[who].StopTask? {
      a := StopperMoves(s, who);
    } else if s.clients[who].StoppingAll? {
      a := StopAllMoves(s, who);
    } else if s.clients[who].Waiting? {
      a := WaitMoves(s, who);
    } else {
      a := RegionMoves(s, who);
    }
  }

  /** A blocked worker is not ready, and only the task's return moves its goroutine. */
  lemma BlockedWorker(s: System, w: Worker, a: Action)
    requires WorkerBlocked(w, s.entries) || WorkerJoined(w)
    ensures !WorkerReady(w, s.entries)
    ensures WorkerServed(w, a) && Enabled(s, a) ==> TaskReturns(a)
  {
  }

  lemma BlockedStopAll(s: System, who: nat, a: Action)
    requires who in s.clients && s.clients[who].StoppingAll? && Blocked(s.clients[who], s.entries)
    requires Progresses(s, who, a) && Enabled(s, a)
    ensures TaskReturns(a)
  {
    var workers := s.clients[who].workers;
    if a != JoinWorkers(who) {
      var k :| 0 <= k < |workers| && (a == AdvanceWorker(who, k) || WorkerServed(workers[k], a));
      BlockedWorker(s, workers[k], a);
    }
  }

  lemma BlockedWait(s: System, who: nat, a: Action)
    requires s.running != 0 && who in s.clients && s.clients[who].Waiting? && Blocked(s.clients[who], s.entries)
    requires Progresses(s, who, a) && Enabled(s, a)
    ensures a.StartReturns? && a.id < |s.entries| && !s.entries[a.id].start.Exited?
  {
    var i :| 0 <= i < |s.entries| && !s.entries[i].start.Exited? && (StartSteps(a, i) || a == BeginStop(i));
  }

  lemma BlockedStopper(s: System, who: nat, a: Action)
    requires who in s.clients && s.clients[who].StopTask? && Blocked(s.clients[who], s.entries)
    requires Progresses(s, who, a) && Enabled(s, a)
    ensures TaskReturns(a)
  {
    BlockedWorker(s, s.clients[who].worker, a);
  }

  lemma BlockedMoves(s: System, who: nat, a: Action)
    requires Balanced(s) && who in s.clients && Blocked(s.clients[who], s.entries)
    requires Progresses(s, who, a) && Enabled(s, a)
    ensures TaskReturns(a)
  {
    if s.clients[who].StopTask? {
      BlockedStopper(s, who, a);
    } else if s.clients[who].StoppingAll? {
      BlockedStopAll(s, who, a);
    } else {
      BalancedRunning(s);
      BlockedWait(s, who, a);
    }
  }

  /** Some step on which the call depends is enabled without a task's Start or Stop having to return. */
  ghost predicate GoesOn(s: System, who: nat) {
    exists a :: Serves(s, who, a) && Enabled(s, a) && !TaskReturns(a)
  }

  /**
    When exactly a call without an answer can go on by itself, or by a goroutine on which it
    depends, without a timeout, a new call or the return of a task's own Start or Stop: unless
    it, or the holder of opsMu behind which it queues, is a StopTask or a StopAll all of
    whose workers wait for a task that is inside Stop, or inside Start once stopped, or a Wait
    and every task left is inside Start with no stop goroutine about to run.
   */
  lemma GoesOnIff(s: System, who: nat)
    requires Reachable(s) && Pending(s, who)
    ensures Mover(s, who) in s.clients
    ensures GoesOn(s, who) <==> !Blocked(s.clients[Mover(s, who)], s.entries)
  {
    ReachableInv(s);
    var mover := Mover(s, who);
    if Blocked(s.clients[mover], s.entries) {
      forall a | Serves(s, who, a) && Enabled(s, a) ensures TaskReturns(a) {
        BlockedMoves(s, mover, a);
      }
    } else if s.clients[mover].Locking? {
      assert Serves(s, who, Acquire(who)) && Enabled(s, Acquire(who));
    } else {
      var a := Moves(s, mover);
      assert Serves(s, who, a);
    }
  }

  // -------------------------------------------------- what the tasks have promised

  /** The context that the entry's Start was given is done: its stop goroutine cancelled it, or its parent is. */
  predicate Cancelled(e: Entry) {
    e.parentDone || !(e.stop.NotRequested? || e.stop.Requested?)
  }

  /** Tasks promise to return from Stop, and from Start once its context is cancelled. */
  predicate Promised(s: System, a: Action) {
    a.StartReturns? ==> a.id < |s.entries| && Cancelled(s.entries[a.id])
  }

  /** Every task left is inside Start, and nobody has asked for its stop or cancelled its parent context. */
  ghost predicate NobodyAsked(entries: seq<Entry>) {
    && !AllExited(entries)
    && forall i :: 0 <= i < |entries| && !entries[i].start.Exited? ==>
         entries[i].start.InStart? && entries[i].stop.NotRequested? && !entries[i].parentDone
  }

  ghost predicate KeepsPromises(s: System, who: nat) {
    exists a :: Serves(s, who, a) && Enabled(s, a) && Promised(s, a)
  }

  lemma WorkerIsPromised(s: System, w: Worker) returns (a: Action)
    requires WorkerInv(w, s.entries) && WorkerBlocked(w, s.entries)
    ensures WorkerServed(w, a) && Enabled(s, a) && Promised(s, a)
  {
    a := if w.pc.AwaitingStop? then StopReturns(w.id, Success) else StartReturns(w.id, Success);
  }

  lemma StopAllIsPromised(s: System, who: nat) returns (a: Action)
    requires who in s.clients && s.clients[who].StoppingAll? && Blocked(s.clients[who], s.entries)
    requires ClientInv(s.clients[who], s.entries, s.tasks, s.startErrs)
    ensures Progresses(s, who, a) && Enabled(s, a) && Promised(s, a)
  {
    var workers := s.clients[who].workers;
    var k :| 0 <= k < |workers| && !WorkerJoined(workers[k]);
    a := WorkerIsPromised(s, workers[k]);
  }

  lemma WaitIsPromised(s: System, who: nat) returns (a: Action)
    requires who in s.clients && s.clients[who].Waiting? && Blocked(s.clients[who], s.entries)
    requires !NobodyAsked(s.entries)
    ensures Progresses(s, who, a) && Enabled(s, a) && Promised(s, a)
  {
    var i :| 0 <= i < |s.entries| && !s.entries[i].start.Exited?
             && (!s.entries[i].stop.NotRequested? || s.entries[i].parentDone);
    a := StartReturns(i, Success);
  }

  lemma IsPromised(s: System, who: nat) returns (a: Action)
    requires Inv(s) && who in s.clients && Blocked(s.clients[who], s.entries)
    requires !(s.clients[who].Waiting? && NobodyAsked(s.entries))
    ensures Progresses(s, who, a) && Enabled(s, a) && Promised(s, a)
  {
    assert ClientInv(s.clients[who], s.entries, s.tasks, s.startErrs);
    if s.clients[who].StopTask? {
      a := WorkerIsPromised(s, s.clients[who].worker);
    } else if s.clients[who].StoppingAll? {
      a := StopAllIsPromised(s, who);
    } else {
      a := WaitIsPromised(s, who);
    }
  }

  /** A step for a pending caller that the tasks' promises allow. */
  lemma PromisedStep(s: System, who: nat) returns (a: Action)
    requires Inv(s) && Balanced(s) && Pending(s, who) && Mover(s, who) in s.clients
    requires !(s.clients[Mover(s, who)].Waiting? && NobodyAsked(s.entries))
    ensures Serves(s, who, a) && Enabled(s, a) && Promised(s, a)
  {
    var mover := Mover(s, who);
    if Blocked(s.clients[mover], s.entries) {
      a := IsPromised(s, mover);
    } else if s.clients[mover].Locking? {
      a := Acquire(who);
    } else {
      a := Moves(s, mover);
    }
  }

  /**
    Tasks that keep their promises hold up a call in one situation only: it is a Wait, or
    it queues for opsMu behind one, and every task left is inside Start with no stop asked for
    and with the context that StartTask was given not cancelled.
   */
  lemma HeldUpIff(s: System, who: nat)
    requires Reachable(s) && Pending(s, who)
    ensures Mover(s, who) in s.clients
    ensures KeepsPromises(s, who) <==> !(s.clients[Mover(s, who)].Waiting? && NobodyAsked(s.entries))
  {
    ReachableInv(s);
    var mover := Mover(s, who);
    if s.clients[mover].Waiting? && NobodyAsked(s.entries) {
      forall a | Serves(s, who, a) && Enabled(s, a) ensures !Promised(s, a) {
        BalancedRunning(s);
        BlockedWait(s, mover, a);
      }
    } else {
      var a := PromisedStep(s, who);
      assert Serves(s, who, a);
    }
  }

  // ---------------------------------------------------- when contexts are looked at

  predicate AwaitsSignal(w: Worker) {
    w.pc.AwaitingStop? || w.pc.AwaitingDone?
  }

  /** The caller is in waitSignalWithContext, itself or through one of its workers. */
  predicate LooksAtContext(c: Client) {
    || (c.StopTask? && AwaitsSignal(c.worker))
    || (c.StoppingAll? && exists k :: 0 <= k < |c.workers| && AwaitsSignal(c.workers[k]))
  }

  ghost predicate CanTimeOut(s: System, who: nat) {
    exists a :: TimesOut(a) && a.who == who && Enabled(s, a)
  }

  /**
    An expired context ends a wait exactly while a signal of an entry is awaited; in
    particular not while StopAll waits for opsMu, whatever its context says.
   */
  lemma TimesOutIff(s: System, who: nat)
    requires who in s.clients
    ensures CanTimeOut(s, who) <==> LooksAtContext(s.clients[who])
    ensures s.clients[who].Locking? ==> !CanTimeOut(s, who)
  {
    var c := s.clients[who];
    if c.StopTask? && AwaitsSignal(c.worker) {
      assert TimesOut(StopTimesOut(who)) && Enabled(s, StopTimesOut(who));
    }
    if c.StoppingAll? && exists k :: 0 <= k < |c.workers| && AwaitsSignal(c.workers[k]) {
      var k :| 0 <= k < |c.workers| && AwaitsSignal(c.workers[k]);
      var a := WorkerTimesOut(who, k, TaskError("", true));
      assert TimesOut(a) && Enabled(s, a);
    }
  }

  /** The steps of a call's own goroutines, timeouts included. */
  predicate Own(a: Action, who: nat) {
    match a
    case Acquire(w) => w == who
    case InsertTask(w) => w == who
    case Snapshot(w, _) => w == who
    case AdvanceWorker(w, _) => w == who
    case WorkerTimesOut(w, _, _) => w == who
    case JoinWorkers(w) => w == who
    case JoinRuns(w) => w == who
    case ReadStartErrs(w) => w == who
    case ReadStopErrs(w) => w == who
    case Release(w) => w == who
    case AdvanceStop(w) => w == who
    case StopTimesOut(w) => w == who
    case ReadStopErr(w) => w == who
    case _ => false
  }

  ghost predicate HasOwnStep(s: System, who: nat) {
    exists a :: Own(a, who) && Enabled(s, a)
  }

  lemma OwnWorkerMove(s: System, who: nat, k: nat) returns (a: Action)
    requires who in s.clients && s.clients[who].StoppingAll? && k < |s.clients[who].workers|
    requires WorkerInv(s.clients[who].workers[k], s.entries) && !WorkerJoined(s.clients[who].workers[k])
    ensures Own(a, who) && Enabled(s, a)
  {
    var w := s.clients[who].workers[k];
    a := if AwaitsSignal(w) then WorkerTimesOut(who, k, TaskError("", true)) else AdvanceWorker(who, k);
  }

  lemma OwnWorkerStep(s: System, who: nat) returns (a: Action)
    requires who in s.clients && s.clients[who].StoppingAll?
    requires ClientInv(s.clients[who], s.entries, s.tasks, s.startErrs)
    ensures Own(a, who) && Enabled(s, a)
  {
    var workers := s.clients[who].workers;
    if WorkersJoined(workers) { return JoinWorkers(who); }
    var k :| 0 <= k < |workers| && !WorkerJoined(workers[k]);
    a := OwnWorkerMove(s, who, k);
  }

  lemma OwnStopStep(s: System, who: nat) returns (a: Action)
    requires who in s.clients && s.clients[who].StopTask?
    requires ClientInv(s.clients[who], s.entries, s.tasks, s.startErrs)
    ensures Own(a, who) && Enabled(s, a)
  {
    var w := s.clients[who].worker;
    a := if w.pc.Finished? then ReadStopErr(who)
         else if AwaitsSignal(w) then StopTimesOut(who)
         else AdvanceStop(who);
  }

  /** A caller that neither waits for opsMu nor is in Wait always has a step, if its context may expire. */
  lemma OwnStep(s: System, who: nat) returns (a: Action)
    requires Inv(s) && Pending(s, who) && !s.clients[who].Locking? && !s.clients[who].Waiting?
    ensures Own(a, who) && Enabled(s, a)
  {
    assert ClientInv(s.clients[who], s.entries, s.tasks, s.startErrs);
    if s.clients[who].StopTask? {
      a := OwnStopStep(s, who);
    } else if s.clients[who].StoppingAll? {
      a := OwnWorkerStep(s, who);
    } else {
      a := RegionMoves(s, who);
      assert Own(a, who);
    }
  }

  /** What no context can cut short: waiting for opsMu, and Wait waiting for the tasks. */
  lemma OwnStepIff(s: System, who: nat)
    requires Reachable(s) && Pending(s, who)
    ensures HasOwnStep(s, who) <==>
      !(s.clients[who].Locking? && s.ops.Some?) && !(s.clients[who].Waiting? && !AllExited(s.entries))
  {
    ReachableInv(s);
    BalancedRunning(s);
    if s.clients[who].Locking? || s.clients[who].Waiting? {
      OwnWait(s, who);
    } else {
      var a := OwnStep(s, who);
    }
  }

  lemma OwnWait(s: System, who: nat)
    requires who in s.clients && (s.clients[who].Locking? || s.clients[who].Waiting?)
    ensures HasOwnStep(s, who) <==> if s.clients[who].Locking? then s.ops.None? else s.running == 0
  {
    if s.clients[who].Locking? && s.ops.None? {
      assert Own(Acquire(who), who) && Enabled(s, Acquire(who));
    }
    if s.clients[who].Waiting? && s.running == 0 {
      assert Own(JoinRuns(who), who) && Enabled(s, JoinRuns(who));
    }
  }

  // -------------------------------------------------------- a StopAll behind a Wait

  ghost function Steps(s: System, rest: seq<Action>): System
    decreases |rest|
  {
    if rest == [] then s else Steps(Step(s, rest[0]), rest[1..])
  }

  /** `holder` is in Wait, entry `i` is inside Start, and no stop of it is under way. */
  ghost predicate HeldUp(s: System, holder: nat, i: nat) {
    WaitHolds(s, holder) && RunsOn(s.entries, i) && NoStopper(s, i)
  }

  predicate WaitHolds(s: System, holder: nat) {
    s.ops == Some(holder) && holder in s.clients && s.clients[holder].Waiting?
  }

  predicate RunsOn(entries: seq<Entry>, i: nat) {
    i < |entries| && entries[i].start.InStart? && entries[i].stop.NotRequested?
  }

  ghost predicate NoStopper(s: System, i: nat) {
    forall who :: who in s.clients && s.clients[who].StopTask? ==> s.clients[who].worker.id != i
  }

  /** The two ways out: the task returns, or somebody calls StopTask for it. */
  predicate WayOut(a: Action, name: string, i: nat) {
    (a.StartReturns? && a.id == i) || (a.StopCall? && a.name == name)
  }

  lemma WaitIsNotOver(s: System, i: nat)
    requires Balanced(s) && RunsOn(s.entries, i)
    ensures s.running != 0
  {
    BalancedRunning(s);
  }

  lemma WaitGoesOn(s: System, holder: nat, a: Action)
    requires OpsInv(s.ops, s.clients) && WaitHolds(s, holder) && s.running != 0
    ensures WaitHolds(Step(s, a), holder)
  {
  }

  lemma TaskRunsOn(s: System, holder: nat, i: nat, a: Action)
    requires OpsInv(s.ops, s.clients) && HeldUp(s, holder, i) && !(a.StartReturns? && a.id == i)
    ensures RunsOn(Step(s, a).entries, i) && Step(s, a).entries[i].name == s.entries[i].name
  {
    if StartAction(a) || StopAction(a) {
      GoroutineLeavesTask(s, i, a);
    } else {
      if a.AdvanceWorker? { NobodyStopsAll(s, holder, a); }
      CallerLeavesTask(s, i, a);
    }
  }

  lemma GoroutineLeavesTask(s: System, i: nat, a: Action)
    requires RunsOn(s.entries, i) && (StartAction(a) || StopAction(a)) && !(a.StartReturns? && a.id == i)
    ensures RunsOn(Step(s, a).entries, i) && Step(s, a).entries[i].name == s.entries[i].name
  {
  }

  lemma NobodyStopsAll(s: System, holder: nat, a: Action)
    requires OpsInv(s.ops, s.clients) && WaitHolds(s, holder) && a.AdvanceWorker?
    ensures !Enabled(s, a)
  {
  }

  lemma CallerLeavesTask(s: System, i: nat, a: Action)
    requires RunsOn(s.entries, i) && NoStopper(s, i) && !StartAction(a) && !StopAction(a)
    requires a.AdvanceWorker? ==> !Enabled(s, a)
    ensures RunsOn(Step(s, a).entries, i) && Step(s, a).entries[i].name == s.entries[i].name
  {
  }

  lemma NobodyStops(s: System, i: nat, a: Action)
    requires MapInv(s.entries, s.tasks) && RunsOn(s.entries, i) && NoStopper(s, i)
    requires !(a.StopCall? && a.name == s.entries[i].name)
    ensures NoStopper(Step(s, a), i)
  {
    forall who | who in Step(s, a).clients && Step(s, a).clients[who].StopTask?
      ensures Step(s, a).clients[who].worker.id != i
    {
      BecomesStopper(s, a, who);
    }
  }

  lemma HeldUpStep(s: System, holder: nat, i: nat, a: Action)
    requires Inv(s) && Balanced(s) && HeldUp(s, holder, i) && !WayOut(a, s.entries[i].name, i)
    ensures HeldUp(Step(s, a), holder, i) && Step(s, a).entries[i].name == s.entries[i].name
  {
    WaitIsNotOver(s, i);
    WaitGoesOn(s, holder, a);
    TaskRunsOn(s, holder, i, a);
    NobodyStops(s, i, a);
  }

  /** Whoever waits for opsMu goes on waiting. */
  lemma LockingStays(s: System, holder: nat, who: nat, a: Action)
    requires s.ops == Some(holder) && who in s.clients && s.clients[who].Locking?
    ensures who in Step(s, a).clients && Step(s, a).clients[who] == s.clients[who]
  {
  }

  /**
    As long as neither way out is taken, a StopAll behind such a Wait does not get anywhere,
    however many other steps are taken, and its context is never looked at.
   */
  lemma {:induction false} StopAllIsHeldUp(s: System, holder: nat, i: nat, who: nat, rest: seq<Action>)
    requires Inv(s) && Balanced(s) && HeldUp(s, holder, i)
    requires who in s.clients && s.clients[who].Locking?
    requires forall k :: 0 <= k < |rest| ==> !WayOut(rest[k], s.entries[i].name, i)
    ensures who in Steps(s, rest).clients && Steps(s, rest).clients[who] == s.clients[who]
    ensures HeldUp(Steps(s, rest), holder, i) && !CanTimeOut(Steps(s, rest), who)
    decreases |rest|
  {
    if rest == [] {
      TimesOutIff(s, who);
    } else {
      StepInv(s, rest[0]);
      HeldUpStep(s, holder, i, rest[0]);
      LockingStays(s, holder, who, rest[0]);
      StopAllIsHeldUp(Step(s, rest[0]), holder, i, who, rest[1..]);
    }
  }

  /** One task that runs until it is stopped, a Wait, and then a StopAll. */
  const WAIT_THEN_STOP_ALL: seq<Action> := [
    StartCall(0, "x", false), Acquire(0), InsertTask(0), Release(0), BeginStart(0),
    WaitCall(1), Acquire(1), StopAllCall(2)]

  const TASK := Entry("x", Spawned, NotRequested, 0, [], false)
  const RUNNING_TASK := Entry("x", InStart, NotRequested, 0, [], false)

  /** The states that the run goes through. */
  function Scene(k: nat): System
    requires k <= 8
  {
    match k
    case 0 => System([], map[], None, 0, [], [], map[])
    case 1 => System([], map[], None, 0, [], [], map[0 := Locking(StartOp("x"))])
    case 2 => System([], map[], Some(0), 0, [], [], map[0 := Inserting("x")])
    case 3 => System([TASK], map["x" := 0], Some(0), 1, [], [], map[0 := Releasing(Started(0))])
    case 4 => System([TASK], map["x" := 0], None, 1, [], [], map[0 := Done(Started(0))])
    case 5 => System([RUNNING_TASK], map["x" := 0], None, 1, [], [], map[0 := Done(Started(0))])
    case 6 => System([RUNNING_TASK], map["x" := 0], None, 1, [], [], map[0 := Done(Started(0)), 1 := Locking(WaitOp)])
    case 7 => System([RUNNING_TASK], map["x" := 0], Some(1), 1, [], [], map[0 := Done(Started(0)), 1 := Waiting])
    case 8 => System([RUNNING_TASK], map["x" := 0], Some(1), 1, [], [],
                     map[0 := Done(Started(0)), 1 := Waiting, 2 := Locking(StopAllOp)])
  }

  lemma Scene0()
    ensures Step(Scene(0), StartCall(0, "x", false)) == Scene(1)
  {
  }

  lemma Scene1()
    ensures Step(Scene(1), Acquire(0)) == Scene(2)
  {
  }

  lemma Scene2()
    ensures Step(Scene(2), InsertTask(0)) == Scene(3)
  {
  }

  lemma Scene3()
    ensures Step(Scene(3), Release(0)) == Scene(4)
  {
  }

  lemma Scene4()
    ensures Step(Scene(4), BeginStart(0)) == Scene(5)
  {
  }

  lemma Scene5()
    ensures Step(Scene(5), WaitCall(1)) == Scene(6)
  {
  }

  lemma Scene6()
    ensures Step(Scene(6), Acquire(1)) == Scene(7)
  {
  }

  lemma Scene7()
    ensures Step(Scene(7), StopAllCall(2)) == Scene(8)
  {
  }

  lemma SceneFollows(k: nat)
    requires k < 8
    ensures Step(Scene(k), WAIT_THEN_STOP_ALL[k]) == Scene(k + 1)
  {
    match k {
      case 0 => Scene0();
      case 1 => Scene1();
      case 2 => Scene2();
      case 3 => Scene3();
      case 4 => Scene4();
      case 5 => Scene5();
      case 6 => Scene6();
      case 7 => Scene7();
    }
  }

  lemma {:induction false} SceneReached(k: nat)
    requires k <= 8
    ensures After(WAIT_THEN_STOP_ALL[..k]) == Scene(k)
  {
    if k > 0 {
      SceneReached(k - 1);
      SceneFollows(k - 1);
      assert WAIT_THEN_STOP_ALL[..k][..k - 1] == WAIT_THEN_STOP_ALL[..k - 1];
    }
  }

  /**
    So the promise that StopAll returns when its context expires is not kept. After this
    run StopAll is behind Wait; of what is under way, nothing but the task's return from a
    Start that nobody has cancelled is enabled, no timeout in particular. Besides, only
    the context that was given to StartTask can still be cancelled.
   */
  lemma StopAllIgnoresItsContext(a: Action)
    ensures var s := After(WAIT_THEN_STOP_ALL);
      && 2 in s.clients && s.clients[2] == Locking(StopAllOp) && HeldUp(s, 1, 0) && !CanTimeOut(s, 2)
      && (Enabled(s, a) && !NewCall(a) ==> a == ParentCancels(0) || (a.StartReturns? && !Promised(s, a)))
  {
    SceneReached(8);
    assert WAIT_THEN_STOP_ALL[..8] == WAIT_THEN_STOP_ALL;
    TimesOutIff(Scene(8), 2);
    if Enabled(Scene(8), a) && !NewCall(a) { NothingElseIsEnabled(a); }
  }

  lemma NothingElseIsEnabled(a: Action)
    requires Enabled(Scene(8), a) && !NewCall(a)
    ensures a == ParentCancels(0) || (a.StartReturns? && !Promised(Scene(8), a))
  {
  }
}
