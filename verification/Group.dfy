/**
  The one-shot supervisor of core/task/group.go as a transition system: one step for
  each lock region and each channel operation of Start, of the goroutines it spawns and
  of any number of concurrent callers of Start and Stop.

  A run is any sequence of steps; a step that is not enabled leaves everything as it
  is, so every sequence is a run and every interleaving is one. Whether and when a task's
  Start and Stop return, and with what, is the environment's choice.
 */
module Group {
  import opened Common
  import opened TaskErrors

  datatype GroupState = Init | Running | Stopping | Stopped

  datatype Reason = NoReason | TaskFailure | ManualStop | ParentCancel

  // ------------------------------------------------------------ the Group struct

  /** The fields that the mutex guards. A channel field is described by whether it is non-nil. */
  datatype Fields = Fields(state: GroupState, hasStopReq: bool, hasDone: bool, resultErr: Errors)

  datatype Reply =
    | NilTask(index: nat)
    | AlreadyStarted
    | AlreadyStopped
    | NotStarted
    | ContextError
    | Result(errors: Errors)

  function EnterStart(g: Fields): (Fields, Option<Reply>) {
    match g.state
    case Init => (Fields(Running, true, true, []), None)
    case Stopped => (g, Some(AlreadyStopped))
    case _ => (g, Some(AlreadyStarted))
  }

  function EnterStopping(g: Fields): Fields {
    g.(state := Stopping)
  }

  function Publish(g: Fields, finalErr: Errors): Fields {
    g.(resultErr := finalErr, state := Stopped, hasStopReq := false)
  }

  /** The lock regions of the methods of Group. */
  class Group {
    var state: GroupState
    var hasStopReq: bool
    var hasDone: bool
    var resultErr: Errors

    ghost function View(): Fields
      reads this
    {
      Fields(state, hasStopReq, hasDone, resultErr)
    }

    constructor ()
      ensures View() == Fields(Init, false, false, [])
    {
      state, hasStopReq, hasDone, resultErr := Init, false, false, [];
    }

    method EnterStartRegion() returns (refusal: Option<Reply>)
      modifies this
      ensures (View(), refusal) == EnterStart(old(View()))
    {
      match state {
        case Init =>
          state := Running;
          hasStopReq, hasDone := true, true;
          resultErr := [];
          return None;
        case Running => return Some(AlreadyStarted);
        case Stopping => return Some(AlreadyStarted);
        case Stopped => return Some(AlreadyStopped);
      }
    }

    method BeginStopRegion()
      modifies this`state
      ensures View() == EnterStopping(old(View()))
    {
      state := Stopping;
    }

    method PublishRegion(finalErr: Errors)
      modifies this
      ensures View() == Publish(old(View()), finalErr)
    {
      resultErr := finalErr;
      state := Stopped;
      hasStopReq := false;
    }

    /** The check that precedes Start's lock region; None stands for a nil task. */
    static method FirstNil<T>(tasks: seq<Option<T>>) returns (index: Option<nat>)
      ensures index.None? ==> forall i :: 0 <= i < |tasks| ==> tasks[i].Some?
      ensures index.Some? ==> index.value < |tasks| && tasks[index.value].None?
                              && forall i :: 0 <= i < index.value ==> tasks[i].Some?
    {
      var i := 0;
      while i < |tasks|
        invariant 0 <= i <= |tasks|
        invariant forall j :: 0 <= j < i ==> tasks[j].Some?
      {
        if tasks[i].None? { return Some(i); }
        i := i + 1;
      }
      return None;
    }

    method StopRegion() returns (next: Caller)
      ensures next == StopCaller(View())
    {
      match state {
        case Init => next := Done(NotStarted);
        case Running =>
          if hasStopReq {
            next := Sending;
          } else if hasDone {
            next := Waiting;
          } else {
            next := Done(Result([]));
          }
        case Stopping => next := if hasDone then Waiting else Done(Result([]));
        case Stopped => next := Done(Result(resultErr));
      }
    }

    method IsStarted() returns (r: bool)
      ensures r <==> View().state != Init
    {
      return state == Running || state == Stopping || state == Stopped;
    }

    method IsStopped() returns (r: bool)
      ensures r <==> View().state == Stopped
    {
      return state == Stopped;
    }
  }

  // ----------------------------------------------------------------- the protocol

  /** Where the goroutine that won Start is. */
  datatype StartPc =
    | Idle                          // nobody has entered Start
    | Selecting                     // at the select loop
    | Beginning                     // in beginStop, before its lock region
    | Joining                       // past the loop
    | Publishing(finalErr: Errors)  // before the last lock region
    | Closing(finalErr: Errors)     // before close(doneCh)
    | Finished(finalErr: Errors)

  datatype StartStatus = Spawned | InStart | Returned(outcome: Outcome) | Reported(outcome: Outcome)

  /** The start goroutines; `results` lists the tasks in the order in which they sent their result. */
  datatype StartSide = StartSide(status: seq<StartStatus>, results: seq<nat>)

  datatype StopStatus = NotAsked | Asked | InStop | Stopped'(outcome: Outcome) | Recorded(outcome: Outcome)

  /** The stop goroutines; `records` lists the tasks in the order in which they recorded their outcome. */
  datatype StopSide = StopSide(status: seq<StopStatus>, calls: seq<nat>, records: seq<nat>, errs: Errors, done: bool)

  /**
    Start's local variables. `received` is how many results have been taken from the
    channel; stopInProgress is true exactly when `reason` is set.
   */
  datatype Loop = Loop(pc: StartPc, received: nat, startErrs: Errors, reason: Reason)

  datatype Caller = Starting | Sending | Waiting | Reading | Done(reply: Reply)

  datatype System = System(
    n: nat, nilTask: Option<nat>,
    g: Fields, stopReq: seq<Reason>, doneClosed: bool, parentDone: bool,
    start: StartSide, stop: StopSide, loop: Loop, owner: nat, callers: map<nat, Caller>)

  datatype Action =
    | StartCall(who: nat)
    | BeginTask(task: nat)
    | TaskReturns(task: nat, outcome: Outcome)
    | SendResult(task: nat)
    | ParentCancels
    | RecvStop
    | SeeParentDone
    | RecvResult
    | LockStopping
    | CallStop(task: nat)
    | StopReturns(task: nat, outcome: Outcome)
    | RecordStop(task: nat)
    | CloseStopDone
    | ExitLoop
    | JoinStops
    | PublishResult
    | CloseDone
    | StopCall(who: nat)
    | SendStop(who: nat)
    | SeeDone(who: nat)
    | ReadResult(who: nat)
    | GiveUp(who: nat)

  predicate CallerIs(s: System, who: nat, caller: Caller) {
    who in s.callers && s.callers[who] == caller
  }

  /** The select loop is waiting for results. */
  predicate AtSelect(s: System) {
    s.loop.pc == Selecting && s.loop.received < s.n
  }

  predicate Enabled(s: System, a: Action) {
    match a
    case StartCall(who) => who !in s.callers
    case BeginTask(i) => s.loop.pc != Idle && i < |s.start.status| && s.start.status[i].Spawned?
    case TaskReturns(i, _) => i < |s.start.status| && s.start.status[i].InStart?
    case SendResult(i) =>
      i < |s.start.status| && s.start.status[i].Returned? && |s.start.results| - s.loop.received < s.n
    case ParentCancels => true
    case RecvStop => AtSelect(s) && s.stopReq != []
    case SeeParentDone => AtSelect(s) && s.parentDone
    case RecvResult => AtSelect(s) && ResultReady(s)
    case LockStopping => s.loop.pc == Beginning
    case CallStop(i) => i < |s.stop.status| && i < |s.stop.calls| && s.stop.status[i].Asked?
    case StopReturns(i, _) => i < |s.stop.status| && s.stop.status[i].InStop?
    case RecordStop(i) => i < |s.stop.status| && s.stop.status[i].Stopped'?
    case CloseStopDone => StopsSpawned(s.loop) && !s.stop.done && AllRecorded(s.stop)
    case ExitLoop => s.loop.pc == Selecting && s.loop.received >= s.n
    case JoinStops => s.loop.pc == Joining && (s.loop.reason != NoReason ==> s.stop.done)
    case PublishResult => s.loop.pc.Publishing?
    case CloseDone => s.loop.pc.Closing?
    case StopCall(who) => who !in s.callers
    case SendStop(who) => CallerIs(s, who, Sending)
    case SeeDone(who) => CallerIs(s, who, Waiting) && s.doneClosed
    case ReadResult(who) => CallerIs(s, who, Reading)
    case GiveUp(who) => CallerIs(s, who, Waiting)
  }

  /** The head of the result channel is a task that has sent its outcome. */
  predicate ResultReady(s: System) {
    s.loop.received < |s.start.results|
    && s.start.results[s.loop.received] < |s.start.status|
    && s.start.status[s.start.results[s.loop.received]].Reported?
  }

  /** The stop goroutines exist once beginStop has left its lock region. */
  predicate StopsSpawned(loop: Loop) {
    loop.reason != NoReason && loop.pc != Beginning
  }

  predicate AllRecorded(stop: StopSide) {
    forall i :: 0 <= i < |stop.status| ==> stop.status[i].Recorded?
  }

  /** beginStop: only the first reason counts. */
  function Trigger(loop: Loop, reason: Reason): Loop {
    if loop.reason == NoReason then loop.(reason := reason, pc := Beginning) else loop
  }

  function FinalError(loop: Loop, stopErrs: Errors): Errors {
    match loop.reason
    case TaskFailure => loop.startErrs + stopErrs
    case NoReason => loop.startErrs
    case _ => stopErrs
  }

  function ReceiveResult(loop: Loop, outcome: Outcome): Loop {
    var next := loop.(received := loop.received + 1, startErrs := loop.startErrs + StartFailureOf(outcome));
    if StartFailureOf(outcome) == [] then next else Trigger(next, TaskFailure)
  }

  function SetCaller(s: System, who: nat, caller: Caller): System {
    s.(callers := s.callers[who := caller])
  }

  /** waitForDone returns nil at once when there is no channel to wait on. */
  function WaitForDone(g: Fields): Caller {
    if g.hasDone then Waiting else Done(Result([]))
  }

  /** What Stop goes on with after its lock region. */
  function StopCaller(g: Fields): Caller {
    match g.state
    case Init => Done(NotStarted)
    case Running => if g.hasStopReq then Sending else WaitForDone(g)
    case Stopping => WaitForDone(g)
    case Stopped => Done(Result(g.resultErr))
  }

  function Do(s: System, a: Action): System
    requires Enabled(s, a)
  {
    match a
    case StartCall(who) =>
      if s.nilTask.Some? then SetCaller(s, who, Done(NilTask(s.nilTask.value)))
      else
        var (g, refusal) := EnterStart(s.g);
        if refusal.Some? then SetCaller(s, who, Done(refusal.value))
        else SetCaller(s, who, Starting).(g := g, owner := who, loop := s.loop.(pc := Selecting))
    case BeginTask(i) => s.(start := s.start.(status := s.start.status[i := InStart]))
    case TaskReturns(i, outcome) => s.(start := s.start.(status := s.start.status[i := Returned(outcome)]))
    case SendResult(i) =>
      s.(start := StartSide(s.start.status[i := Reported(s.start.status[i].outcome)], s.start.results + [i]))
    case ParentCancels => s.(parentDone := true)
    case RecvStop => s.(stopReq := s.stopReq[1..], loop := Trigger(s.loop, s.stopReq[0]))
    case SeeParentDone => s.(loop := Trigger(s.loop, ParentCancel))
    case RecvResult =>
      s.(loop := ReceiveResult(s.loop, s.start.status[s.start.results[s.loop.received]].outcome))
    case LockStopping =>
      s.(g := EnterStopping(s.g), loop := s.loop.(pc := Selecting),
         stop := s.stop.(status := seq(|s.stop.status|, i => Asked)))
    case CallStop(i) =>
      s.(stop := s.stop.(status := s.stop.status[i := InStop], calls := s.stop.calls[i := s.stop.calls[i] + 1]))
    case StopReturns(i, outcome) => s.(stop := s.stop.(status := s.stop.status[i := Stopped'(outcome)]))
    case RecordStop(i) =>
      var outcome := s.stop.status[i].outcome;
      s.(stop := s.stop.(status := s.stop.status[i := Recorded(outcome)], records := s.stop.records + [i],
                         errs := s.stop.errs + FailureOf(outcome)))
    case CloseStopDone => s.(stop := s.stop.(done := true))
    case ExitLoop => s.(loop := s.loop.(pc := Joining))
    case JoinStops => s.(loop := s.loop.(pc := Publishing(FinalError(s.loop, s.stop.errs))))
    case PublishResult =>
      s.(g := Publish(s.g, s.loop.pc.finalErr), loop := s.loop.(pc := Closing(s.loop.pc.finalErr)))
    case CloseDone =>
      SetCaller(s, s.owner, Done(Result(s.loop.pc.finalErr)))
      .(doneClosed := true, loop := s.loop.(pc := Finished(s.loop.pc.finalErr)))
    case StopCall(who) =>
      SetCaller(s, who, StopCaller(s.g))
    case SendStop(who) =>
      SetCaller(s, who, WaitForDone(s.g)).(stopReq := if s.stopReq == [] then [ManualStop] else s.stopReq)
    case SeeDone(who) => SetCaller(s, who, Reading)
    case ReadResult(who) => SetCaller(s, who, Done(Result(s.g.resultErr)))
    case GiveUp(who) => SetCaller(s, who, Done(ContextError))
  }

  function Step(s: System, a: Action): System {
    if Enabled(s, a) then Do(s, a) else s
  }

  function Initially(n: nat, nilTask: Option<nat>): System {
    System(n, nilTask, Fields(Init, false, false, []), [], false, false,
           StartSide(seq(n, i => Spawned), []),
           StopSide(seq(n, i => NotAsked), seq(n, i => 0), [], [], false),
           Loop(Idle, 0, [], NoReason), 0, map[])
  }

  function After(n: nat, nilTask: Option<nat>, run: seq<Action>): System {
    if run == [] then Initially(n, nilTask) else Step(After(n, nilTask, run[..|run| - 1]), run[|run| - 1])
  }

  // ------------------------------------------------------------------ invariants

  /** Each task has sent its result at most once, and exactly when its status says so. */
  ghost predicate StartInv(n: nat, start: StartSide) {
    && |start.status| == n && Distinct(start.results)
    && (forall i :: i in start.results ==> i < n)
    && (forall i :: 0 <= i < n ==> (start.status[i].Reported? <==> i in start.results))
  }

  function StartErrors(start: StartSide, upTo: nat): Errors
    requires upTo <= |start.results|
    requires forall i :: 0 <= i < upTo ==>
      start.results[i] < |start.status| && start.status[start.results[i]].Reported?
  {
    if upTo == 0 then []
    else StartErrors(start, upTo - 1) + StartFailureOf(start.status[start.results[upTo - 1]].outcome)
  }

  function StopErrors(status: seq<StopStatus>, records: seq<nat>): Errors
    requires forall i :: 0 <= i < |records| ==> records[i] < |status| && status[records[i]].Recorded?
  {
    if records == [] then []
    else StopErrors(status, records[..|records| - 1]) + FailureOf(status[records[|records| - 1]].outcome)
  }

  /** No Stop is called before shutdown begins; then each is called once. */
  ghost predicate StopCallsInv(n: nat, stop: StopSide, spawned: bool) {
    && |stop.status| == n && |stop.calls| == n
    && (forall i :: 0 <= i < n ==> (stop.status[i].NotAsked? <==> !spawned))
    && (forall i :: 0 <= i < n ==>
         stop.calls[i] == if stop.status[i].NotAsked? || stop.status[i].Asked? then 0 else 1)
    && (stop.done ==> spawned && AllRecorded(stop))
  }

  /** And recorded once. */
  ghost predicate StopRecordsInv(n: nat, stop: StopSide) {
    && |stop.status| == n && Distinct(stop.records)
    && (forall i :: i in stop.records ==> i < n)
    && (forall i :: 0 <= i < n ==> (stop.status[i].Recorded? <==> i in stop.records))
  }

  ghost predicate StopErrsInv(stop: StopSide) {
    && (forall i :: 0 <= i < |stop.records| ==>
         stop.records[i] < |stop.status| && stop.status[stop.records[i]].Recorded?)
    && stop.errs == StopErrors(stop.status, stop.records)
  }

  ghost predicate StopInv(n: nat, stop: StopSide, spawned: bool) {
    && StopCallsInv(n, stop, spawned) && StopRecordsInv(n, stop) && StopErrsInv(stop)
    && (!spawned ==> stop.records == [])
  }

  predicate PastLoop(pc: StartPc) {
    pc.Joining? || HasFinal(pc)
  }

  predicate HasFinal(pc: StartPc) {
    pc.Publishing? || pc.Closing? || pc.Finished?
  }

  /** The loop has kept the failures among the results it has taken. */
  ghost predicate ReceivedInv(start: StartSide, received: nat, startErrs: Errors) {
    && received <= |start.results|
    && (forall i :: 0 <= i < |start.results| ==>
         start.results[i] < |start.status| && start.status[start.results[i]].Reported?)
    && startErrs == StartErrors(start, received)
  }

  ghost predicate LoopInv(n: nat, start: StartSide, stop: StopSide, loop: Loop) {
    && ReceivedInv(start, loop.received, loop.startErrs)
    && (loop.pc == Idle ==> loop.received == 0 && loop.reason == NoReason
                            && start.results == [] && forall i :: 0 <= i < |start.status| ==> start.status[i].Spawned?)
    && (loop.pc == Beginning ==> loop.reason != NoReason)
    && (loop.startErrs != [] ==> loop.reason != NoReason)
    && (PastLoop(loop.pc) ==> loop.received == n)
    && (HasFinal(loop.pc) ==> (loop.reason != NoReason ==> stop.done)
                              && loop.pc.finalErr == FinalError(loop, stop.errs))
  }

  ghost predicate FieldsInv(g: Fields, loop: Loop, doneClosed: bool, stopReq: seq<Reason>) {
    && g.state == (match loop.pc
                   case Idle => Init
                   case Closing(_) => Stopped
                   case Finished(_) => Stopped
                   case Beginning => Running
                   case _ => if loop.reason == NoReason then Running else Stopping)
    && (g.hasStopReq <==> g.state == Running || g.state == Stopping)
    && (g.hasDone <==> loop.pc != Idle)
    && (loop.pc.Closing? || loop.pc.Finished? ==> g.resultErr == loop.pc.finalErr)
    && (doneClosed <==> loop.pc.Finished?)
    && |stopReq| <= 1 && (forall i :: 0 <= i < |stopReq| ==> stopReq[i] == ManualStop)
  }

  ghost predicate CallerInv(caller: Caller, g: Fields, loop: Loop) {
    && (caller != Done(NotStarted) && !(caller.Done? && caller.reply.NilTask?) ==> loop.pc != Idle)
    && (caller == Reading ==> loop.pc.Finished?)
    && (caller.Done? && caller.reply.Result? ==> g.state == Stopped && caller.reply.errors == g.resultErr)
  }

  ghost predicate CallersInv(s: System) {
    && (forall who :: who in s.callers ==> CallerInv(s.callers[who], s.g, s.loop))
    && (s.loop.pc != Idle && !s.loop.pc.Finished? ==> s.owner in s.callers && s.callers[s.owner] == Starting)
    && (forall who :: who in s.callers && s.callers[who] == Starting ==> who == s.owner)
    && (s.loop.pc.Finished? ==> s.owner in s.callers && s.callers[s.owner] == Done(Result(s.loop.pc.finalErr)))
  }

  ghost predicate Inv(s: System) {
    && StartInv(s.n, s.start)
    && StopInv(s.n, s.stop, StopsSpawned(s.loop))
    && LoopInv(s.n, s.start, s.stop, s.loop)
    && FieldsInv(s.g, s.loop, s.doneClosed, s.stopReq)
    && CallersInv(s)
  }

  // ------------------------------------------------------ the task goroutines

  lemma {:induction false} StartErrorsStable(start: StartSide, start': StartSide, upTo: nat)
    requires upTo <= |start.results| <= |start'.results|
    requires forall i :: 0 <= i < |start.results| ==> start'.results[i] == start.results[i]
    requires forall i :: 0 <= i < |start.results| ==>
      && start.results[i] < |start.status| && start.status[start.results[i]].Reported?
      && start.results[i] < |start'.status| && start'.status[start.results[i]] == start.status[start.results[i]]
    ensures StartErrors(start', upTo) == StartErrors(start, upTo)
  {
    if upTo > 0 { StartErrorsStable(start, start', upTo - 1); }
  }

  lemma {:induction false} StopErrorsStable(status: seq<StopStatus>, status': seq<StopStatus>, records: seq<nat>)
    requires forall i :: 0 <= i < |records| ==> records[i] < |status| && status[records[i]].Recorded?
    requires forall i :: 0 <= i < |records| ==> records[i] < |status'| && status'[records[i]] == status[records[i]]
    ensures StopErrors(status', records) == StopErrors(status, records)
  {
    if records != [] { StopErrorsStable(status, status', records[..|records| - 1]); }
  }

  /** The steps of the goroutines that run the tasks' Start. */
  predicate StartAction(a: Action) {
    a.BeginTask? || a.TaskReturns? || a.SendResult?
  }

  lemma StatusChanges(n: nat, start: StartSide, stop: StopSide, loop: Loop, i: nat, status: StartStatus)
    requires StartInv(n, start) && LoopInv(n, start, stop, loop) && loop.pc != Idle && i < n
    requires !start.status[i].Reported? && !status.Reported?
    ensures StartInv(n, start.(status := start.status[i := status]))
    ensures LoopInv(n, start.(status := start.status[i := status]), stop, loop)
  {
    StartErrorsStable(start, start.(status := start.status[i := status]), loop.received);
  }

  lemma SendResultStartInv(n: nat, start: StartSide, i: nat)
    requires StartInv(n, start) && i < n && start.status[i].Returned?
    ensures StartInv(n, StartSide(start.status[i := Reported(start.status[i].outcome)], start.results + [i]))
  {
    assert forall j :: j in start.results + [i] <==> j in start.results || j == i;
    AppendDistinct(start.results, i);
  }

  lemma SendResultLoopInv(n: nat, start: StartSide, stop: StopSide, loop: Loop, i: nat)
    requires StartInv(n, start) && LoopInv(n, start, stop, loop) && loop.pc != Idle && i < n
    requires start.status[i].Returned?
    ensures LoopInv(n, StartSide(start.status[i := Reported(start.status[i].outcome)], start.results + [i]),
                    stop, loop)
  {
    ResultSent(start, loop.received, loop.startErrs, i);
  }

  lemma ResultSent(start: StartSide, received: nat, startErrs: Errors, i: nat)
    requires ReceivedInv(start, received, startErrs) && i < |start.status| && start.status[i].Returned?
    ensures ReceivedInv(StartSide(start.status[i := Reported(start.status[i].outcome)], start.results + [i]),
                        received, startErrs)
  {
    var start' := StartSide(start.status[i := Reported(start.status[i].outcome)], start.results + [i]);
    StartErrorsStable(start, start', received);
  }

  lemma AppendDistinct(s: seq<nat>, x: nat)
    requires Distinct(s) && x !in s
    ensures Distinct(s + [x])
  {
    forall i, j | 0 <= i < j < |s| + 1 ensures (s + [x])[i] != (s + [x])[j] {
      assert s[i] in s;
    }
  }

  lemma StartStepInv(s: System, a: Action)
    requires Inv(s) && Enabled(s, a) && StartAction(a)
    ensures Inv(Step(s, a))
  {
    match a {
      case BeginTask(i) => StatusChanges(s.n, s.start, s.stop, s.loop, i, InStart);
      case TaskReturns(i, outcome) => StatusChanges(s.n, s.start, s.stop, s.loop, i, Returned(outcome));
      case SendResult(i) =>
        SendResultStartInv(s.n, s.start, i);
        SendResultLoopInv(s.n, s.start, s.stop, s.loop, i);
    }
  }

  /** The steps of the goroutines that run the tasks' Stop. */
  predicate StopAction(a: Action) {
    a.CallStop? || a.StopReturns? || a.RecordStop? || a.CloseStopDone?
  }

  /** While a Stop is still to be recorded, the final error has not been computed. */
  lemma StopStepsPrecedeTheEnd(s: System, a: Action)
    requires Inv(s) && Enabled(s, a) && StopAction(a)
    ensures StopsSpawned(s.loop) && !s.stop.done && !HasFinal(s.loop.pc)
  {
  }

  lemma CallStopInv(n: nat, stop: StopSide, i: nat)
    requires StopInv(n, stop, true) && !stop.done && i < n && stop.status[i].Asked?
    ensures StopInv(n, stop.(status := stop.status[i := InStop], calls := stop.calls[i := stop.calls[i] + 1]), true)
  {
    StopErrorsStable(stop.status, stop.status[i := InStop], stop.records);
  }

  lemma StopReturnsInv(n: nat, stop: StopSide, i: nat, outcome: Outcome)
    requires StopInv(n, stop, true) && !stop.done && i < n && stop.status[i].InStop?
    ensures StopInv(n, stop.(status := stop.status[i := Stopped'(outcome)]), true)
  {
    StopErrorsStable(stop.status, stop.status[i := Stopped'(outcome)], stop.records);
  }

  lemma RecordStopInv(n: nat, stop: StopSide, i: nat)
    requires StopInv(n, stop, true) && !stop.done && i < n && stop.status[i].Stopped'?
    ensures var outcome := stop.status[i].outcome;
      StopInv(n, stop.(status := stop.status[i := Recorded(outcome)], records := stop.records + [i],
                       errs := stop.errs + FailureOf(outcome)), true)
  {
    RecordedCalls(n, stop, i);
    RecordedOnce(n, stop, i);
    RecordedErrors(stop, i);
  }

  lemma RecordedCalls(n: nat, stop: StopSide, i: nat)
    requires StopCallsInv(n, stop, true) && !stop.done && i < n && stop.status[i].Stopped'?
    ensures var outcome := stop.status[i].outcome;
      StopCallsInv(n, stop.(status := stop.status[i := Recorded(outcome)], records := stop.records + [i],
                            errs := stop.errs + FailureOf(outcome)), true)
  {
  }

  lemma RecordedOnce(n: nat, stop: StopSide, i: nat)
    requires StopRecordsInv(n, stop) && i < n && stop.status[i].Stopped'?
    ensures var outcome := stop.status[i].outcome;
      StopRecordsInv(n, stop.(status := stop.status[i := Recorded(outcome)], records := stop.records + [i],
                              errs := stop.errs + FailureOf(outcome)))
  {
    assert forall j :: j in stop.records + [i] <==> j in stop.records || j == i;
    AppendDistinct(stop.records, i);
  }

  lemma RecordedErrors(stop: StopSide, i: nat)
    requires i < |stop.status| && stop.status[i].Stopped'?
    requires forall j :: 0 <= j < |stop.records| ==>
      stop.records[j] < |stop.status| && stop.status[stop.records[j]].Recorded?
    ensures var outcome := stop.status[i].outcome;
      StopErrors(stop.status[i := Recorded(outcome)], stop.records + [i])
      == StopErrors(stop.status, stop.records) + FailureOf(outcome)
  {
    var status', records' := stop.status[i := Recorded(stop.status[i].outcome)], stop.records + [i];
    StopErrorsStable(stop.status, status', stop.records);
    assert records'[..|records'| - 1] == stop.records;
  }

  lemma StopStepInv(s: System, a: Action)
    requires Inv(s) && Enabled(s, a) && StopAction(a)
    ensures Inv(Step(s, a))
  {
    StopStepsPrecedeTheEnd(s, a);
    match a {
      case CallStop(i) => CallStopInv(s.n, s.stop, i);
      case StopReturns(i, outcome) => StopReturnsInv(s.n, s.stop, i, outcome);
      case RecordStop(i) => RecordStopInv(s.n, s.stop, i);
      case CloseStopDone =>
    }
  }

  // ------------------------------------------------------------ Start and callers

  /** The steps of the goroutine in Start and of its parent context. */
  predicate LoopAction(a: Action) {
    a.ParentCancels? || a.RecvStop? || a.SeeParentDone? || a.RecvResult? || a.LockStopping? || a.ExitLoop?
    || a.JoinStops? || a.PublishResult? || a.CloseDone?
  }

  lemma TriggerInv(s: System, reason: Reason, stopReq: seq<Reason>)
    requires Inv(s) && s.loop.pc == Selecting && reason != NoReason
    requires stopReq == s.stopReq || stopReq == []
    ensures Inv(s.(loop := Trigger(s.loop, reason), stopReq := stopReq))
  {
  }

  lemma RecvResultInv(s: System, outcome: Outcome)
    requires Inv(s) && AtSelect(s) && ResultReady(s)
    requires outcome == s.start.status[s.start.results[s.loop.received]].outcome
    ensures Inv(s.(loop := ReceiveResult(s.loop, outcome)))
  {
    ReceivedLoopInv(s.n, s.start, s.stop, s.loop, outcome);
    ReceivedFieldsInv(s, ReceiveResult(s.loop, outcome));
  }

  lemma ReceivedLoopInv(n: nat, start: StartSide, stop: StopSide, loop: Loop, outcome: Outcome)
    requires LoopInv(n, start, stop, loop) && loop.pc == Selecting && loop.received < |start.results|
    requires outcome == start.status[start.results[loop.received]].outcome
    ensures LoopInv(n, start, stop, ReceiveResult(loop, outcome))
    ensures StopsSpawned(ReceiveResult(loop, outcome)) == StopsSpawned(loop)
  {
    ReceivedErrors(start, loop.received);
    if StartFailureOf(outcome) == [] {
      assert loop.startErrs + StartFailureOf(outcome) == loop.startErrs;
    }
  }

  lemma ReceivedErrors(start: StartSide, k: nat)
    requires k < |start.results|
    requires forall i :: 0 <= i <= k ==>
      start.results[i] < |start.status| && start.status[start.results[i]].Reported?
    ensures StartErrors(start, k + 1)
      == StartErrors(start, k) + StartFailureOf(start.status[start.results[k]].outcome)
  {
  }

  /** At the select loop, moving to beginStop changes nothing that callers can see. */
  lemma ReceivedFieldsInv(s: System, loop: Loop)
    requires FieldsInv(s.g, s.loop, s.doneClosed, s.stopReq) && CallersInv(s)
    requires s.loop.pc == Selecting
    requires (loop.pc == Selecting && loop.reason == s.loop.reason)
             || (loop.pc == Beginning && s.loop.reason == NoReason)
    ensures FieldsInv(s.g, loop, s.doneClosed, s.stopReq) && CallersInv(s.(loop := loop))
  {
  }

  /** There are never more results than tasks, so the loop stops at exactly n. */
  lemma ResultsBounded(n: nat, start: StartSide)
    requires StartInv(n, start)
    ensures |start.results| <= n
    ensures |start.results| == n ==> forall i :: 0 <= i < n ==> start.status[i].Reported?
  {
    Pigeonhole(start.results, n);
  }

  lemma LockStoppingInv(s: System)
    requires Inv(s) && s.loop.pc == Beginning
    ensures Inv(Step(s, LockStopping))
  {
    var s' := Step(s, LockStopping);
    assert s'.stop.records == [];
  }

  /** The steps that follow the select loop. */
  lemma ExitLoopInv(s: System)
    requires Inv(s) && s.loop.pc == Selecting && s.loop.received >= s.n
    ensures Inv(Step(s, ExitLoop))
  {
    ResultsBounded(s.n, s.start);
  }

  lemma EndStepInv(s: System, a: Action)
    requires Inv(s) && Enabled(s, a) && (a.JoinStops? || a.PublishResult?)
    ensures Inv(Step(s, a))
  {
  }

  lemma CloseDoneInv(s: System)
    requires Inv(s) && s.loop.pc.Closing?
    ensures Inv(Step(s, CloseDone))
  {
  }

  lemma LoopStepInv(s: System, a: Action)
    requires Inv(s) && Enabled(s, a) && LoopAction(a)
    ensures Inv(Step(s, a))
  {
    match a {
      case RecvStop => TriggerInv(s, s.stopReq[0], s.stopReq[1..]);
      case SeeParentDone => TriggerInv(s, ParentCancel, s.stopReq);
      case RecvResult => RecvResultInv(s, s.start.status[s.start.results[s.loop.received]].outcome);
      case LockStopping => LockStoppingInv(s);
      case CloseDone => CloseDoneInv(s);
      case ExitLoop => ExitLoopInv(s);
      case ParentCancels =>
      case _ => EndStepInv(s, a);
    }
  }

  /** A caller's step that changes nothing but its own state. */
  lemma CallerMoves(s: System, who: nat, caller: Caller)
    requires Inv(s) && CallerInv(caller, s.g, s.loop) && caller != Starting
    requires who in s.callers ==> s.callers[who] != Starting && !s.callers[who].Done?
    ensures Inv(SetCaller(s, who, caller))
  {
  }

  lemma EnterStartInv(s: System, who: nat)
    requires Inv(s) && who !in s.callers && s.g.state == Init && s.nilTask.None?
    ensures Inv(Step(s, StartCall(who)))
  {
  }

  lemma SendStopInv(s: System, who: nat)
    requires Inv(s) && Enabled(s, SendStop(who))
    ensures Inv(Step(s, SendStop(who)))
  {
    CallerMoves(s, who, Waiting);
  }

  lemma CallerStepInv(s: System, a: Action)
    requires Inv(s) && Enabled(s, a) && !StartAction(a) && !StopAction(a) && !LoopAction(a)
    ensures Inv(Step(s, a))
  {
    match a {
      case StartCall(who) =>
        if s.nilTask.Some? {
          CallerMoves(s, who, Done(NilTask(s.nilTask.value)));
        } else if s.g.state == Init {
          EnterStartInv(s, who);
        } else {
          CallerMoves(s, who, Done(EnterStart(s.g).1.value));
        }
      case StopCall(who) => CallerMoves(s, who, StopCaller(s.g));
      case SendStop(who) => SendStopInv(s, who);
      case SeeDone(who) => CallerMoves(s, who, Reading);
      case ReadResult(who) => CallerMoves(s, who, Done(Result(s.g.resultErr)));
      case GiveUp(who) => CallerMoves(s, who, Done(ContextError));
    }
  }

  lemma StepKeepsSize(s: System, a: Action)
    ensures Step(s, a).n == s.n
  {
  }

  lemma StepInv(s: System, a: Action)
    requires Inv(s)
    ensures Inv(Step(s, a))
  {
    if Enabled(s, a) {
      if StartAction(a) { StartStepInv(s, a); }
      else if StopAction(a) { StopStepInv(s, a); }
      else if LoopAction(a) { LoopStepInv(s, a); }
      else { CallerStepInv(s, a); }
    }
  }

  lemma InitialInv(n: nat, nilTask: Option<nat>)
    ensures Inv(Initially(n, nilTask))
  {
  }

  lemma {:induction false} RunInv(n: nat, nilTask: Option<nat>, run: seq<Action>)
    ensures Inv(After(n, nilTask, run)) && After(n, nilTask, run).n == n
  {
    if run == [] {
      InitialInv(n, nilTask);
    } else {
      RunInv(n, nilTask, run[..|run| - 1]);
      StepInv(After(n, nilTask, run[..|run| - 1]), run[|run| - 1]);
      StepKeepsSize(After(n, nilTask, run[..|run| - 1]), run[|run| - 1]);
    }
  }
}
