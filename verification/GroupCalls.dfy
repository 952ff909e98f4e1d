/**
  What each call of a task group's Start and Stop gets, told by where the run of the group is,
  and what the record of a run says about the calls that were made in it.
 */
module GroupCalls {
  import opened Common
  import opened TaskErrors
  import opened Group
  import opened GroupRuns

  /** The result has been published. */
  predicate Published(s: System) {
    s.loop.pc.Closing? || s.loop.pc.Finished?
  }

  /** Beginning to stop: the state field says so. */
  predicate ShuttingDown(s: System) {
    s.loop.reason != NoReason && s.loop.pc != Beginning && !Published(s)
  }

  /** A step by which one caller gets to a new place and nothing else happens. */
  ghost predicate OnlyCaller(s: System, a: Action, who: nat, caller: Caller) {
    Enabled(s, a) && Step(s, a) == s.(callers := s.callers[who := caller])
  }

  // ------------------------------------------------------------------- new calls

  /**
    A new call of Start: a nil task is reported before anything else; the first call gets in and
    opens the group; later ones are told whether the group has been stopped.
   */
  lemma StartAnswers(s: System, who: nat)
    requires Reachable(s) && who !in s.callers
    ensures s.nilTask.Some? ==> OnlyCaller(s, StartCall(who), who, Done(NilTask(s.nilTask.value)))
    ensures s.nilTask.None? && s.loop.pc == Idle ==>
      var s' := Step(s, StartCall(who));
      && CallerIs(s', who, Starting) && s'.owner == who && s'.loop.pc == Selecting
      && s'.g == Fields(Running, true, true, []) && s'.start == s.start && s'.stop == s.stop
    ensures s.nilTask.None? && s.loop.pc != Idle && !Published(s) ==>
      OnlyCaller(s, StartCall(who), who, Done(AlreadyStarted))
    ensures s.nilTask.None? && Published(s) ==> OnlyCaller(s, StartCall(who), who, Done(AlreadyStopped))
  {
    ReachableInv(s);
    StartAnswersAt(s, who);
  }

  lemma StartAnswersAt(s: System, who: nat)
    requires FieldsInv(s.g, s.loop, s.doneClosed, s.stopReq) && who !in s.callers
    ensures s.nilTask.Some? ==> OnlyCaller(s, StartCall(who), who, Done(NilTask(s.nilTask.value)))
    ensures s.nilTask.None? && s.loop.pc == Idle ==>
      var s' := Step(s, StartCall(who));
      && CallerIs(s', who, Starting) && s'.owner == who && s'.loop.pc == Selecting
      && s'.g == Fields(Running, true, true, []) && s'.start == s.start && s'.stop == s.stop
    ensures s.nilTask.None? && s.loop.pc != Idle && !Published(s) ==>
      OnlyCaller(s, StartCall(who), who, Done(AlreadyStarted))
    ensures s.nilTask.None? && Published(s) ==> OnlyCaller(s, StartCall(who), who, Done(AlreadyStopped))
  {
  }

  /**
    A new call of Stop: before Start it is refused; on a running group it goes on to ask for
    the stop; while the group shuts down it waits; afterwards it gets the published error.
   */
  lemma StopAnswers(s: System, who: nat)
    requires Reachable(s) && who !in s.callers
    ensures s.loop.pc == Idle ==> s.g.state == Init && OnlyCaller(s, StopCall(who), who, Done(NotStarted))
    ensures s.loop.pc != Idle && !ShuttingDown(s) && !Published(s) ==>
      s.g.state == Running && OnlyCaller(s, StopCall(who), who, Sending)
    ensures ShuttingDown(s) && s.loop.pc != Idle ==>
      s.g.state == Stopping && OnlyCaller(s, StopCall(who), who, Waiting)
    ensures Published(s) ==>
      s.g.state == Stopped && OnlyCaller(s, StopCall(who), who, Done(Result(s.loop.pc.finalErr)))
  {
    ReachableInv(s);
    StopAnswersAt(s, who);
  }

  lemma StopAnswersAt(s: System, who: nat)
    requires FieldsInv(s.g, s.loop, s.doneClosed, s.stopReq) && who !in s.callers
    ensures s.loop.pc == Idle ==> s.g.state == Init && OnlyCaller(s, StopCall(who), who, Done(NotStarted))
    ensures s.loop.pc != Idle && !ShuttingDown(s) && !Published(s) ==>
      s.g.state == Running && OnlyCaller(s, StopCall(who), who, Sending)
    ensures ShuttingDown(s) && s.loop.pc != Idle ==>
      s.g.state == Stopping && OnlyCaller(s, StopCall(who), who, Waiting)
    ensures Published(s) ==>
      s.g.state == Stopped && OnlyCaller(s, StopCall(who), who, Done(Result(s.loop.pc.finalErr)))
  {
  }

  /** Asking for the stop never waits, leaves one request in the channel, and then the caller waits. */
  lemma SendingAsks(s: System, who: nat)
    requires Reachable(s) && CallerIs(s, who, Sending)
    ensures Enabled(s, SendStop(who))
    ensures Step(s, SendStop(who)) == s.(callers := s.callers[who := Waiting], stopReq := [ManualStop])
  {
    ReachableInv(s);
    SendingAsksAt(s, who);
  }

  lemma SendingAsksAt(s: System, who: nat)
    requires Inv(s) && CallerIs(s, who, Sending)
    ensures Step(s, SendStop(who)) == s.(callers := s.callers[who := Waiting], stopReq := [ManualStop])
  {
    assert CallerInv(s.callers[who], s.g, s.loop);
    assert s.stopReq != [] ==> s.stopReq == [ManualStop];
  }

  /** A waiting caller is woken by the end of the run, and by its own context at any time. */
  lemma WaitingEnds(s: System, who: nat)
    requires CallerIs(s, who, Waiting)
    ensures Enabled(s, SeeDone(who)) <==> s.doneClosed
    ensures s.doneClosed ==> OnlyCaller(s, SeeDone(who), who, Reading)
    ensures OnlyCaller(s, GiveUp(who), who, Done(ContextError))
  {
  }

  /** While results are awaited, a request in the channel and a cancelled parent can be seen. */
  lemma TriggersAreSeen(s: System)
    requires Reachable(s) && AtSelect(s)
    ensures Enabled(s, RecvStop) <==> s.stopReq != []
    ensures Enabled(s, SeeParentDone) <==> s.parentDone
    ensures s.stopReq != [] ==>
      Step(s, RecvStop).stopReq == [] && (s.loop.reason == NoReason ==> Step(s, RecvStop).loop.reason == ManualStop)
    ensures s.parentDone && s.loop.reason == NoReason ==> Step(s, SeeParentDone).loop.reason == ParentCancel
  {
    ReachableInv(s);
    TriggersAreSeenAt(s);
  }

  lemma TriggersAreSeenAt(s: System)
    requires FieldsInv(s.g, s.loop, s.doneClosed, s.stopReq) && AtSelect(s)
    ensures Enabled(s, RecvStop) <==> s.stopReq != []
    ensures Enabled(s, SeeParentDone) <==> s.parentDone
    ensures s.stopReq != [] ==>
      Step(s, RecvStop).stopReq == [] && (s.loop.reason == NoReason ==> Step(s, RecvStop).loop.reason == ManualStop)
    ensures s.parentDone && s.loop.reason == NoReason ==> Step(s, SeeParentDone).loop.reason == ParentCancel
  {
  }

  /** So a manual stop works: three steps after Stop was called on a running group, shutdown has begun. */
  lemma ManualStopWorks(s: System, who: nat)
    requires Reachable(s) && AtSelect(s) && s.loop.reason == NoReason && who !in s.callers
    ensures var s' := Step(Step(Step(s, StopCall(who)), SendStop(who)), RecvStop);
      s'.loop.reason == ManualStop && s'.loop.pc == Beginning && CallerIs(s', who, Waiting)
  {
    StopAnswers(s, who);
    var s1 := Step(s, StopCall(who));
    ReachableStep(s, StopCall(who));
    SendingAsks(s1, who);
    StopIsTriggered(Step(s1, SendStop(who)), who);
  }

  lemma StopIsTriggered(s: System, who: nat)
    requires AtSelect(s) && s.stopReq == [ManualStop] && s.loop.reason == NoReason && CallerIs(s, who, Waiting)
    ensures Step(s, RecvStop).loop.reason == ManualStop && Step(s, RecvStop).loop.pc == Beginning
    ensures CallerIs(Step(s, RecvStop), who, Waiting)
  {
  }

  lemma ReachableStep(s: System, a: Action)
    requires Reachable(s)
    ensures Reachable(Step(s, a))
  {
    var n, nilTask, run :| s == After(n, nilTask, run);
    AfterOneMore(n, nilTask, run, a);
  }

  // ------------------------------------------------------------- what a run records

  /** The Start of task i has returned with this outcome. */
  predicate StartEnded(s: System, i: nat, outcome: Outcome) {
    i < |s.start.status| && (s.start.status[i] == Returned(outcome) || s.start.status[i] == Reported(outcome))
  }

  predicate StartBegun(s: System, i: nat) {
    i < |s.start.status| && !s.start.status[i].Spawned?
  }

  predicate StopEnded(s: System, i: nat, outcome: Outcome) {
    i < |s.stop.status| && (s.stop.status[i] == Stopped'(outcome) || s.stop.status[i] == Recorded(outcome))
  }

  lemma StepStart(s: System, a: Action, i: nat, outcome: Outcome)
    ensures StartEnded(Step(s, a), i, outcome)
      <==> StartEnded(s, i, outcome) || (a == TaskReturns(i, outcome) && Enabled(s, a))
    ensures StartBegun(Step(s, a), i) <==> StartBegun(s, i) || (a == BeginTask(i) && Enabled(s, a))
  {
  }

  lemma StepStop(s: System, a: Action, i: nat, outcome: Outcome)
    requires StopCallsInv(s.n, s.stop, StopsSpawned(s.loop)) && FieldsInv(s.g, s.loop, s.doneClosed, s.stopReq)
    ensures StopEnded(Step(s, a), i, outcome)
      <==> StopEnded(s, i, outcome) || (a == StopReturns(i, outcome) && Enabled(s, a))
  {
  }

  lemma StepCalls(s: System, a: Action, i: nat)
    requires i < |s.stop.calls|
    ensures i < |Step(s, a).stop.calls|
    ensures Step(s, a).stop.calls[i] == s.stop.calls[i] + if a == CallStop(i) && Enabled(s, a) then 1 else 0
  {
  }

  /** How often the step was taken. */
  function Times(n: nat, nilTask: Option<nat>, run: seq<Action>, a: Action): nat {
    if run == [] then 0
    else
      var most := run[..|run| - 1];
      Times(n, nilTask, most, a) + if run[|run| - 1] == a && Enabled(After(n, nilTask, most), a) then 1 else 0
  }

  lemma {:induction false} StartRecords(n: nat, nilTask: Option<nat>, run: seq<Action>, i: nat, outcome: Outcome)
    ensures StartBegun(After(n, nilTask, run), i) <==> Taken(n, nilTask, run, BeginTask(i))
    ensures StartEnded(After(n, nilTask, run), i, outcome) <==> Taken(n, nilTask, run, TaskReturns(i, outcome))
  {
    if run != [] {
      StartRecords(n, nilTask, run[..|run| - 1], i, outcome);
      StepStart(After(n, nilTask, run[..|run| - 1]), run[|run| - 1], i, outcome);
      TakenSnoc(n, nilTask, run, BeginTask(i));
      TakenSnoc(n, nilTask, run, TaskReturns(i, outcome));
    }
  }

  lemma {:induction false} StopRecords(n: nat, nilTask: Option<nat>, run: seq<Action>, i: nat, outcome: Outcome)
    ensures StopEnded(After(n, nilTask, run), i, outcome) <==> Taken(n, nilTask, run, StopReturns(i, outcome))
  {
    if run != [] {
      var s := After(n, nilTask, run[..|run| - 1]);
      StopRecords(n, nilTask, run[..|run| - 1], i, outcome);
      RunInv(n, nilTask, run[..|run| - 1]);
      StepStop(s, run[|run| - 1], i, outcome);
      TakenSnoc(n, nilTask, run, StopReturns(i, outcome));
    }
  }

  lemma {:induction false} CallRecords(n: nat, nilTask: Option<nat>, run: seq<Action>, i: nat)
    requires i < n
    ensures i < |After(n, nilTask, run).stop.calls|
    ensures After(n, nilTask, run).stop.calls[i] == Times(n, nilTask, run, CallStop(i))
  {
    if run != [] {
      CallRecords(n, nilTask, run[..|run| - 1], i);
      StepCalls(After(n, nilTask, run[..|run| - 1]), run[|run| - 1], i);
    }
  }

  /**
    The status that the final error is computed from is what really happened: the outcome of each
    Start and Stop is the one with which it returned, and Stop's counter counts its calls.
   */
  lemma RecordsAreTrue(n: nat, nilTask: Option<nat>, run: seq<Action>, i: nat, outcome: Outcome)
    requires i < n
    ensures var s := After(n, nilTask, run);
      && (StartBegun(s, i) <==> Taken(n, nilTask, run, BeginTask(i)))
      && (StartEnded(s, i, outcome) <==> Taken(n, nilTask, run, TaskReturns(i, outcome)))
      && (StopEnded(s, i, outcome) <==> Taken(n, nilTask, run, StopReturns(i, outcome)))
      && i < |s.stop.calls| && s.stop.calls[i] == Times(n, nilTask, run, CallStop(i))
  {
    StartRecords(n, nilTask, run, i, outcome);
    StopRecords(n, nilTask, run, i, outcome);
    CallRecords(n, nilTask, run, i);
  }

  /** No task's Stop is called more than once in a run. */
  lemma StopIsCalledOnce(n: nat, nilTask: Option<nat>, run: seq<Action>, i: nat)
    requires i < n
    ensures Times(n, nilTask, run, CallStop(i)) <= 1
  {
    RecordsAreTrue(n, nilTask, run, i, Success);
    RunReaches(n, nilTask, run);
    StopCalledAtMostOnce(After(n, nilTask, run), i);
  }

  lemma RunReaches(n: nat, nilTask: Option<nat>, run: seq<Action>)
    ensures Reachable(After(n, nilTask, run)) && After(n, nilTask, run).n == n
  {
    RunInv(n, nilTask, run);
  }

  // ------------------------------------------------------------ triggers are real

  ghost predicate SomebodyAsked(n: nat, nilTask: Option<nat>, run: seq<Action>) {
    exists who: nat :: Taken(n, nilTask, run, SendStop(who))
  }

  ghost predicate SomeTaskFailed(n: nat, nilTask: Option<nat>, run: seq<Action>) {
    exists i: nat, e: TaskError :: !e.canceled && Taken(n, nilTask, run, TaskReturns(i, Failure(e)))
  }

  lemma StepParent(s: System, a: Action)
    ensures Step(s, a).parentDone <==> s.parentDone || a == ParentCancels
  {
  }

  lemma {:induction false} ParentIsTrue(n: nat, nilTask: Option<nat>, run: seq<Action>)
    ensures After(n, nilTask, run).parentDone <==> Taken(n, nilTask, run, ParentCancels)
  {
    if run != [] {
      ParentIsTrue(n, nilTask, run[..|run| - 1]);
      StepParent(After(n, nilTask, run[..|run| - 1]), run[|run| - 1]);
      TakenSnoc(n, nilTask, run, ParentCancels);
    }
  }

  lemma StepRequest(s: System, a: Action)
    ensures Step(s, a).stopReq != [] ==> s.stopReq != [] || (a.SendStop? && Enabled(s, a))
  {
  }

  lemma {:induction false} RequestIsTrue(n: nat, nilTask: Option<nat>, run: seq<Action>)
    requires After(n, nilTask, run).stopReq != []
    ensures SomebodyAsked(n, nilTask, run)
  {
    var most, last := run[..|run| - 1], run[|run| - 1];
    StepRequest(After(n, nilTask, most), last);
    if After(n, nilTask, most).stopReq != [] {
      RequestIsTrue(n, nilTask, most);
      AskedLater(n, nilTask, run);
    } else {
      TakenNow(n, nilTask, run, last);
    }
  }

  lemma AskedLater(n: nat, nilTask: Option<nat>, run: seq<Action>)
    requires run != [] && SomebodyAsked(n, nilTask, run[..|run| - 1])
    ensures SomebodyAsked(n, nilTask, run)
  {
    var who: nat :| Taken(n, nilTask, run[..|run| - 1], SendStop(who));
    TakenLater(n, nilTask, run, SendStop(who));
  }

  lemma FailedLater(n: nat, nilTask: Option<nat>, run: seq<Action>)
    requires run != [] && SomeTaskFailed(n, nilTask, run[..|run| - 1])
    ensures SomeTaskFailed(n, nilTask, run)
  {
    var i: nat, e: TaskError :| !e.canceled && Taken(n, nilTask, run[..|run| - 1], TaskReturns(i, Failure(e)));
    TakenLater(n, nilTask, run, TaskReturns(i, Failure(e)));
  }

  /** What the loop sees is there: a request, a cancelled parent, a failed task. */
  lemma TriggerIsThere(s: System, a: Action)
    requires Inv(s)
    ensures TriggerOf(s, a) == ManualStop ==> s.stopReq != []
    ensures TriggerOf(s, a) == ParentCancel ==> s.parentDone
    ensures TriggerOf(s, a) == TaskFailure ==>
      exists i: nat, e: TaskError :: i < s.n && !e.canceled && StartEnded(s, i, Failure(e))
  {
    if TriggerOf(s, a) == TaskFailure {
      var i := s.start.results[s.loop.received];
      var e := s.start.status[i].outcome.error;
      assert i in s.start.results;
      assert StartEnded(s, i, Failure(e));
    }
  }

  /** Shutdown is never begun without its reason: a Stop that asked, a cancelled parent, or a task that failed. */
  lemma {:induction false} ReasonsAreReal(n: nat, nilTask: Option<nat>, run: seq<Action>)
    ensures match FirstTrigger(n, nilTask, run)
      case NoReason => true
      case ManualStop => SomebodyAsked(n, nilTask, run)
      case ParentCancel => Taken(n, nilTask, run, ParentCancels)
      case TaskFailure => SomeTaskFailed(n, nilTask, run)
  {
    if run != [] {
      var most, last := run[..|run| - 1], run[|run| - 1];
      ReasonsAreReal(n, nilTask, most);
      if FirstTrigger(n, nilTask, most) != NoReason {
        ReasonLater(n, nilTask, run);
      } else {
        ReasonNow(n, nilTask, run);
      }
    }
  }

  lemma ReasonLater(n: nat, nilTask: Option<nat>, run: seq<Action>)
    requires run != []
    ensures SomebodyAsked(n, nilTask, run[..|run| - 1]) ==> SomebodyAsked(n, nilTask, run)
    ensures Taken(n, nilTask, run[..|run| - 1], ParentCancels) ==> Taken(n, nilTask, run, ParentCancels)
    ensures SomeTaskFailed(n, nilTask, run[..|run| - 1]) ==> SomeTaskFailed(n, nilTask, run)
  {
    if SomebodyAsked(n, nilTask, run[..|run| - 1]) { AskedLater(n, nilTask, run); }
    if Taken(n, nilTask, run[..|run| - 1], ParentCancels) { TakenLater(n, nilTask, run, ParentCancels); }
    if SomeTaskFailed(n, nilTask, run[..|run| - 1]) { FailedLater(n, nilTask, run); }
  }

  lemma ReasonNow(n: nat, nilTask: Option<nat>, run: seq<Action>)
    requires run != []
    ensures match TriggerOf(After(n, nilTask, run[..|run| - 1]), run[|run| - 1])
      case NoReason => true
      case ManualStop => SomebodyAsked(n, nilTask, run)
      case ParentCancel => Taken(n, nilTask, run, ParentCancels)
      case TaskFailure => SomeTaskFailed(n, nilTask, run)
  {
    var most, last := run[..|run| - 1], run[|run| - 1];
    var s := After(n, nilTask, most);
    RunInv(n, nilTask, most);
    TriggerIsThere(s, last);
    ReasonLater(n, nilTask, run);
    match TriggerOf(s, last) {
      case NoReason =>
      case ManualStop => RequestIsTrue(n, nilTask, most);
      case ParentCancel => ParentIsTrue(n, nilTask, most);
      case TaskFailure =>
        var i: nat, e: TaskError :| i < s.n && !e.canceled && StartEnded(s, i, Failure(e));
        RecordsAreTrue(n, nilTask, most, i, Failure(e));
    }
  }

  // -------------------------------------------------------- answers match their calls

  /** Where a caller is, and its answer if it has one, fits the calls that were made in the run. */
  ghost predicate Fits(n: nat, nilTask: Option<nat>, run: seq<Action>, who: nat, caller: Caller) {
    match caller
    case Starting => Taken(n, nilTask, run, StartCall(who))
    case Sending => Taken(n, nilTask, run, StopCall(who))
    case Waiting => Taken(n, nilTask, run, StopCall(who))
    case Reading => Taken(n, nilTask, run, StopCall(who))
    case Done(reply) =>
      match reply
      case NilTask(i) => Taken(n, nilTask, run, StartCall(who)) && nilTask == Some(i)
      case AlreadyStarted => Taken(n, nilTask, run, StartCall(who))
      case AlreadyStopped => Taken(n, nilTask, run, StartCall(who))
      case NotStarted => Taken(n, nilTask, run, StopCall(who))
      case ContextError => Taken(n, nilTask, run, StopCall(who)) && Taken(n, nilTask, run, GiveUp(who))
      case Result(_) =>
        Taken(n, nilTask, run, StopCall(who))
        || (Taken(n, nilTask, run, StartCall(who)) && Taken(n, nilTask, run, CloseDone))
  }

  /** How a caller got to a new place. */
  predicate Moved(s: System, a: Action, who: nat, caller: Caller) {
    || (a == StartCall(who) && who !in s.callers
        && (caller in {Starting, Done(AlreadyStarted), Done(AlreadyStopped)}
            || (s.nilTask.Some? && caller == Done(NilTask(s.nilTask.value)))))
    || (a == StopCall(who) && who !in s.callers
        && (caller in {Sending, Waiting, Done(NotStarted)} || (caller.Done? && caller.reply.Result?)))
    || (a == SendStop(who) && CallerIs(s, who, Sending) && caller == Waiting)
    || (a == SeeDone(who) && CallerIs(s, who, Waiting) && caller == Reading)
    || (a == GiveUp(who) && CallerIs(s, who, Waiting) && caller == Done(ContextError))
    || (a == ReadResult(who) && CallerIs(s, who, Reading) && caller.Done? && caller.reply.Result?)
    || (a == CloseDone && CallerIs(s, who, Starting) && caller.Done? && caller.reply.Result?)
  }

  lemma StepMovesCaller(s: System, a: Action, who: nat)
    requires FieldsInv(s.g, s.loop, s.doneClosed, s.stopReq)
    requires s.loop.pc.Closing? ==> CallerIs(s, s.owner, Starting)
    requires forall w :: w in s.callers && s.callers[w] == Sending ==> s.loop.pc != Idle
    requires who in Step(s, a).callers
    ensures CallerIs(s, who, Step(s, a).callers[who])
            || (Enabled(s, a) && Moved(s, a, who, Step(s, a).callers[who]))
  {
  }

  lemma FitsLater(n: nat, nilTask: Option<nat>, run: seq<Action>, who: nat, caller: Caller)
    requires run != [] && Fits(n, nilTask, run[..|run| - 1], who, caller)
    ensures Fits(n, nilTask, run, who, caller)
  {
    StaysTaken(n, nilTask, run, StartCall(who));
    StaysTaken(n, nilTask, run, StopCall(who));
    StaysTaken(n, nilTask, run, GiveUp(who));
    StaysTaken(n, nilTask, run, CloseDone);
  }

  lemma StaysTaken(n: nat, nilTask: Option<nat>, run: seq<Action>, a: Action)
    requires run != []
    ensures Taken(n, nilTask, run[..|run| - 1], a) ==> Taken(n, nilTask, run, a)
  {
    if Taken(n, nilTask, run[..|run| - 1], a) { TakenLater(n, nilTask, run, a); }
  }

  lemma FitsNow(n: nat, nilTask: Option<nat>, run: seq<Action>, who: nat, caller: Caller)
    requires run != [] && After(n, nilTask, run[..|run| - 1]).nilTask == nilTask
    requires var s := After(n, nilTask, run[..|run| - 1]);
      && Enabled(s, run[|run| - 1]) && Moved(s, run[|run| - 1], who, caller)
      && (who in s.callers ==> Fits(n, nilTask, run[..|run| - 1], who, s.callers[who]))
    ensures Fits(n, nilTask, run, who, caller)
  {
    TakenNow(n, nilTask, run, run[|run| - 1]);
    if who in After(n, nilTask, run[..|run| - 1]).callers {
      FitsLater(n, nilTask, run, who, After(n, nilTask, run[..|run| - 1]).callers[who]);
    }
  }

  /** Every caller's place and answer belongs to the call that it made. */
  lemma {:induction false} AnswersFit(n: nat, nilTask: Option<nat>, run: seq<Action>, who: nat)
    requires who in After(n, nilTask, run).callers
    ensures Fits(n, nilTask, run, who, After(n, nilTask, run).callers[who])
  {
    if run != [] {
      var most, last := run[..|run| - 1], run[|run| - 1];
      var s := After(n, nilTask, most);
      RunInv(n, nilTask, most);
      KeepsNilTask(n, nilTask, most);
      CallerFacts(s);
      StepMovesCaller(s, last, who);
      if who in s.callers { AnswersFit(n, nilTask, most, who); }
      if CallerIs(s, who, After(n, nilTask, run).callers[who]) {
        FitsLater(n, nilTask, run, who, After(n, nilTask, run).callers[who]);
      } else {
        FitsNow(n, nilTask, run, who, After(n, nilTask, run).callers[who]);
      }
    }
  }

  lemma CallerFacts(s: System)
    requires Inv(s)
    ensures s.loop.pc.Closing? ==> CallerIs(s, s.owner, Starting)
    ensures forall w :: w in s.callers && s.callers[w] == Sending ==> s.loop.pc != Idle
  {
    forall w | w in s.callers && s.callers[w] == Sending ensures s.loop.pc != Idle {
      assert CallerInv(s.callers[w], s.g, s.loop);
    }
  }
}
