/**
  What every run of a task group guarantees: how its state moves, which calls it makes
  and how often, what error it ends with, and that it cannot get stuck.
 */
module GroupRuns {
  import opened Common
  import opened TaskErrors
  import opened Group

  ghost predicate Reachable(s: System) {
    exists n, nilTask, run :: s == After(n, nilTask, run)
  }

  lemma ReachableInv(s: System)
    requires Reachable(s)
    ensures Inv(s)
  {
    var n, nilTask, run :| s == After(n, nilTask, run);
    RunInv(n, nilTask, run);
  }

  // --------------------------------------------------------------- states in order

  /** The moves of the state field. */
  predicate Moves(before: GroupState, after: GroupState) {
    || before == after
    || (before == Init && after == Running)
    || (before == Running && after == Stopping)
    || (before == Running && after == Stopped)
    || (before == Stopping && after == Stopped)
  }

  function Rank(state: GroupState): nat {
    match state
    case Init => 0
    case Running => 1
    case Stopping => 2
    case Stopped => 3
  }

  lemma StateMoves(n: nat, nilTask: Option<nat>, run: seq<Action>, a: Action)
    ensures Moves(After(n, nilTask, run).g.state, After(n, nilTask, run + [a]).g.state)
  {
    RunInv(n, nilTask, run);
    AfterOneMore(n, nilTask, run, a);
    StepMoves(After(n, nilTask, run), a);
  }

  lemma StepMoves(s: System, a: Action)
    requires FieldsInv(s.g, s.loop, s.doneClosed, s.stopReq)
    ensures Moves(s.g.state, Step(s, a).g.state)
  {
  }

  lemma AfterOneMore(n: nat, nilTask: Option<nat>, run: seq<Action>, a: Action)
    ensures After(n, nilTask, run + [a]) == Step(After(n, nilTask, run), a)
  {
    assert (run + [a])[..|run|] == run;
  }

  lemma LastApart<T>(s: seq<T>, t: seq<T>)
    requires t != []
    ensures s + t == s + t[..|t| - 1] + [t[|t| - 1]]
  {
  }

  /** What the end of a run fixes for good. */
  ghost predicate SameEnd(s: System, s': System) {
    && Rank(s.g.state) <= Rank(s'.g.state)
    && (s.g.state == Stopped ==> s'.g == s.g)
    && (s.doneClosed ==> s'.doneClosed)
    && (s.loop.reason != NoReason ==> s'.loop.reason == s.loop.reason)
  }

  lemma StepSameEnd(s: System, a: Action)
    requires FieldsInv(s.g, s.loop, s.doneClosed, s.stopReq)
    ensures SameEnd(s, Step(s, a))
  {
  }

  lemma SameEndTransitive(s: System, s': System, s'': System)
    requires SameEnd(s, s') && SameEnd(s', s'')
    ensures SameEnd(s, s'')
  {
  }

  /** Nothing is ever undone: the state, the published result, the done channel and the reason. */
  lemma {:induction false} NothingIsUndone(n: nat, nilTask: Option<nat>, run: seq<Action>, more: seq<Action>)
    ensures SameEnd(After(n, nilTask, run), After(n, nilTask, run + more))
  {
    if more == [] {
      assert run + more == run;
    } else {
      var most, last := more[..|more| - 1], more[|more| - 1];
      NothingIsUndone(n, nilTask, run, most);
      RunInv(n, nilTask, run + most);
      AfterOneMore(n, nilTask, run + most, last);
      LastApart(run, more);
      StepSameEnd(After(n, nilTask, run + most), last);
      SameEndTransitive(After(n, nilTask, run), After(n, nilTask, run + most), After(n, nilTask, run + more));
    }
  }

  /**
    The done channel is closed at most once, never before the Start of every task has
    returned and its result has been received.
   */
  lemma DoneClosesOnce(n: nat, nilTask: Option<nat>, run: seq<Action>, more: seq<Action>)
    requires Enabled(After(n, nilTask, run), CloseDone)
    ensures !After(n, nilTask, run).doneClosed && After(n, nilTask, run + [CloseDone]).doneClosed
    ensures !Enabled(After(n, nilTask, run + [CloseDone] + more), CloseDone)
    ensures var s := After(n, nilTask, run);
      s.loop.received == n && forall i :: 0 <= i < n ==> i < |s.start.status| && s.start.status[i].Reported?
  {
    var s := After(n, nilTask, run);
    RunInv(n, nilTask, run);
    ResultsBounded(n, s.start);
    AfterOneMore(n, nilTask, run, CloseDone);
    NothingIsUndone(n, nilTask, run + [CloseDone], more);
    RunInv(n, nilTask, run + [CloseDone] + more);
  }

  ghost predicate TakenAt(n: nat, nilTask: Option<nat>, run: seq<Action>, i: nat, a: Action) {
    i < |run| && run[i] == a && Enabled(After(n, nilTask, run[..i]), a)
  }

  /** Somewhere in the run, `a` was taken. */
  ghost predicate Taken(n: nat, nilTask: Option<nat>, run: seq<Action>, a: Action) {
    exists i: nat :: TakenAt(n, nilTask, run, i, a)
  }

  lemma TakenInPrefix(n: nat, nilTask: Option<nat>, run: seq<Action>, i: nat, a: Action)
    requires i < |run| - 1
    ensures TakenAt(n, nilTask, run, i, a) <==> TakenAt(n, nilTask, run[..|run| - 1], i, a)
  {
    assert run[..|run| - 1][..i] == run[..i];
  }

  lemma TakenLater(n: nat, nilTask: Option<nat>, run: seq<Action>, a: Action)
    requires run != [] && Taken(n, nilTask, run[..|run| - 1], a)
    ensures Taken(n, nilTask, run, a)
  {
    var i: nat :| TakenAt(n, nilTask, run[..|run| - 1], i, a);
    TakenInPrefix(n, nilTask, run, i, a);
  }

  lemma TakenNow(n: nat, nilTask: Option<nat>, run: seq<Action>, a: Action)
    requires run != [] && run[|run| - 1] == a && Enabled(After(n, nilTask, run[..|run| - 1]), a)
    ensures Taken(n, nilTask, run, a)
  {
    assert TakenAt(n, nilTask, run, |run| - 1, a);
  }

  lemma TakenBefore(n: nat, nilTask: Option<nat>, run: seq<Action>, a: Action)
    requires run != [] && Taken(n, nilTask, run, a) && !TakenAt(n, nilTask, run, |run| - 1, a)
    ensures Taken(n, nilTask, run[..|run| - 1], a)
  {
    var most := run[..|run| - 1];
    var i: nat :| TakenAt(n, nilTask, run, i, a);
    assert most[..i] == run[..i];
    assert TakenAt(n, nilTask, most, i, a);
  }

  lemma TakenSnoc(n: nat, nilTask: Option<nat>, run: seq<Action>, a: Action)
    requires run != []
    ensures var most, last := run[..|run| - 1], run[|run| - 1];
      Taken(n, nilTask, run, a)
      <==> Taken(n, nilTask, most, a) || (last == a && Enabled(After(n, nilTask, most), a))
  {
    if Taken(n, nilTask, run[..|run| - 1], a) {
      TakenLater(n, nilTask, run, a);
    } else if TakenAt(n, nilTask, run, |run| - 1, a) {
      TakenNow(n, nilTask, run, a);
    } else if Taken(n, nilTask, run, a) {
      TakenBefore(n, nilTask, run, a);
    }
  }

  lemma StepMarks(s: System, a: Action)
    requires FieldsInv(s.g, s.loop, s.doneClosed, s.stopReq)
    ensures Step(s, a).doneClosed <==> s.doneClosed || (a == CloseDone && Enabled(s, a))
    ensures Step(s, a).g.state == Stopped <==> s.g.state == Stopped || (a == PublishResult && Enabled(s, a))
  {
  }

  /** IsStopped turns true with the step that publishes the result, and doneCh is closed by its own step only. */
  lemma {:induction false} StoppedSincePublished(n: nat, nilTask: Option<nat>, run: seq<Action>)
    ensures After(n, nilTask, run).g.state == Stopped <==> Taken(n, nilTask, run, PublishResult)
    ensures After(n, nilTask, run).doneClosed <==> Taken(n, nilTask, run, CloseDone)
  {
    if run != [] {
      var most, last := run[..|run| - 1], run[|run| - 1];
      StoppedSincePublished(n, nilTask, most);
      RunInv(n, nilTask, most);
      StepMarks(After(n, nilTask, most), last);
      TakenSnoc(n, nilTask, run, PublishResult);
      TakenSnoc(n, nilTask, run, CloseDone);
    }
  }

  /** Some call of Start was made in the run. */
  ghost predicate StartCalled(n: nat, run: seq<Action>) {
    exists who: nat :: Taken(n, None, run, StartCall(who))
  }

  /** IsStarted turns true with the first call of Start of a group without nil tasks, and stays true. */
  lemma {:induction false} StartedSinceCalled(n: nat, run: seq<Action>)
    ensures After(n, None, run).g.state != Init <==> StartCalled(n, run)
  {
    if run != [] {
      var most, last := run[..|run| - 1], run[|run| - 1];
      StartedSinceCalled(n, most);
      RunInv(n, None, most);
      KeepsNilTask(n, None, most);
      StepStarts(After(n, None, most), last);
      forall who: nat ensures Taken(n, None, run, StartCall(who))
        <==> Taken(n, None, most, StartCall(who)) || (last == StartCall(who) && Enabled(After(n, None, most), last))
      {
        TakenSnoc(n, None, run, StartCall(who));
      }
      if last.StartCall? && Enabled(After(n, None, most), last) {
        assert Taken(n, None, run, StartCall(last.who));
      }
    }
  }

  lemma StepStarts(s: System, a: Action)
    requires FieldsInv(s.g, s.loop, s.doneClosed, s.stopReq) && s.nilTask.None?
    ensures Step(s, a).g.state != Init <==> s.g.state != Init || (a.StartCall? && Enabled(s, a))
  {
  }

  lemma StepKeepsNilTask(s: System, a: Action)
    ensures Step(s, a).nilTask == s.nilTask
  {
  }

  lemma {:induction false} KeepsNilTask(n: nat, nilTask: Option<nat>, run: seq<Action>)
    ensures After(n, nilTask, run).nilTask == nilTask
  {
    if run != [] {
      KeepsNilTask(n, nilTask, run[..|run| - 1]);
      StepKeepsNilTask(After(n, nilTask, run[..|run| - 1]), run[|run| - 1]);
    }
  }

  // ---------------------------------------------------------------- calls to Stop

  ghost predicate StopOnceEach(s: System, calls: nat) {
    && |s.stop.calls| == s.n == |s.stop.status|
    && (forall i :: 0 <= i < s.n ==> s.stop.calls[i] == calls)
    && (forall i :: 0 <= i < s.n ==> (s.stop.status[i].Recorded? <==> calls == 1))
  }

  /**
    Once stopped, each task's Stop has been called and has returned exactly once if
    shutdown was begun, and has never been called otherwise.
   */
  lemma StoppedMeansStoppedOnce(s: System)
    requires Reachable(s) && s.g.state == Stopped
    ensures StopOnceEach(s, if s.loop.reason == NoReason then 0 else 1)
  {
    ReachableInv(s);
    StopOnceAtEnd(s);
  }

  lemma StopOnceAtEnd(s: System)
    requires Inv(s) && s.g.state == Stopped
    ensures StopOnceEach(s, if s.loop.reason == NoReason then 0 else 1)
  {
    assert StopCallsInv(s.n, s.stop, StopsSpawned(s.loop));
    assert s.loop.reason != NoReason ==> s.stop.done;
  }

  /** No run calls a task's Stop twice, or before shutdown begins. */
  lemma StopCalledAtMostOnce(s: System, i: nat)
    requires Reachable(s) && i < s.n
    ensures i < |s.stop.calls| && s.stop.calls[i] <= 1 && (s.stop.calls[i] == 1 ==> s.loop.reason != NoReason)
  {
    ReachableInv(s);
  }

  // -------------------------------------------------------------- the final error

  /** The shutdown reason that a step gives, whether or not it is the first. */
  function TriggerOf(s: System, a: Action): Reason {
    if !Enabled(s, a) then NoReason
    else match a
      case RecvStop => ManualStop
      case SeeParentDone => ParentCancel
      case RecvResult =>
        if StartFailureOf(s.start.status[s.start.results[s.loop.received]].outcome) != [] then TaskFailure
        else NoReason
      case _ => NoReason
  }

  /** The reason given by the first step of a run that gives one. */
  function FirstTrigger(n: nat, nilTask: Option<nat>, run: seq<Action>): Reason {
    if run == [] then NoReason
    else
      var most := run[..|run| - 1];
      var before := FirstTrigger(n, nilTask, most);
      if before != NoReason then before else TriggerOf(After(n, nilTask, most), run[|run| - 1])
  }

  lemma StepTrigger(s: System, a: Action)
    requires FieldsInv(s.g, s.loop, s.doneClosed, s.stopReq)
    ensures Step(s, a).loop.reason == if s.loop.reason != NoReason then s.loop.reason else TriggerOf(s, a)
  {
  }

  /** Of all the failures, stop requests and cancellations, the first to be seen is the reason. */
  lemma {:induction false} ReasonIsFirstTrigger(n: nat, nilTask: Option<nat>, run: seq<Action>)
    ensures After(n, nilTask, run).loop.reason == FirstTrigger(n, nilTask, run)
  {
    if run != [] {
      var most := run[..|run| - 1];
      ReasonIsFirstTrigger(n, nilTask, most);
      RunInv(n, nilTask, most);
      StepTrigger(After(n, nilTask, most), run[|run| - 1]);
    }
  }

  /** The failures of the tasks' Start, by task; a cancellation is not a failure. */
  function StartFailures(status: seq<StartStatus>): seq<Errors> {
    seq(|status|, i requires 0 <= i < |status| =>
      if status[i].Reported? then StartFailureOf(status[i].outcome) else [])
  }

  /** The failures of the tasks' Stop, by task. */
  function StopFailures(status: seq<StopStatus>): seq<Errors> {
    seq(|status|, i requires 0 <= i < |status| =>
      if status[i].Recorded? then FailureOf(status[i].outcome) else [])
  }

  lemma {:induction false} StartErrorsInOrder(start: StartSide, upTo: nat)
    requires upTo <= |start.results|
    requires forall i :: 0 <= i < upTo ==>
      start.results[i] < |start.status| && start.status[start.results[i]].Reported?
    ensures StartErrors(start, upTo) == InOrder(StartFailures(start.status), start.results[..upTo])
  {
    if upTo > 0 {
      StartErrorsInOrder(start, upTo - 1);
      assert start.results[..upTo][..upTo - 1] == start.results[..upTo - 1];
    }
  }

  lemma {:induction false} StopErrorsInOrder(status: seq<StopStatus>, records: seq<nat>)
    requires forall i :: 0 <= i < |records| ==> records[i] < |status| && status[records[i]].Recorded?
    ensures StopErrors(status, records) == InOrder(StopFailures(status), records)
  {
    if records != [] {
      StopErrorsInOrder(status, records[..|records| - 1]);
    }
  }

  /** Once every result has been received, the start errors are the failures of all tasks. */
  lemma AllStartFailures(n: nat, start: StartSide)
    requires StartInv(n, start) && |start.results| == n
    requires forall i :: 0 <= i < n ==>
      start.results[i] < |start.status| && start.status[start.results[i]].Reported?
    ensures multiset(StartErrors(start, n)) == Union(StartFailures(start.status))
  {
    StartErrorsInOrder(start, n);
    assert start.results[..n] == start.results;
    CollectedInAnyOrder(StartFailures(start.status), start.results);
    Pigeonhole(start.results, n);
    assert InPlace(StartFailures(start.status), start.results) == StartFailures(start.status);
  }

  /** At any time the stop errors are the failures recorded so far. */
  lemma AllStopFailures(n: nat, stop: StopSide)
    requires StopInv(n, stop, true)
    ensures multiset(stop.errs) == Union(StopFailures(stop.status))
  {
    StopErrorsInOrder(stop.status, stop.records);
    CollectedInAnyOrder(StopFailures(stop.status), stop.records);
    assert InPlace(StopFailures(stop.status), stop.records) == StopFailures(stop.status);
  }

  /**
    The published error consists of every start failure that is not a cancellation and
    every stop failure, each as often as it occurred, when the first trigger was a task
    failure; of the stop failures alone when it was a manual stop or the parent; of nothing
    when there was none. Every task has reported, so no failure is missing.
   */
  lemma FinalErrorContents(n: nat, nilTask: Option<nat>, run: seq<Action>)
    requires After(n, nilTask, run).g.state == Stopped
    ensures var s := After(n, nilTask, run);
      multiset(s.g.resultErr)
      == match FirstTrigger(n, nilTask, run)
         case NoReason => multiset{}
         case TaskFailure => Union(StartFailures(s.start.status)) + Union(StopFailures(s.stop.status))
         case _ => Union(StopFailures(s.stop.status))
  {
    var s := After(n, nilTask, run);
    RunInv(n, nilTask, run);
    ReasonIsFirstTrigger(n, nilTask, run);
    EndContents(s);
  }

  /** And in order: the start failures as their results came in, before the stop failures as they were recorded. */
  lemma FinalErrorInOrder(s: System)
    requires Reachable(s) && s.g.state == Stopped
    ensures (forall i :: 0 <= i < |s.start.results| ==> s.start.results[i] < |s.start.status|)
            && (forall i :: 0 <= i < |s.stop.records| ==> s.stop.records[i] < |s.stop.status|)
    ensures var starts := InOrder(StartFailures(s.start.status), s.start.results);
      var stops := InOrder(StopFailures(s.stop.status), s.stop.records);
      s.g.resultErr == match s.loop.reason
                       case NoReason => []
                       case TaskFailure => starts + stops
                       case _ => stops
  {
    ReachableInv(s);
    EndResult(s);
    AllInOrder(s);
  }

  lemma AllInOrder(s: System)
    requires StartInv(s.n, s.start) && |s.start.results| >= s.n && StopErrsInv(s.stop)
    ensures forall i :: 0 <= i < |s.start.results| ==> s.start.results[i] < |s.start.status|
    ensures forall i :: 0 <= i < |s.stop.records| ==> s.stop.records[i] < |s.stop.status|
    ensures forall i :: 0 <= i < s.n ==>
      s.start.results[i] < |s.start.status| && s.start.status[s.start.results[i]].Reported?
    ensures StartErrors(s.start, s.n) == InOrder(StartFailures(s.start.status), s.start.results)
    ensures s.stop.errs == InOrder(StopFailures(s.stop.status), s.stop.records)
  {
    ResultsBounded(s.n, s.start);
    forall i | 0 <= i < |s.start.results| ensures s.start.results[i] in s.start.results {}
    StartErrorsInOrder(s.start, s.n);
    assert s.start.results[..s.n] == s.start.results;
    StopErrorsInOrder(s.stop.status, s.stop.records);
  }

  /**
    Start promises an error if any task fails. After a task failed (other than by being
    cancelled) the result is nonetheless nil if and only if a stop request or the parent's
    cancellation was seen first and no task failed to stop.
   */
  lemma FailureIsDropped(n: nat, nilTask: Option<nat>, run: seq<Action>, i: nat, e: TaskError)
    requires After(n, nilTask, run).g.state == Stopped
    requires i < |After(n, nilTask, run).start.status| && !e.canceled
    requires After(n, nilTask, run).start.status[i] == Reported(Failure(e))
    ensures var s := After(n, nilTask, run);
      s.g.resultErr == [] <==> FirstTrigger(n, nilTask, run) != TaskFailure && NoStopFailed(s.stop)
  {
    var s := After(n, nilTask, run);
    RunInv(n, nilTask, run);
    ReasonIsFirstTrigger(n, nilTask, run);
    DroppedAtEnd(s, i, e);
  }

  ghost predicate NoStopFailed(stop: StopSide) {
    forall j :: 0 <= j < |stop.status| ==> !(stop.status[j].Recorded? && stop.status[j].outcome.Failure?)
  }

  lemma NoStopErrors(n: nat, stop: StopSide)
    requires StopInv(n, stop, true)
    ensures stop.errs == [] <==> NoStopFailed(stop)
  {
    var lists := StopFailures(stop.status);
    AllStopFailures(n, stop);
    UnionEmpty(lists);
    assert stop.errs == [] <==> multiset(stop.errs) == multiset{};
    StopFailuresEmpty(stop);
  }

  lemma StopFailuresEmpty(stop: StopSide)
    ensures NoStopFailed(stop) <==> forall j :: 0 <= j < |stop.status| ==> StopFailures(stop.status)[j] == []
  {
    if !NoStopFailed(stop) {
      var j :| 0 <= j < |stop.status| && stop.status[j].Recorded? && stop.status[j].outcome.Failure?;
      assert StopFailures(stop.status)[j] != [];
    }
  }

  /** A failed start is among the start errors. */
  lemma FailureIsRecorded(n: nat, start: StartSide, i: nat, e: TaskError)
    requires StartInv(n, start) && |start.results| == n && i < n
    requires forall j :: 0 <= j < n ==>
      start.results[j] < |start.status| && start.status[start.results[j]].Reported?
    requires start.status[i] == Reported(Failure(e)) && !e.canceled
    ensures StartErrors(start, n) != []
  {
    AllStartFailures(n, start);
    assert e in StartFailures(start.status)[i];
    UnionMembers(StartFailures(start.status), e);
    assert e in multiset(StartErrors(start, n));
  }

  lemma DroppedAtEnd(s: System, i: nat, e: TaskError)
    requires Inv(s) && s.g.state == Stopped
    requires i < |s.start.status| && s.start.status[i] == Reported(Failure(e)) && !e.canceled
    ensures s.g.resultErr == [] <==> s.loop.reason != TaskFailure && NoStopFailed(s.stop)
  {
    EndResult(s);
    ResultsBounded(s.n, s.start);
    FailureIsRecorded(s.n, s.start, i, e);
    assert s.loop.reason != NoReason;
    NoStopErrors(s.n, s.stop);
  }

  lemma EndContents(s: System)
    requires Inv(s) && s.g.state == Stopped
    ensures multiset(s.g.resultErr)
      == match s.loop.reason
         case NoReason => multiset{}
         case TaskFailure => Union(StartFailures(s.start.status)) + Union(StopFailures(s.stop.status))
         case _ => Union(StopFailures(s.stop.status))
  {
    EndResult(s);
    if s.loop.reason != NoReason {
      AllStopFailures(s.n, s.stop);
      ResultsBounded(s.n, s.start);
      AllStartFailures(s.n, s.start);
    }
  }

  lemma EndResult(s: System)
    requires Inv(s) && s.g.state == Stopped
    ensures s.g.resultErr == FinalError(s.loop, s.stop.errs)
    ensures s.loop.startErrs == StartErrors(s.start, s.n) && |s.start.results| >= s.n
    ensures s.loop.reason == NoReason ==> s.g.resultErr == []
    ensures s.loop.reason != NoReason ==> StopInv(s.n, s.stop, true)
  {
  }

  /** A recorded start error means that shutdown has begun. */
  lemma StartErrorMeansShutdown(n: nat, nilTask: Option<nat>, run: seq<Action>)
    requires After(n, nilTask, run).loop.startErrs != []
    ensures FirstTrigger(n, nilTask, run) != NoReason
  {
    RunInv(n, nilTask, run);
    ReasonIsFirstTrigger(n, nilTask, run);
  }

  /**
    Everybody who gets a result gets the same one: whatever two callers of Start and
    Stop, and whenever each got its answer.
   */
  lemma OneResultForAll(n: nat, nilTask: Option<nat>, run: seq<Action>, more: seq<Action>,
                        who: nat, errors: Errors, who': nat, errors': Errors)
    requires CallerIs(After(n, nilTask, run), who, Done(Result(errors)))
    requires CallerIs(After(n, nilTask, run + more), who', Done(Result(errors')))
    ensures errors == errors' == After(n, nilTask, run).g.resultErr
  {
    RunInv(n, nilTask, run);
    RunInv(n, nilTask, run + more);
    NothingIsUndone(n, nilTask, run, more);
  }

  /** Stop before any Start is refused, and only then; a second Start is always refused. */
  lemma RefusedCalls(s: System, who: nat)
    requires Reachable(s) && s.nilTask.None? && who !in s.callers
    ensures CallerIs(Step(s, StopCall(who)), who, Done(NotStarted)) <==> s.loop.pc == Idle
    ensures CallerIs(Step(s, StartCall(who)), who, Starting) <==> s.loop.pc == Idle
  {
    ReachableInv(s);
    StopRefused(s, who);
    StartRefused(s, who);
  }

  lemma StopRefused(s: System, who: nat)
    requires FieldsInv(s.g, s.loop, s.doneClosed, s.stopReq) && who !in s.callers
    ensures CallerIs(Step(s, StopCall(who)), who, Done(NotStarted)) <==> s.loop.pc == Idle
  {
  }

  lemma StartRefused(s: System, who: nat)
    requires FieldsInv(s.g, s.loop, s.doneClosed, s.stopReq) && s.nilTask.None? && who !in s.callers
    ensures CallerIs(Step(s, StartCall(who)), who, Starting) <==> s.loop.pc == Idle
  {
  }

  // --------------------------------------------------------------------- progress

  /** A task's goroutine never waits to send its result: the channel has room for all of them. */
  lemma ResultSendsNeverBlock(s: System, i: nat)
    requires Reachable(s) && i < |s.start.status| && s.start.status[i].Returned?
    ensures Enabled(s, SendResult(i))
  {
    ReachableInv(s);
    RoomForOne(s.n, s.start, i);
  }

  lemma RoomForOne(n: nat, start: StartSide, i: nat)
    requires StartInv(n, start) && i < n && !start.status[i].Reported?
    ensures |start.results| < n
  {
    Pigeonhole(start.results, n);
  }

  /** After the first trigger, another stop request or the parent's cancellation changes nothing else. */
  lemma LaterTriggersStutter(s: System, a: Action)
    requires s.loop.reason != NoReason && (a.RecvStop? || a.SeeParentDone?)
    ensures Step(s, a) == s.(stopReq := Step(s, a).stopReq)
  {
  }

  /** Some caller of Stop waits, so its request is in the channel, or shutdown has begun, or the loop is over. */
  ghost predicate Heard(s: System) {
    (exists who :: who in s.callers && s.callers[who] == Waiting) ==> Requested(s)
  }

  lemma StepHeard(s: System, a: Action)
    requires FieldsInv(s.g, s.loop, s.doneClosed, s.stopReq) && Heard(s)
    ensures Heard(Step(s, a))
  {
    if who :| who in Step(s, a).callers && Step(s, a).callers[who] == Waiting {
      NewWaiter(s, a, who);
      if Requested(s) { RequestStays(s, a); }
    }
  }

  /** A call is under way that the group cannot miss. */
  predicate Requested(s: System) {
    s.stopReq != [] || s.loop.reason != NoReason || PastLoop(s.loop.pc)
  }

  lemma NewWaiter(s: System, a: Action, who: nat)
    requires FieldsInv(s.g, s.loop, s.doneClosed, s.stopReq)
    requires who in Step(s, a).callers && Step(s, a).callers[who] == Waiting
    ensures (who in s.callers && s.callers[who] == Waiting) || Requested(Step(s, a))
  {
  }

  lemma RequestStays(s: System, a: Action)
    requires FieldsInv(s.g, s.loop, s.doneClosed, s.stopReq) && Requested(s)
    ensures Requested(Step(s, a))
  {
  }

  /** No stop request is lost, although only one fits into the channel and sending never waits. */
  lemma {:induction false} StopsAreHeard(n: nat, nilTask: Option<nat>, run: seq<Action>)
    ensures Heard(After(n, nilTask, run))
  {
    if run != [] {
      var most := run[..|run| - 1];
      StopsAreHeard(n, nilTask, most);
      RunInv(n, nilTask, most);
      StepHeard(After(n, nilTask, most), run[|run| - 1]);
    }
  }

  function StartWeight(status: StartStatus): nat {
    match status
    case Spawned => 3
    case InStart => 2
    case Returned(_) => 1
    case Reported(_) => 0
  }

  function StopWeight(status: StopStatus): nat {
    match status
    case NotAsked => 4
    case Asked => 3
    case InStop => 2
    case Stopped'(_) => 1
    case Recorded(_) => 0
  }

  function Total(weights: seq<nat>): nat {
    if weights == [] then 0 else Total(weights[..|weights| - 1]) + weights[|weights| - 1]
  }

  lemma {:induction false} TotalUpdated(weights: seq<nat>, i: nat, w: nat)
    requires i < |weights|
    ensures Total(weights[i := w]) == Total(weights) - weights[i] + w
  {
    var k := |weights| - 1;
    if i == k {
      assert weights[i := w][..k] == weights[..k];
    } else {
      TotalUpdated(weights[..k], i, w);
      assert weights[i := w][..k] == weights[..k][i := w];
    }
  }

  lemma {:induction false} TotalMonotone(a: seq<nat>, b: seq<nat>)
    requires |a| == |b| && forall i :: 0 <= i < |a| ==> a[i] <= b[i]
    ensures Total(a) <= Total(b)
  {
    if a != [] { TotalMonotone(a[..|a| - 1], b[..|b| - 1]); }
  }

  function PcWeight(pc: StartPc): nat {
    match pc
    case Idle => 7
    case Beginning => 6
    case Selecting => 5
    case Joining => 4
    case Publishing(_) => 3
    case Closing(_) => 2
    case Finished(_) => 0
  }

  function StartWeights(status: seq<StartStatus>): seq<nat> {
    seq(|status|, i requires 0 <= i < |status| => StartWeight(status[i]))
  }

  function StopWeights(status: seq<StopStatus>): seq<nat> {
    seq(|status|, i requires 0 <= i < |status| => StopWeight(status[i]))
  }

  function StopWork(stop: StopSide): nat {
    Total(StopWeights(stop.status)) + if stop.done then 0 else 1
  }

  function LoopWork(n: nat, loop: Loop): int {
    n - loop.received + PcWeight(loop.pc) + if loop.reason == NoReason then 2 else 0
  }

  /** How much of the run is still ahead. */
  function Work(s: System): int {
    Total(StartWeights(s.start.status)) + StopWork(s.stop) + LoopWork(s.n, s.loop)
  }

  lemma StartWorkUpdated(status: seq<StartStatus>, i: nat, next: StartStatus)
    requires i < |status|
    ensures Total(StartWeights(status[i := next]))
      == Total(StartWeights(status)) - StartWeight(status[i]) + StartWeight(next)
  {
    TotalUpdated(StartWeights(status), i, StartWeight(next));
    assert StartWeights(status[i := next]) == StartWeights(status)[i := StartWeight(next)];
  }

  lemma StopWorkUpdated(status: seq<StopStatus>, i: nat, next: StopStatus)
    requires i < |status|
    ensures Total(StopWeights(status[i := next]))
      == Total(StopWeights(status)) - StopWeight(status[i]) + StopWeight(next)
  {
    TotalUpdated(StopWeights(status), i, StopWeight(next));
    assert StopWeights(status[i := next]) == StopWeights(status)[i := StopWeight(next)];
  }

  lemma StopWorkAsked(status: seq<StopStatus>)
    requires forall i :: 0 <= i < |status| ==> status[i].NotAsked?
    ensures Total(StopWeights(seq(|status|, i => Asked))) <= Total(StopWeights(status))
  {
    TotalMonotone(StopWeights(seq(|status|, i => Asked)), StopWeights(status));
  }

  /** The steps that take the run forward, as opposed to requests, cancellations and callers' steps. */
  predicate Productive(s: System, a: Action) {
    match a
    case RecvStop => s.loop.reason == NoReason
    case SeeParentDone => s.loop.reason == NoReason
    case StartCall(_) => s.loop.pc == Idle && s.nilTask.None?
    case ParentCancels => false
    case StopCall(_) => false
    case SendStop(_) => false
    case SeeDone(_) => false
    case ReadResult(_) => false
    case GiveUp(_) => false
    case _ => true
  }

  /** A productive step lowers the remaining work, and no step raises it. */
  lemma StepWork(s: System, a: Action)
    requires Inv(s) && Enabled(s, a)
    ensures if Productive(s, a) then Work(Do(s, a)) < Work(s) else Work(Do(s, a)) == Work(s)
  {
    if StartAction(a) {
      StartStepWork(s, a);
    } else if StopAction(a) {
      StopStepWork(s, a);
    } else if a == LockStopping {
      LockStepWork(s);
    } else {
      LoopStepWork(s, a);
      LoopStepLeavesTasks(s, a);
    }
  }

  lemma LockStepWork(s: System)
    requires s.loop.pc == Beginning && StopCallsInv(s.n, s.stop, StopsSpawned(s.loop))
    ensures Work(Step(s, LockStopping)) < Work(s)
  {
    StopWorkAsked(s.stop.status);
  }

  lemma StartStepWork(s: System, a: Action)
    requires Enabled(s, a) && StartAction(a)
    ensures Work(Do(s, a)) < Work(s)
  {
    match a {
      case BeginTask(i) => StartWorkUpdated(s.start.status, i, InStart);
      case TaskReturns(i, outcome) => StartWorkUpdated(s.start.status, i, Returned(outcome));
      case SendResult(i) => StartWorkUpdated(s.start.status, i, Reported(s.start.status[i].outcome));
    }
  }

  lemma StopStepWork(s: System, a: Action)
    requires Enabled(s, a) && StopAction(a)
    ensures Work(Do(s, a)) < Work(s)
  {
    match a {
      case CallStop(i) => StopWorkUpdated(s.stop.status, i, InStop);
      case StopReturns(i, outcome) => StopWorkUpdated(s.stop.status, i, Stopped'(outcome));
      case RecordStop(i) => StopWorkUpdated(s.stop.status, i, Recorded(s.stop.status[i].outcome));
      case CloseStopDone =>
    }
  }

  lemma LoopStepLeavesTasks(s: System, a: Action)
    requires Enabled(s, a) && !StartAction(a) && !StopAction(a) && a != LockStopping
    ensures var s' := Do(s, a); s'.start == s.start && s'.stop == s.stop && s'.n == s.n
  {
  }

  lemma LoopStepWork(s: System, a: Action)
    requires FieldsInv(s.g, s.loop, s.doneClosed, s.stopReq) && Enabled(s, a)
    requires !StartAction(a) && !StopAction(a) && a != LockStopping
    ensures if Productive(s, a) then LoopWork(s.n, Do(s, a).loop) < LoopWork(s.n, s.loop)
            else Do(s, a).loop == s.loop
  {
  }

  lemma WorkIsNatural(s: System)
    requires Inv(s)
    ensures Work(s) >= 0
  {
    ResultsBounded(s.n, s.start);
  }

  lemma UnreportedTask(n: nat, start: StartSide) returns (i: nat)
    requires StartInv(n, start) && |start.results| < n
    ensures i < n && !start.status[i].Reported?
  {
    if forall j :: 0 <= j < n ==> start.status[j].Reported? {
      forall j | 0 <= j < n ensures j in start.results {
        assert start.status[j].Reported?;
      }
      Covering(start.results, n);
      assert false;
    }
    i :| 0 <= i < n && !start.status[i].Reported?;
  }

  lemma StartStep(s: System, i: nat) returns (a: Action)
    requires Inv(s) && s.loop.pc != Idle && i < s.n && !s.start.status[i].Reported?
    ensures Enabled(s, a) && Productive(s, a)
  {
    match s.start.status[i] {
      case Spawned => a := BeginTask(i);
      case InStart => a := TaskReturns(i, Success);
      case Returned(_) =>
        RoomForOne(s.n, s.start, i);
        a := SendResult(i);
    }
  }

  lemma StopStep(s: System) returns (a: Action)
    requires Inv(s) && StopsSpawned(s.loop) && !s.stop.done
    ensures Enabled(s, a) && Productive(s, a)
  {
    if AllRecorded(s.stop) { return CloseStopDone; }
    var i :| 0 <= i < s.n && !s.stop.status[i].Recorded?;
    match s.stop.status[i] {
      case Asked => a := CallStop(i);
      case InStop => a := StopReturns(i, Success);
      case Stopped'(_) => a := RecordStop(i);
    }
  }

  lemma SelectStep(s: System) returns (a: Action)
    requires Inv(s) && s.loop.pc == Selecting
    ensures Enabled(s, a) && Productive(s, a)
  {
    if s.loop.received >= s.n {
      a := ExitLoop;
    } else if s.loop.received < |s.start.results| {
      a := RecvResult;
    } else {
      var i := UnreportedTask(s.n, s.start);
      a := StartStep(s, i);
    }
  }

  /**
    No deadlock: in every reachable state between Start and its return, a productive
    step is enabled. The only productive steps left to the environment are the returns
    of the tasks' own Start and Stop.
   */
  lemma SomeStepIsEnabled(s: System) returns (a: Action)
    requires Reachable(s) && s.loop.pc != Idle && !s.loop.pc.Finished?
    ensures Enabled(s, a) && Productive(s, a)
  {
    ReachableInv(s);
    a := EnabledStep(s);
  }

  lemma EnabledStep(s: System) returns (a: Action)
    requires Inv(s) && s.loop.pc != Idle && !s.loop.pc.Finished?
    ensures Enabled(s, a) && Productive(s, a)
  {
    match s.loop.pc {
      case Selecting => a := SelectStep(s);
      case Beginning => a := LockStopping;
      case Joining =>
        if s.loop.reason == NoReason || s.stop.done { a := JoinStops; } else { a := StopStep(s); }
      case Publishing(_) => a := PublishResult;
      case Closing(_) => a := CloseDone;
    }
  }

  /** How many steps of a run were productive. */
  function Productives(n: nat, nilTask: Option<nat>, run: seq<Action>): nat {
    if run == [] then 0
    else
      var most, last := run[..|run| - 1], run[|run| - 1];
      var s := After(n, nilTask, most);
      Productives(n, nilTask, most) + if Enabled(s, last) && Productive(s, last) then 1 else 0
  }

  /** No run is productive for ever, however callers, requests and cancellations interleave. */
  lemma {:induction false} ProductiveStepsAreBounded(n: nat, nilTask: Option<nat>, run: seq<Action>)
    ensures Work(After(n, nilTask, run)) >= 0
    ensures Productives(n, nilTask, run) + Work(After(n, nilTask, run)) <= Work(Initially(n, nilTask))
  {
    RunInv(n, nilTask, run);
    WorkIsNatural(After(n, nilTask, run));
    if run != [] {
      var most, last := run[..|run| - 1], run[|run| - 1];
      ProductiveStepsAreBounded(n, nilTask, most);
      RunInv(n, nilTask, most);
      if Enabled(After(n, nilTask, most), last) { StepWork(After(n, nilTask, most), last); }
    }
  }

  function Steps(s: System, rest: seq<Action>): System
    decreases |rest|
  {
    if rest == [] then s else Steps(Step(s, rest[0]), rest[1..])
  }

  lemma {:induction false} StepsAreReachable(s: System, rest: seq<Action>)
    requires Reachable(s)
    ensures Reachable(Steps(s, rest))
    decreases |rest|
  {
    if rest != [] {
      var n, nilTask, run :| s == After(n, nilTask, run);
      AfterOneMore(n, nilTask, run, rest[0]);
      StepsAreReachable(Step(s, rest[0]), rest[1..]);
    }
  }

  /** So from every reachable state in which Start has been entered, the run can be completed. */
  lemma CanFinish(s: System) returns (rest: seq<Action>)
    requires Reachable(s) && s.loop.pc != Idle
    ensures Steps(s, rest).loop.pc.Finished? && |rest| <= Work(s)
  {
    ReachableInv(s);
    rest := Finish(s);
  }

  lemma {:induction false} Finish(s: System) returns (rest: seq<Action>)
    requires Inv(s) && s.loop.pc != Idle
    ensures Steps(s, rest).loop.pc.Finished? && |rest| <= Work(s)
    decreases Work(s)
  {
    WorkIsNatural(s);
    if s.loop.pc.Finished? {
      rest := [];
    } else {
      var a := EnabledStep(s);
      StepIsWork(s, a);
      StepInv(s, a);
      var rest' := Finish(Step(s, a));
      rest := [a] + rest';
    }
  }

  lemma StepIsWork(s: System, a: Action)
    requires Inv(s) && Enabled(s, a) && Productive(s, a) && s.loop.pc != Idle
    ensures Step(s, a).loop.pc != Idle && 0 <= Work(Step(s, a)) < Work(s)
  {
    StepInv(s, a);
    StepWork(s, a);
    WorkIsNatural(Step(s, a));
    NeverIdleAgain(s, a);
  }

  lemma NeverIdleAgain(s: System, a: Action)
    requires s.loop.pc != Idle
    ensures Step(s, a).loop.pc != Idle
  {
  }

  /** Once the run is over, a waiting caller gets the result in two steps of its own. */
  lemma WaitersAreReleased(s: System, who: nat)
    requires Reachable(s) && s.loop.pc.Finished? && CallerIs(s, who, Waiting)
    ensures CallerIs(Step(Step(s, SeeDone(who)), ReadResult(who)), who, Done(Result(s.g.resultErr)))
  {
    ReachableInv(s);
    Released(s, who);
  }

  lemma Released(s: System, who: nat)
    requires s.doneClosed && CallerIs(s, who, Waiting)
    ensures CallerIs(Step(Step(s, SeeDone(who)), ReadResult(who)), who, Done(Result(s.g.resultErr)))
  {
    var s' := Step(s, SeeDone(who));
    assert CallerIs(s', who, Reading) && s'.g == s.g;
  }
}
