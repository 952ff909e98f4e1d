/**
  What every run of a task manager guarantees: one task at a time per name, exact
  removal, one Stop per entry, and what the answers of StopTask, StopAll and Wait mean.
 */
module ManagerRuns {
  import opened Common
  import opened TaskErrors
  import opened Manager

  // ------------------------------------------------------------ one task per name

  /** At most one task of a name is between StartTask and the return of its Start: the one in the map. */
  lemma OneTaskPerName(s: System, i: nat, j: nat)
    requires Reachable(s) && i < |s.entries| && Unreturned(s.entries[i].start)
    ensures s.entries[i].name in s.tasks && s.tasks[s.entries[i].name] == i
    ensures j < |s.entries| && Unreturned(s.entries[j].start) && s.entries[j].name == s.entries[i].name ==> j == i
  {
    ReachableInv(s);
  }

  /** Every entry of the map has an open doneCh, so what StartTask finds in its way is never stale. */
  lemma MappedEntriesAreOpen(s: System, name: string)
    requires Reachable(s) && name in s.tasks
    ensures s.tasks[name] < |s.entries| && s.entries[s.tasks[name]].name == name
    ensures !(s.entries[s.tasks[name]].start.DoneClosed? || s.entries[s.tasks[name]].start.Exited?)
  {
    ReachableInv(s);
  }

  /**
    StartTask is refused exactly when the name is in the map; otherwise it adds one entry
    and one mapping and replaces nothing.
   */
  lemma StartTaskDecides(s: System, who: nat)
    requires Reachable(s) && Enabled(s, InsertTask(who))
    ensures var name, s', id := s.clients[who].name, Step(s, InsertTask(who)), |s.entries|;
      if name in s.tasks then
        s' == s.(clients := s.clients[who := Releasing(AlreadyExists)])
      else
        && s'.clients == s.clients[who := Releasing(Started(id))]
        && s'.tasks == s.tasks[name := id] && s'.running == s.running + 1
        && |s'.entries| == id + 1 && s'.entries[..id] == s.entries
        && s'.entries[id].name == name && Unreturned(s'.entries[id].start) && s'.entries[id].stop.NotRequested?
  {
    ReachableInv(s);
    InsertDecides(s, who);
  }

  lemma InsertDecides(s: System, who: nat)
    requires MapInv(s.entries, s.tasks) && who in s.clients && s.clients[who].Inserting?
    ensures var name, s', id := s.clients[who].name, InsertEntry(s, who, s.clients[who].name), |s.entries|;
      s' == if name in s.tasks then s.(clients := s.clients[who := Releasing(AlreadyExists)])
            else System(s.entries + [Entry(name, Spawned, NotRequested, 0, [], false)], s.tasks[name := id], s.ops,
                        s.running + 1, s.startErrs, s.stopErrs, s.clients[who := Releasing(Started(id))])
  {
  }

  /**
    A name leaves the map, or changes its entry, only by the step in which that entry's
    own goroutine removes it after its Start has returned: no stopper and no goroutine of
    an older entry removes it.
   */
  lemma OnlyItsGoroutineRemoves(s: System, a: Action, name: string)
    requires Reachable(s) && name in s.tasks
    requires name !in Step(s, a).tasks || Step(s, a).tasks[name] != s.tasks[name]
    ensures a == FinishStart(s.tasks[name])
    ensures s.tasks[name] < |s.entries| && !Unreturned(s.entries[s.tasks[name]].start)
  {
    ReachableInv(s);
    assert Enabled(s, a);
    if !a.FinishStart? {
      OthersRemoveNothing(s, a);
    } else {
      FinishStartRemoves(s, a.id, name);
    }
  }

  lemma OthersRemoveNothing(s: System, a: Action)
    requires Inv(s) && Enabled(s, a) && !a.FinishStart?
    ensures Shrinks(Step(s, a).tasks, s.tasks)
  {
    if a.AdvanceStop? {
      assert ClientInv(s.clients[a.who], s.entries, s.tasks, s.startErrs);
      StopperRemovesNothing(s.clients[a.who].worker, s.entries, s.tasks);
    } else if a.AdvanceWorker? {
      assert ClientInv(s.clients[a.who], s.entries, s.tasks, s.startErrs);
      StopperRemovesNothing(s.clients[a.who].workers[a.k], s.entries, s.tasks);
    } else if a.InsertTask? {
      InsertRemovesNothing(s, a.who);
    } else {
      TasksKept(s, a);
    }
  }

  lemma InsertRemovesNothing(s: System, who: nat)
    requires MapInv(s.entries, s.tasks) && Enabled(s, InsertTask(who))
    ensures Shrinks(Step(s, InsertTask(who)).tasks, s.tasks)
  {
  }

  lemma TasksKept(s: System, a: Action)
    requires !(a.FinishStart? || a.AdvanceStop? || a.AdvanceWorker? || a.InsertTask?)
    ensures Step(s, a).tasks == s.tasks
  {
  }

  lemma FinishStartRemoves(s: System, id: nat, name: string)
    requires MapInv(s.entries, s.tasks) && Enabled(s, FinishStart(id)) && name in s.tasks
    requires !(name in Step(s, FinishStart(id)).tasks && Step(s, FinishStart(id)).tasks[name] == s.tasks[name])
    ensures id == s.tasks[name] && !Unreturned(s.entries[id].start)
  {
  }

  // --------------------------------------------------------------- stopping a task

  /** However many stoppers race, an entry's Stop is called at most once, and only on request. */
  lemma StopIsCalledOnce(s: System, i: nat)
    requires Reachable(s) && i < |s.entries|
    ensures s.entries[i].stopCalls <= 1
    ensures s.entries[i].stopCalls == 1 ==> !s.entries[i].stop.NotRequested?
    ensures StopHasReturned(s.entries[i].stop) ==> s.entries[i].stopCalls == 1
  {
    ReachableInv(s);
  }

  /** What StopTask returns about an entry: both calls are over, and the error is Stop's. */
  lemma StopTaskMeans(s: System, who: nat, name: string, id: nat, errors: Errors)
    requires Reachable(s) && who in s.clients && s.clients[who] == Done(Stopped(name, id, errors))
    ensures id < |s.entries| && s.entries[id].name == name
    ensures (s.entries[id].start.DoneClosed? || s.entries[id].start.Exited?) && s.entries[id].stop.Signalled?
    ensures s.entries[id].stopCalls == 1 && errors == FailureOf(s.entries[id].stop.outcome)
    ensures errors == [] <==> s.entries[id].stop.outcome == Success
  {
    ReachableInv(s);
    assert ClientInv(s.clients[who], s.entries, s.tasks, s.startErrs);
  }

  /** `who` asked to stop `name` at a moment when the map held entry `id` for it. */
  ghost predicate FoundAt(run: seq<Action>, i: nat, who: nat, name: string, id: nat) {
    && i < |run| && run[i] == StopCall(who, name)
    && name in After(run[..i]).tasks && After(run[..i]).tasks[name] == id
  }

  ghost predicate Found(run: seq<Action>, who: nat, name: string, id: nat) {
    exists i: nat :: FoundAt(run, i, who, name, id)
  }

  /** The caller is stopping, or has stopped, this entry. */
  predicate Stops(c: Client, name: string, id: nat) {
    || (c.StopTask? && c.worker.name == name && c.worker.id == id)
    || (c.Done? && c.reply.Stopped? && c.reply.name == name && c.reply.id == id)
  }

  /** Only StopTask's own steps lead there; what opsMu's holder releases is no such answer. */
  lemma StepStops(s: System, a: Action, who: nat, name: string, id: nat)
    requires who in s.clients && s.clients[who].Releasing? ==> !s.clients[who].reply.Stopped?
    requires who in Step(s, a).clients && Stops(Step(s, a).clients[who], name, id)
    ensures || (who in s.clients && Stops(s.clients[who], name, id))
            || (a == StopCall(who, name) && name in s.tasks && s.tasks[name] == id)
  {
    if Step(s, a).clients[who].StopTask? {
      BecomesStopper(s, a, who);
    } else {
      BecomesStopped(s, a, who);
    }
  }

  lemma BecomesStopper(s: System, a: Action, who: nat)
    requires who in Step(s, a).clients && Step(s, a).clients[who].StopTask?
    ensures var w := Step(s, a).clients[who].worker;
      || (who in s.clients && s.clients[who].StopTask? && s.clients[who].worker == w.(pc := s.clients[who].worker.pc))
      || (a == StopCall(who, w.name) && w.name in s.tasks && s.tasks[w.name] == w.id)
  {
  }

  lemma BecomesStopped(s: System, a: Action, who: nat)
    requires who in Step(s, a).clients && Step(s, a).clients[who].Done? && Step(s, a).clients[who].reply.Stopped?
    ensures who in s.clients
    ensures var reply, c := Step(s, a).clients[who].reply, s.clients[who];
      || c == Done(reply) || c == Releasing(reply)
      || (c.StopTask? && c.worker.name == reply.name && c.worker.id == reply.id)
  {
  }

  lemma NoStoppedReleased(s: System, who: nat)
    requires ClientsInv(s.clients, s.entries, s.tasks, s.startErrs)
    requires who in s.clients && s.clients[who].Releasing?
    ensures !s.clients[who].reply.Stopped?
  {
    assert ClientInv(s.clients[who], s.entries, s.tasks, s.startErrs);
  }

  /** The entry that StopTask answers about is the one that the map held for the name when it was called. */
  lemma {:induction false} StopTaskStopsTheNamed(run: seq<Action>, who: nat, name: string, id: nat)
    requires who in After(run).clients && Stops(After(run).clients[who], name, id)
    ensures Found(run, who, name, id)
  {
    if run != [] {
      var most, last := run[..|run| - 1], run[|run| - 1];
      RunInv(most);
      if who in After(most).clients && After(most).clients[who].Releasing? { NoStoppedReleased(After(most), who); }
      StepStops(After(most), last, who, name, id);
      if who in After(most).clients && Stops(After(most).clients[who], name, id) {
        StopTaskStopsTheNamed(most, who, name, id);
        FoundLater(run, who, name, id);
      } else {
        FoundNow(run, who, name, id);
      }
    }
  }

  lemma FoundLater(run: seq<Action>, who: nat, name: string, id: nat)
    requires run != [] && Found(run[..|run| - 1], who, name, id)
    ensures Found(run, who, name, id)
  {
    var most := run[..|run| - 1];
    var i: nat :| FoundAt(most, i, who, name, id);
    assert most[..i] == run[..i];
    assert FoundAt(run, i, who, name, id);
  }

  lemma FoundNow(run: seq<Action>, who: nat, name: string, id: nat)
    requires run != [] && run[|run| - 1] == StopCall(who, name)
    requires var s := After(run[..|run| - 1]); name in s.tasks && s.tasks[name] == id
    ensures Found(run, who, name, id)
  {
    assert FoundAt(run, |run| - 1, who, name, id);
  }

  // ------------------------------------------------------------- StopAll and Wait

  /** At most one of StartTask, StopAll and Wait is in its critical section. */
  lemma MutualExclusion(s: System, who: nat, who': nat)
    requires Reachable(s) && who in s.clients && who' in s.clients
    requires Holding(s.clients[who]) && Holding(s.clients[who'])
    ensures who == who'
  {
    ReachableInv(s);
  }

  /** Wait is let through exactly when every goroutine that was started has exited. */
  lemma WaitWaitsForAll(s: System, who: nat)
    requires Reachable(s) && who in s.clients && s.clients[who].Waiting?
    ensures Enabled(s, JoinRuns(who)) <==> AllExited(s.entries)
  {
    CountIsTrue(s);
  }

  lemma CountIsTrue(s: System)
    requires Reachable(s)
    ensures s.running == 0 <==> AllExited(s.entries)
  {
    ReachableInv(s);
    BalancedRunning(s);
  }

  lemma BalancedRunning(s: System)
    requires Balanced(s)
    ensures s.running == 0 <==> AllExited(s.entries)
  {
    RunningIsZero(s.entries, s.running);
  }

  lemma RunningIsZero(entries: seq<Entry>, running: int)
    requires running == AllRuns(entries)
    ensures running == 0 <==> AllExited(entries)
  {
    if running == 0 { NobodyRuns(entries); }
    if AllExited(entries) { SumOfZeros(RunsOf(entries)); }
  }

  lemma {:induction false} SumOfZeros(counts: seq<nat>)
    requires forall i :: 0 <= i < |counts| ==> counts[i] == 0
    ensures Sum(counts) == 0
  {
    if counts != [] { SumOfZeros(counts[..|counts| - 1]); }
  }

  /** The answer with which `who` is about to leave opsMu. */
  predicate Answers(s: System, who: nat, op: Op, own: Errors, startErrs: Errors, stopErrs: Errors) {
    who in s.clients && s.clients[who] == Releasing(Joined(op, own, startErrs, stopErrs))
  }

  /**
    When Wait, or a StopAll none of whose waits was cut short, is about to return and
    still holds opsMu: the map is empty, every Start has returned, and the answer holds
    every start failure so far that is not a cancellation, each as often as it occurred.
   */
  lemma JoinedMeans(s: System, who: nat, op: Op, own: Errors, startErrs: Errors, stopErrs: Errors)
    requires Reachable(s) && Answers(s, who, op, own, startErrs, stopErrs) && own == []
    ensures s.ops == Some(who) && s.tasks == map[]
    ensures forall i :: 0 <= i < |s.entries| ==> !Unreturned(s.entries[i].start)
    ensures multiset(startErrs) == AllStartFailures(s.entries)
    ensures op == WaitOp ==> AllExited(s.entries)
  {
    BooksAreTrue(s);
    ReachableInv(s);
    AnswerIsCurrent(s, who, op, own, startErrs, stopErrs);
  }

  lemma BooksAreTrue(s: System)
    requires Reachable(s)
    ensures multiset(s.startErrs) == AllStartFailures(s.entries)
    ensures multiset(s.stopErrs) == AllStopFailures(s.entries)
  {
    ReachableInv(s);
  }

  lemma AnswerIsCurrent(s: System, who: nat, op: Op, own: Errors, startErrs: Errors, stopErrs: Errors)
    requires Inv(s) && Answers(s, who, op, own, startErrs, stopErrs) && own == []
    ensures s.ops == Some(who) && s.tasks == map[] && startErrs == s.startErrs
    ensures forall i :: 0 <= i < |s.entries| ==> !Unreturned(s.entries[i].start)
    ensures op == WaitOp ==> AllExited(s.entries)
  {
    assert ClientInv(s.clients[who], s.entries, s.tasks, s.startErrs);
  }

  /** Wait has no timeout, so it always answers in that way. */
  lemma WaitIsComplete(s: System, who: nat, own: Errors, startErrs: Errors, stopErrs: Errors)
    requires Reachable(s) && Answers(s, who, WaitOp, own, startErrs, stopErrs)
    ensures own == []
  {
    ReachableInv(s);
    assert ClientInv(s.clients[who], s.entries, s.tasks, s.startErrs);
  }

  ghost predicate StartFailedWith(entries: seq<Entry>, e: TaskError) {
    !e.canceled && exists i :: 0 <= i < |entries| && !Unreturned(entries[i].start)
                               && entries[i].start.outcome == Failure(e)
  }

  /** So an error is in Wait's answer exactly when some task's Start failed with it. */
  lemma WaitReportsFailures(s: System, who: nat, own: Errors, startErrs: Errors, stopErrs: Errors, e: TaskError)
    requires Reachable(s) && Answers(s, who, WaitOp, own, startErrs, stopErrs)
    ensures e in startErrs <==> StartFailedWith(s.entries, e)
  {
    WaitIsComplete(s, who, own, startErrs, stopErrs);
    JoinedMeans(s, who, WaitOp, own, startErrs, stopErrs);
    assert e in startErrs <==> e in multiset(startErrs);
    UnionMembers(StartFailures(s.entries), e);
    if StartFailedWith(s.entries, e) {
      var i :| 0 <= i < |s.entries| && !Unreturned(s.entries[i].start) && s.entries[i].start.outcome == Failure(e);
      assert e in StartFailures(s.entries)[i];
    }
  }

  /** The stop errors of an answer are the Stop failures noted up to the moment at which it reads them. */
  lemma StopErrorsAreRead(s: System, who: nat)
    requires Reachable(s) && who in s.clients && s.clients[who].ReadingStop?
    ensures var s' := Step(s, ReadStopErrs(who));
      && who in s'.clients && s'.clients[who].Releasing? && s'.clients[who].reply.Joined?
      && multiset(s'.clients[who].reply.stopErrs) == AllStopFailures(s.entries)
  {
    ReachableInv(s);
  }

  predicate Answered(s: System, who: nat, reply: Reply) {
    who in s.clients && s.clients[who] == Done(reply)
  }

  lemma DoneStays(s: System, a: Action, who: nat, reply: Reply)
    requires Answered(s, who, reply)
    ensures Answered(Step(s, a), who, reply)
  {
  }

  lemma AfterOneMore(run: seq<Action>, more: seq<Action>)
    requires more != []
    ensures After(run + more) == Step(After(run + more[..|more| - 1]), more[|more| - 1])
  {
    assert (run + more)[..|run + more| - 1] == run + more[..|more| - 1];
  }

  lemma {:induction false} AnswersStay(run: seq<Action>, more: seq<Action>, who: nat, reply: Reply)
    requires Answered(After(run), who, reply)
    ensures Answered(After(run + more), who, reply)
  {
    if more == [] {
      assert run + more == run;
    } else {
      AnswersStay(run, more[..|more| - 1], who, reply);
      AfterOneMore(run, more);
      DoneStays(After(run + more[..|more| - 1]), more[|more| - 1], who, reply);
    }
  }

  /** The answer of Wait or StopAll, about to be given, contains the stop error. */
  predicate ReportsStop(s: System, who: nat, e: TaskError) {
    && who in s.clients && s.clients[who].Releasing? && s.clients[who].reply.Joined?
    && e in s.clients[who].reply.stopErrs
  }

  /** An error that StopTask has returned is in the answer of every Wait and StopAll that reads later. */
  lemma StopErrorsReachWait(run: seq<Action>, more: seq<Action>, who: nat, name: string, id: nat, errors: Errors,
                            who': nat, e: TaskError)
    requires Answered(After(run), who, Stopped(name, id, errors)) && e in errors
    requires who' in After(run + more).clients && After(run + more).clients[who'].ReadingStop?
    ensures ReportsStop(Step(After(run + more), ReadStopErrs(who')), who', e)
  {
    AnswersStay(run, more, who, Stopped(name, id, errors));
    RunInv(run + more);
    StoppedErrorIsNoted(After(run + more), who, name, id, errors, e);
    NotedErrorIsRead(After(run + more), who', e);
  }

  lemma NotedErrorIsRead(s: System, who: nat, e: TaskError)
    requires who in s.clients && s.clients[who].ReadingStop? && e in s.stopErrs
    ensures ReportsStop(Step(s, ReadStopErrs(who)), who, e)
  {
  }

  lemma StoppedErrorIsNoted(s: System, who: nat, name: string, id: nat, errors: Errors, e: TaskError)
    requires Inv(s) && Balanced(s) && Answered(s, who, Stopped(name, id, errors)) && e in errors
    ensures e in s.stopErrs
  {
    assert ClientInv(s.clients[who], s.entries, s.tasks, s.startErrs);
    SignalledIsNoted(s.entries, id, s.stopErrs, e);
  }

  /** A failure that has been signalled is among the manager's stop errors. */
  lemma SignalledIsNoted(entries: seq<Entry>, id: nat, stopErrs: Errors, e: TaskError)
    requires multiset(stopErrs) == AllStopFailures(entries)
    requires id < |entries| && entries[id].stop.Signalled? && e in FailureOf(entries[id].stop.outcome)
    ensures e in stopErrs
  {
    assert e in StopFailures(entries)[id];
    UnionMembers(StopFailures(entries), e);
    assert e in multiset(stopErrs);
  }

  /** Once StopAll reads, each of its workers that was not cut short has seen both signals. */
  lemma WorkersHaveFinished(s: System, who: nat, k: nat)
    requires ClientsInv(s.clients, s.entries, s.tasks, s.startErrs) && who in s.clients
    requires s.clients[who].ReadingStop? && s.clients[who].own == [] && k < |s.clients[who].workers|
    ensures var id := s.clients[who].workers[k].id;
      id < |s.entries| && s.entries[id].stop.Signalled? && IsDone(s.entries[id].start)
  {
    assert ClientInv(s.clients[who], s.entries, s.tasks, s.startErrs);
    assert WorkerInv(s.clients[who].workers[k], s.entries);
  }

  /** StopAll waits for one worker per entry of the map, and its answer holds the failure of each Stop. */
  lemma StopAllReportsItsStops(s: System, who: nat, k: nat)
    requires Reachable(s) && who in s.clients && s.clients[who].ReadingStop?
    requires s.clients[who].own == [] && k < |s.clients[who].workers|
    ensures var id := s.clients[who].workers[k].id;
      && id < |s.entries| && s.entries[id].stop.Signalled?
      && (s.entries[id].start.DoneClosed? || s.entries[id].start.Exited?)
      && (s.entries[id].stop.outcome.Failure? ==>
           ReportsStop(Step(s, ReadStopErrs(who)), who, s.entries[id].stop.outcome.error))
  {
    ReachableInv(s);
    WorkersHaveFinished(s, who, k);
    var id := s.clients[who].workers[k].id;
    if s.entries[id].stop.outcome.Failure? {
      SignalledIsNoted(s.entries, id, s.stopErrs, s.entries[id].stop.outcome.error);
      NotedErrorIsRead(s, who, s.entries[id].stop.outcome.error);
    }
  }
}
