/**
  What each call of a task manager does, told by the entries that there are, and what the
  record of a run says about the calls and the tasks' returns that were made in it.
 */
module ManagerCalls {
  import opened Common
  import opened TaskErrors
  import opened Manager
  import opened ManagerRuns
  import opened ManagerProgress

  /** The entry's own goroutine has taken it out of the map. */
  predicate Gone(stage: StartStage) {
    stage.Removed? || stage.DoneClosed? || stage.Exited?
  }

  /** Entry i runs under the name. */
  predicate RunsAs(entries: seq<Entry>, name: string, i: nat) {
    i < |entries| && entries[i].name == name && !Gone(entries[i].start)
  }

  /** A step by which one caller gets to a new place and nothing else happens. */
  ghost predicate OnlyClient(s: System, a: Action, who: nat, c: Client) {
    Enabled(s, a) && Step(s, a) == s.(clients := s.clients[who := c])
  }

  // ------------------------------------------------------------------- new calls

  /**
    StopTask fails with ErrTaskNotFound if and only if no entry of the name is still there;
    otherwise it turns to that entry, and its next step has a stop requested for it.
   */
  lemma StopTaskFinds(s: System, who: nat, name: string)
    requires Reachable(s) && who !in s.clients
    ensures CallerGets(s, StopCall(who, name), who, Done(NotFound)) <==> forall i: nat :: !RunsAs(s.entries, name, i)
    ensures forall i: nat :: RunsAs(s.entries, name, i) ==>
      && OnlyClient(s, StopCall(who, name), who, StopTask(Worker(name, i, Requesting)))
      && StopsEntry(Step(s, StopCall(who, name)), who, i)
  {
    ReachableInv(s);
    StopTaskFindsAt(s, who, name);
  }

  ghost predicate CallerGets(s: System, a: Action, who: nat, c: Client) {
    who in Step(s, a).clients && Step(s, a).clients[who] == c
  }

  /** The caller's next step is enabled, requests the stop if nobody has, and changes no other entry. */
  ghost predicate StopsEntry(s: System, who: nat, i: nat) {
    && i < |s.entries| && Enabled(s, AdvanceStop(who))
    && var e := s.entries[i];
       var s' := Step(s, AdvanceStop(who));
       && s'.entries == s.entries[i := if e.stop.NotRequested? then e.(stop := Requested) else e]
       && !s'.entries[i].stop.NotRequested?
  }

  lemma StopTaskFindsAt(s: System, who: nat, name: string)
    requires MapInv(s.entries, s.tasks) && who !in s.clients
    ensures CallerGets(s, StopCall(who, name), who, Done(NotFound)) <==> forall i: nat :: !RunsAs(s.entries, name, i)
    ensures forall i: nat :: RunsAs(s.entries, name, i) ==>
      && OnlyClient(s, StopCall(who, name), who, StopTask(Worker(name, i, Requesting)))
      && StopsEntry(Step(s, StopCall(who, name)), who, i)
  {
    forall i: nat | RunsAs(s.entries, name, i) ensures name in s.tasks && s.tasks[name] == i {
      assert InMap(s.entries[i].start);
    }
    if name in s.tasks {
      var i := s.tasks[name];
      assert RunsAs(s.entries, name, i);
      FirstRequest(Step(s, StopCall(who, name)), who, name, i);
    }
  }

  lemma FirstRequest(s: System, who: nat, name: string, i: nat)
    requires i < |s.entries| && who in s.clients && s.clients[who] == StopTask(Worker(name, i, Requesting))
    ensures StopsEntry(s, who, i)
  {
  }

  /** StartTask checks its arguments first, and then queues for opsMu, as StopAll and Wait do at once. */
  lemma OtherCalls(s: System, who: nat, name: string)
    requires who !in s.clients
    ensures OnlyClient(s, StartCall(who, name, true), who, Done(TaskIsNil))
    ensures OnlyClient(s, StartCall(who, name, false), who,
                       if name == "" then Done(NameIsEmpty) else Locking(StartOp(name)))
    ensures OnlyClient(s, StopAllCall(who), who, Locking(StopAllOp))
    ensures OnlyClient(s, WaitCall(who), who, Locking(WaitOp))
  {
  }

  /** StopAll starts one worker for each entry that is still there, and no other. */
  lemma SnapshotIsComplete(s: System, who: nat, order: seq<string>)
    requires Reachable(s) && Enabled(s, Snapshot(who, order))
    ensures var c := Step(s, Snapshot(who, order)).clients[who];
      && c.StoppingAll? && c.own == []
      && (forall i: nat :: i < |s.entries| && !Gone(s.entries[i].start) ==>
           Worker(s.entries[i].name, i, Requesting) in c.workers)
      && (forall w :: w in c.workers ==> RunsAs(s.entries, w.name, w.id) && w.pc == Requesting)
  {
    ReachableInv(s);
    SnapshotIsCompleteAt(s, who, order);
  }

  lemma SnapshotIsCompleteAt(s: System, who: nat, order: seq<string>)
    requires MapInv(s.entries, s.tasks) && Enabled(s, Snapshot(who, order))
    ensures var c := Step(s, Snapshot(who, order)).clients[who];
      && c.StoppingAll? && c.own == []
      && (forall i: nat :: i < |s.entries| && !Gone(s.entries[i].start) ==>
           Worker(s.entries[i].name, i, Requesting) in c.workers)
      && (forall w :: w in c.workers ==> RunsAs(s.entries, w.name, w.id) && w.pc == Requesting)
  {
    var workers := WorkersFor(s.tasks, order);
    forall i: nat | i < |s.entries| && !Gone(s.entries[i].start)
      ensures Worker(s.entries[i].name, i, Requesting) in workers
    {
      var name := s.entries[i].name;
      assert InMap(s.entries[i].start);
      assert name in order;
      var k :| 0 <= k < |order| && order[k] == name;
      assert workers[k] == Worker(name, i, Requesting);
    }
  }

  // -------------------------------------------------- what StopAll and Wait collect

  /** The start errors of an answer are exactly the failures noted by the time it reads them. */
  lemma StartErrorsAreRead(s: System, who: nat)
    requires Reachable(s) && who in s.clients && s.clients[who].Reading?
    ensures var s' := Step(s, ReadStartErrs(who));
      && who in s'.clients && s'.clients[who].ReadingStop?
      && multiset(s'.clients[who].startErrs) == AllStartFailures(s.entries)
  {
    BooksAreTrue(s);
  }

  /** The context errors that a StopAll has collected, from its snapshot to its answer. */
  function Collected(c: Client): Option<Errors> {
    match c
    case StoppingAll(_, own) => Some(own)
    case Reading(_, _, own) => Some(own)
    case ReadingStop(_, _, own, _) => Some(own)
    case Releasing(Joined(_, own, _, _)) => Some(own)
    case Done(Joined(_, own, _, _)) => Some(own)
    case _ => None
  }

  /** Each wait that is cut short adds the context's error, and nothing else changes what was collected. */
  lemma CollectedErrors(s: System, a: Action, who: nat)
    requires who in s.clients && Collected(s.clients[who]).Some?
    ensures who in Step(s, a).clients
    ensures Collected(Step(s, a).clients[who])
      == Some(Collected(s.clients[who]).value
              + if a.WorkerTimesOut? && a.who == who && Enabled(s, a) then [a.error] else [])
  {
    var own := Collected(s.clients[who]).value;
    assert own + [] == own;
    if a.WorkerTimesOut? && a.who == who && Enabled(s, a) {
      TimeoutIsCollected(s, a);
    } else {
      NothingCollected(s, a, who);
    }
  }

  lemma TimeoutIsCollected(s: System, a: Action)
    requires a.WorkerTimesOut? && Enabled(s, a)
    ensures a.who in s.clients && a.who in Step(s, a).clients && s.clients[a.who].StoppingAll?
    ensures Collected(Step(s, a).clients[a.who]) == Some(s.clients[a.who].own + [a.error])
  {
  }

  lemma NothingCollected(s: System, a: Action, who: nat)
    requires who in s.clients && Collected(s.clients[who]).Some?
    requires !(a.WorkerTimesOut? && a.who == who && Enabled(s, a))
    ensures who in Step(s, a).clients && Collected(Step(s, a).clients[who]) == Collected(s.clients[who])
  {
    if a.AdvanceWorker? && a.who == who && Enabled(s, a) {
      assert s.clients[who].own + [] == s.clients[who].own;
    }
  }

  /** A wait that is cut short is over for its worker, and for no other. */
  lemma TimedOutOnce(s: System, who: nat, k: nat, error: TaskError)
    requires Enabled(s, WorkerTimesOut(who, k, error))
    ensures var before, after := s.clients[who].workers, Step(s, WorkerTimesOut(who, k, error)).clients[who].workers;
      && after == before[k := before[k].(pc := TimedOut)]
      && Step(s, WorkerTimesOut(who, k, error)).entries == s.entries
  {
  }

  /** What was read as start errors is what the answer holds. */
  lemma StartErrorsAreKept(s: System, who: nat)
    requires who in s.clients && s.clients[who].ReadingStop?
    ensures var c, s' := s.clients[who], Step(s, ReadStopErrs(who));
      && who in s'.clients && s'.clients[who] == Releasing(Joined(c.op, c.own, c.startErrs, s.stopErrs))
      && CallerGets(s', Release(who), who, Done(Joined(c.op, c.own, c.startErrs, s.stopErrs)))
  {
  }

  // ------------------------------------------------------------- what a run records

  ghost predicate TakenAt(run: seq<Action>, i: nat, a: Action) {
    i < |run| && run[i] == a && Enabled(After(run[..i]), a)
  }

  /** Somewhere in the run, `a` was taken. */
  ghost predicate Taken(run: seq<Action>, a: Action) {
    exists i: nat :: TakenAt(run, i, a)
  }

  lemma TakenLater(run: seq<Action>, a: Action)
    requires run != []
    ensures Taken(run[..|run| - 1], a) ==> Taken(run, a)
  {
    var most := run[..|run| - 1];
    if Taken(most, a) {
      var i: nat :| TakenAt(most, i, a);
      assert most[..i] == run[..i];
      assert TakenAt(run, i, a);
    }
  }

  lemma TakenNow(run: seq<Action>, a: Action)
    requires run != [] && run[|run| - 1] == a && Enabled(After(run[..|run| - 1]), a)
    ensures Taken(run, a)
  {
    assert TakenAt(run, |run| - 1, a);
  }

  lemma TakenBefore(run: seq<Action>, a: Action)
    requires run != [] && Taken(run, a) && !TakenAt(run, |run| - 1, a)
    ensures Taken(run[..|run| - 1], a)
  {
    var i: nat :| TakenAt(run, i, a);
    assert run[..|run| - 1][..i] == run[..i];
    assert TakenAt(run[..|run| - 1], i, a);
  }

  lemma TakenSnoc(run: seq<Action>, a: Action)
    requires run != []
    ensures var most, last := run[..|run| - 1], run[|run| - 1];
      Taken(run, a) <==> Taken(most, a) || (last == a && Enabled(After(most), a))
  {
    if Taken(run[..|run| - 1], a) {
      TakenLater(run, a);
    } else if TakenAt(run, |run| - 1, a) {
      TakenNow(run, a);
    } else if Taken(run, a) {
      TakenBefore(run, a);
    }
  }

  /** How often the step was taken. */
  ghost function Times(run: seq<Action>, a: Action): nat {
    if run == [] then 0
    else
      var most := run[..|run| - 1];
      Times(most, a) + if run[|run| - 1] == a && Enabled(After(most), a) then 1 else 0
  }

  /** The Start of entry i has returned with this outcome. */
  predicate StartEnded(s: System, i: nat, outcome: Outcome) {
    i < |s.entries| && !Unreturned(s.entries[i].start) && s.entries[i].start.outcome == outcome
  }

  predicate StartBegun(s: System, i: nat) {
    i < |s.entries| && !s.entries[i].start.Spawned?
  }

  predicate StopEnded(s: System, i: nat, outcome: Outcome) {
    i < |s.entries| && StopHasReturned(s.entries[i].stop) && s.entries[i].stop.outcome == outcome
  }

  function CallsOf(s: System, i: nat): nat {
    if i < |s.entries| then s.entries[i].stopCalls else 0
  }

  /** What a caller's step leaves of an entry's record, and what a new entry starts with. */
  predicate SameRecord(entries: seq<Entry>, entries': seq<Entry>, i: nat) {
    && |entries| <= |entries'|
    && (i < |entries| ==>
         && entries'[i].name == entries[i].name && entries'[i].start == entries[i].start
         && entries'[i].stopCalls == entries[i].stopCalls
         && (entries'[i].stop == entries[i].stop || (entries[i].stop.NotRequested? && entries'[i].stop.Requested?)))
    && (|entries| <= i < |entries'| ==>
         entries'[i].start.Spawned? && entries'[i].stop.NotRequested? && entries'[i].stopCalls == 0)
  }

  lemma CallerKeepsRecords(s: System, a: Action, i: nat)
    requires !StartAction(a) && !StopAction(a)
    ensures SameRecord(s.entries, Step(s, a).entries, i)
  {
  }

  lemma StepStart(s: System, a: Action, i: nat, outcome: Outcome)
    ensures StartEnded(Step(s, a), i, outcome)
      <==> StartEnded(s, i, outcome) || (a == StartReturns(i, outcome) && Enabled(s, a))
    ensures StartBegun(Step(s, a), i) <==> StartBegun(s, i) || (a == BeginStart(i) && Enabled(s, a))
  {
    if StartAction(a) || StopAction(a) {
      TaskStepStart(s, a, i, outcome);
    } else {
      CallerKeepsRecords(s, a, i);
    }
  }

  lemma TaskStepStart(s: System, a: Action, i: nat, outcome: Outcome)
    requires StartAction(a) || StopAction(a)
    ensures StartEnded(Step(s, a), i, outcome)
      <==> StartEnded(s, i, outcome) || (a == StartReturns(i, outcome) && Enabled(s, a))
    ensures StartBegun(Step(s, a), i) <==> StartBegun(s, i) || (a == BeginStart(i) && Enabled(s, a))
  {
  }

  lemma StepStop(s: System, a: Action, i: nat, outcome: Outcome)
    ensures StopEnded(Step(s, a), i, outcome)
      <==> StopEnded(s, i, outcome) || (a == StopReturns(i, outcome) && Enabled(s, a))
    ensures CallsOf(Step(s, a), i) == CallsOf(s, i) + if a == BeginStop(i) && Enabled(s, a) then 1 else 0
  {
    if StartAction(a) || StopAction(a) {
      TaskStepStop(s, a, i, outcome);
    } else {
      CallerKeepsRecords(s, a, i);
    }
  }

  lemma TaskStepStop(s: System, a: Action, i: nat, outcome: Outcome)
    requires StartAction(a) || StopAction(a)
    ensures StopEnded(Step(s, a), i, outcome)
      <==> StopEnded(s, i, outcome) || (a == StopReturns(i, outcome) && Enabled(s, a))
    ensures CallsOf(Step(s, a), i) == CallsOf(s, i) + if a == BeginStop(i) && Enabled(s, a) then 1 else 0
  {
  }

  /**
    The entries from which the answers are computed say what really happened: the outcome of each
    Start and Stop is the one with which it returned, and Stop's counter counts its calls.
   */
  lemma {:induction false} RecordsAreTrue(run: seq<Action>, i: nat, outcome: Outcome)
    ensures var s := After(run);
      && (StartBegun(s, i) <==> Taken(run, BeginStart(i)))
      && (StartEnded(s, i, outcome) <==> Taken(run, StartReturns(i, outcome)))
      && (StopEnded(s, i, outcome) <==> Taken(run, StopReturns(i, outcome)))
      && CallsOf(s, i) == Times(run, BeginStop(i))
  {
    if run != [] {
      var most, last := run[..|run| - 1], run[|run| - 1];
      RecordsAreTrue(most, i, outcome);
      StepStart(After(most), last, i, outcome);
      StepStop(After(most), last, i, outcome);
      TakenSnoc(run, BeginStart(i));
      TakenSnoc(run, StartReturns(i, outcome));
      TakenSnoc(run, StopReturns(i, outcome));
    }
  }

  /** No entry's Stop is called more than once in a run. */
  lemma StopIsBegunOnce(run: seq<Action>, i: nat)
    ensures Times(run, BeginStop(i)) <= 1
  {
    RecordsAreTrue(run, i, Success);
    assert Reachable(After(run));
    if i < |After(run).entries| { StopIsCalledOnce(After(run), i); }
  }

  // -------------------------------------------------------- answers match their calls

  ghost predicate OpCalled(run: seq<Action>, who: nat, op: Op) {
    match op
    case StartOp(name) => name != "" && Taken(run, StartCall(who, name, false))
    case StopAllOp => Taken(run, StopAllCall(who))
    case WaitOp => Taken(run, WaitCall(who))
  }

  ghost predicate StartCalled(run: seq<Action>, who: nat, nilTask: bool) {
    exists name :: Taken(run, StartCall(who, name, nilTask))
  }

  ghost predicate StopCalled(run: seq<Action>, who: nat) {
    exists name :: Taken(run, StopCall(who, name))
  }

  ghost predicate ReplyFits(run: seq<Action>, who: nat, reply: Reply, entries: seq<Entry>) {
    match reply
    case TaskIsNil => StartCalled(run, who, true)
    case NameIsEmpty => Taken(run, StartCall(who, "", false))
    case AlreadyExists => StartCalled(run, who, false)
    case Started(id) => id < |entries| && Taken(run, StartCall(who, entries[id].name, false))
    case NotFound => StopCalled(run, who)
    case ContextError => StopCalled(run, who) && Taken(run, StopTimesOut(who))
    case Stopped(name, _, _) => Taken(run, StopCall(who, name))
    case Joined(op, _, _, _) => !op.StartOp? && OpCalled(run, who, op)
  }

  /** Where a caller is, and its answer if it has one, fits the call that it made in the run. */
  ghost predicate Fits(run: seq<Action>, who: nat, c: Client, entries: seq<Entry>) {
    match c
    case Locking(op) => OpCalled(run, who, op)
    case Inserting(name) => OpCalled(run, who, StartOp(name))
    case Snapshotting => OpCalled(run, who, StopAllOp)
    case StoppingAll(_, _) => OpCalled(run, who, StopAllOp)
    case Waiting => OpCalled(run, who, WaitOp)
    case Reading(op, _, _) => !op.StartOp? && OpCalled(run, who, op)
    case ReadingStop(op, _, _, _) => !op.StartOp? && OpCalled(run, who, op)
    case Releasing(reply) => ReplyFits(run, who, reply, entries)
    case StopTask(w) => Taken(run, StopCall(who, w.name))
    case Done(reply) => ReplyFits(run, who, reply, entries)
  }

  /** A new caller's first place. */
  predicate Enters(a: Action, who: nat, c: Client) {
    || (a.StartCall? && a.who == who && a.nilTask && c == Done(TaskIsNil))
    || (a == StartCall(who, "", false) && c == Done(NameIsEmpty))
    || (a.StartCall? && a.who == who && !a.nilTask && a.name != "" && c == Locking(StartOp(a.name)))
    || (a.StopCall? && a.who == who && (c == Done(NotFound) || (c.StopTask? && c.worker.name == a.name)))
    || (a == StopAllCall(who) && c == Locking(StopAllOp))
    || (a == WaitCall(who) && c == Locking(WaitOp))
  }

  /** The places that a place leads to. */
  predicate Leads(b: Client, a: Action, who: nat, c: Client, entries: seq<Entry>) {
    match b
    case Locking(StartOp(name)) => c == Inserting(name)
    case Locking(StopAllOp) => c == Snapshotting
    case Locking(WaitOp) => c == Waiting
    case Inserting(name) =>
      c == Releasing(AlreadyExists)
      || (c.Releasing? && c.reply.Started? && c.reply.id < |entries| && entries[c.reply.id].name == name)
    case Snapshotting => c.StoppingAll?
    case StoppingAll(_, _) => c.StoppingAll? || (c.Reading? && c.op == StopAllOp)
    case Waiting => c.Reading? && c.op == WaitOp
    case Reading(op, _, _) => c.ReadingStop? && c.op == op
    case ReadingStop(op, _, _, _) => c.Releasing? && c.reply.Joined? && c.reply.op == op
    case Releasing(reply) => c == Done(reply)
    case StopTask(w) =>
      || (c.StopTask? && c.worker.name == w.name)
      || (c == Done(ContextError) && a == StopTimesOut(who))
      || (c.Done? && c.reply.Stopped? && c.reply.name == w.name)
    case Done(_) => false
  }

  lemma StepMovesClient(s: System, a: Action, who: nat)
    requires who in Step(s, a).clients
    ensures || (who in s.clients && s.clients[who] == Step(s, a).clients[who])
            || (Enabled(s, a)
                && if who in s.clients then Leads(s.clients[who], a, who, Step(s, a).clients[who], Step(s, a).entries)
                   else Enters(a, who, Step(s, a).clients[who]))
  {
  }

  lemma NamesStay(s: System, a: Action)
    ensures SameNames(s.entries, Step(s, a).entries)
  {
    if StartAction(a) || StopAction(a) {
      TaskKeepsNames(s, a);
    } else {
      CallerKeepsRecords(s, a, 0);
      forall i | 0 <= i < |s.entries| ensures Step(s, a).entries[i].name == s.entries[i].name {
        CallerKeepsRecords(s, a, i);
      }
    }
  }

  lemma TaskKeepsNames(s: System, a: Action)
    requires StartAction(a) || StopAction(a)
    ensures SameNames(s.entries, Step(s, a).entries)
  {
  }

  ghost predicate SameNames(entries: seq<Entry>, entries': seq<Entry>) {
    |entries| <= |entries'| && forall i :: 0 <= i < |entries| ==> entries'[i].name == entries[i].name
  }

  lemma OpCalledLater(run: seq<Action>, who: nat, op: Op)
    requires run != [] && OpCalled(run[..|run| - 1], who, op)
    ensures OpCalled(run, who, op)
  {
    match op {
      case StartOp(name) => TakenLater(run, StartCall(who, name, false));
      case StopAllOp => TakenLater(run, StopAllCall(who));
      case WaitOp => TakenLater(run, WaitCall(who));
    }
  }

  lemma ReplyFitsLater(run: seq<Action>, who: nat, reply: Reply, entries: seq<Entry>, entries': seq<Entry>)
    requires run != [] && ReplyFits(run[..|run| - 1], who, reply, entries) && SameNames(entries, entries')
    ensures ReplyFits(run, who, reply, entries')
  {
    forall a: Action ensures Taken(run[..|run| - 1], a) ==> Taken(run, a) { TakenLater(run, a); }
  }

  lemma FitsLater(run: seq<Action>, who: nat, c: Client, entries: seq<Entry>, entries': seq<Entry>)
    requires run != [] && Fits(run[..|run| - 1], who, c, entries) && SameNames(entries, entries')
    ensures Fits(run, who, c, entries')
  {
    match c {
      case Releasing(reply) => ReplyFitsLater(run, who, reply, entries, entries');
      case Done(reply) => ReplyFitsLater(run, who, reply, entries, entries');
      case StopTask(w) => TakenLater(run, StopCall(who, w.name));
      case Locking(op) => OpCalledLater(run, who, op);
      case Inserting(name) => OpCalledLater(run, who, StartOp(name));
      case Reading(op, _, _) => OpCalledLater(run, who, op);
      case ReadingStop(op, _, _, _) => OpCalledLater(run, who, op);
      case Waiting => OpCalledLater(run, who, WaitOp);
      case _ => OpCalledLater(run, who, StopAllOp);
    }
  }

  lemma FitsOnEntering(run: seq<Action>, who: nat, c: Client, entries: seq<Entry>)
    requires run != [] && Enabled(After(run[..|run| - 1]), run[|run| - 1]) && Enters(run[|run| - 1], who, c)
    ensures Fits(run, who, c, entries)
  {
    TakenNow(run, run[|run| - 1]);
  }

  /** A place that fits its call leads to places that fit it. */
  lemma FitsOnward(run: seq<Action>, who: nat, b: Client, c: Client, entries: seq<Entry>)
    requires run != [] && Enabled(After(run[..|run| - 1]), run[|run| - 1])
    requires Fits(run, who, b, entries) && Leads(b, run[|run| - 1], who, c, entries)
    ensures Fits(run, who, c, entries)
  {
    if c == Done(ContextError) && b.StopTask? { TakenNow(run, run[|run| - 1]); }
  }

  /** Every caller's place and answer belongs to the call that it made. */
  lemma {:induction false} AnswersFit(run: seq<Action>, who: nat)
    requires who in After(run).clients
    ensures Fits(run, who, After(run).clients[who], After(run).entries)
  {
    if run != [] {
      var most, last := run[..|run| - 1], run[|run| - 1];
      var s := After(most);
      StepMovesClient(s, last, who);
      NamesStay(s, last);
      if who in s.clients {
        AnswersFit(most, who);
        FitsLater(run, who, s.clients[who], s.entries, After(run).entries);
        if s.clients[who] != After(run).clients[who] {
          FitsOnward(run, who, s.clients[who], After(run).clients[who], After(run).entries);
        }
      } else {
        FitsOnEntering(run, who, After(run).clients[who], After(run).entries);
      }
    }
  }
}
