/**
  How long the calls of a task manager can take: a measure over the stages of the entries,
  the workers and the callers that every step except a new call lowers, and what follows
  from it about completing the calls that are under way.
 */
module ManagerWork {
  import opened Common
  import opened TaskErrors
  import opened Manager
  import opened ManagerRuns
  import opened ManagerProgress

  // ------------------------------------------------------------------ the measure

  function StopWeight(stop: StopStage): nat {
    match stop
    case NotRequested => 6
    case Requested => 5
    case InStop => 4
    case StopReturned(_) => 3
    case StopNoted(_) => 2
    case StopErrSet(_) => 1
    case Signalled(_) => 0
  }

  /** The steps of an entry's two goroutines that are left, the request for the second, and its parent's end. */
  function EntryWeight(e: Entry): nat {
    6 - StartRank(e.start) + StopWeight(e.stop) + if e.parentDone then 0 else 1
  }

  function EntryWeights(entries: seq<Entry>): seq<nat> {
    seq(|entries|, i requires 0 <= i < |entries| => EntryWeight(entries[i]))
  }

  function WorkerWeight(w: Worker): nat {
    match w.pc
    case Requesting => 4
    case AwaitingStop => 3
    case AwaitingDone => 2
    case Removing => 1
    case _ => 0
  }

  function WorkerWeights(workers: seq<Worker>): seq<nat> {
    seq(|workers|, k requires 0 <= k < |workers| => WorkerWeight(workers[k]))
  }

  /** `cap` bounds the entries that a snapshot may still find; a new entry weighs 13. */
  function ClientWeight(c: Client, cap: nat): nat {
    match c
    case Locking(StartOp(_)) => 16
    case Locking(StopAllOp) => 6 + 4 * cap
    case Locking(WaitOp) => 5
    case Inserting(_) => 15
    case Snapshotting => 5 + 4 * cap
    case StoppingAll(workers, _) => 4 + Sum(WorkerWeights(workers))
    case Waiting => 4
    case Reading(_, _, _) => 3
    case ReadingStop(_, _, _, _) => 2
    case Releasing(_) => 1
    case StopTask(w) => 1 + WorkerWeight(w)
    case Done(_) => 0
  }

  /** The call may still add an entry. */
  function Starting(c: Client): nat {
    if c.Inserting? || (c.Locking? && c.op.StartOp?) then 1 else 0
  }

  predicate Bounded(clients: map<nat, Client>, n: nat) {
    forall who :: who in clients ==> who < n
  }

  function ClientWeights(clients: map<nat, Client>, n: nat, cap: nat): seq<nat> {
    seq(n, who => if who in clients then ClientWeight(clients[who], cap) else 0)
  }

  function Starters(clients: map<nat, Client>, n: nat): seq<nat> {
    seq(n, who => if who in clients then Starting(clients[who]) else 0)
  }

  /** The entries there are, and those that the calls under way may add. */
  function Cap(s: System, n: nat): nat {
    |s.entries| + Sum(Starters(s.clients, n))
  }

  /** The steps that what is under way can still take, when all callers are below `n`. */
  function Work(s: System, n: nat): nat {
    Sum(EntryWeights(s.entries)) + Sum(ClientWeights(s.clients, n, Cap(s, n)))
  }

  // ---------------------------------------------------------------- every step lowers it

  lemma {:induction false} SumMonotone(a: seq<nat>, b: seq<nat>)
    requires |a| == |b| && forall i :: 0 <= i < |a| ==> a[i] <= b[i]
    ensures Sum(a) <= Sum(b)
  {
    if a != [] { SumMonotone(a[..|a| - 1], b[..|b| - 1]); }
  }

  lemma EntriesUpdated(entries: seq<Entry>, i: nat, e: Entry)
    requires i < |entries|
    ensures Sum(EntryWeights(entries[i := e])) == Sum(EntryWeights(entries)) - EntryWeight(entries[i]) + EntryWeight(e)
  {
    SumUpdated(EntryWeights(entries), i, EntryWeight(e));
    assert EntryWeights(entries[i := e]) == EntryWeights(entries)[i := EntryWeight(e)];
  }

  lemma EntriesExtended(entries: seq<Entry>, e: Entry)
    ensures Sum(EntryWeights(entries + [e])) == Sum(EntryWeights(entries)) + EntryWeight(e)
  {
    SumSnoc(EntryWeights(entries), EntryWeight(e));
    assert EntryWeights(entries + [e]) == EntryWeights(entries) + [EntryWeight(e)];
  }

  lemma WorkersUpdated(workers: seq<Worker>, k: nat, w: Worker)
    requires k < |workers|
    ensures Sum(WorkerWeights(workers[k := w]))
      == Sum(WorkerWeights(workers)) - WorkerWeight(workers[k]) + WorkerWeight(w)
  {
    SumUpdated(WorkerWeights(workers), k, WorkerWeight(w));
    assert WorkerWeights(workers[k := w]) == WorkerWeights(workers)[k := WorkerWeight(w)];
  }

  lemma ClientsUpdated(clients: map<nat, Client>, n: nat, cap: nat, who: nat, c: Client)
    requires who in clients && who < n
    ensures Sum(ClientWeights(clients[who := c], n, cap))
      == Sum(ClientWeights(clients, n, cap)) - ClientWeight(clients[who], cap) + ClientWeight(c, cap)
    ensures Sum(Starters(clients[who := c], n)) == Sum(Starters(clients, n)) - Starting(clients[who]) + Starting(c)
  {
    SumUpdated(ClientWeights(clients, n, cap), who, ClientWeight(c, cap));
    assert ClientWeights(clients[who := c], n, cap) == ClientWeights(clients, n, cap)[who := ClientWeight(c, cap)];
    SumUpdated(Starters(clients, n), who, Starting(c));
    assert Starters(clients[who := c], n) == Starters(clients, n)[who := Starting(c)];
  }

  lemma LowerCap(clients: map<nat, Client>, n: nat, cap: nat, cap': nat)
    requires cap' <= cap
    ensures Sum(ClientWeights(clients, n, cap')) <= Sum(ClientWeights(clients, n, cap))
  {
    SumMonotone(ClientWeights(clients, n, cap'), ClientWeights(clients, n, cap));
  }

  /** A caller's step that does not make room for more entries. */
  lemma ClientStepWork(s: System, s': System, n: nat, who: nat, c: Client)
    requires who in s.clients && who < n && s'.clients == s.clients[who := c]
    requires |s'.entries| + Starting(c) <= |s.entries| + Starting(s.clients[who])
    requires Sum(EntryWeights(s'.entries)) + ClientWeight(c, Cap(s, n))
      < Sum(EntryWeights(s.entries)) + ClientWeight(s.clients[who], Cap(s, n))
    ensures Work(s', n) < Work(s, n)
  {
    ClientsUpdated(s.clients, n, Cap(s, n), who, c);
    LowerCap(s'.clients, n, Cap(s, n), Cap(s', n));
  }

  lemma EntryStepWork(s: System, s': System, n: nat, i: nat, e: Entry)
    requires i < |s.entries| && s'.entries == s.entries[i := e] && s'.clients == s.clients
    requires EntryWeight(e) < EntryWeight(s.entries[i])
    ensures Work(s', n) < Work(s, n)
  {
    EntriesUpdated(s.entries, i, e);
  }

  lemma GoroutineStepWork(s: System, n: nat, a: Action)
    requires Enabled(s, a) && (StartAction(a) || StopAction(a))
    ensures Step(s, a).clients == s.clients && Work(Step(s, a), n) < Work(s, n)
  {
    match a {
      case BeginStart(i) => EntryStepWork(s, Step(s, a), n, i, s.entries[i].(start := InStart));
      case StartReturns(i, outcome) => EntryStepWork(s, Step(s, a), n, i, s.entries[i].(start := Returned(outcome)));
      case FinishStart(i) =>
        EntryStepWork(s, Step(s, a), n, i, s.entries[i].(start := NextStart(s.entries[i].start)));
      case ParentCancels(i) => EntryStepWork(s, Step(s, a), n, i, s.entries[i].(parentDone := true));
      case BeginStop(i) =>
        EntryStepWork(s, Step(s, a), n, i,
                      s.entries[i].(stop := InStop, stopCalls := s.entries[i].stopCalls + 1));
      case StopReturns(i, outcome) => EntryStepWork(s, Step(s, a), n, i, s.entries[i].(stop := StopReturned(outcome)));
      case FinishStop(i) => EntryStepWork(s, Step(s, a), n, i, Step(s, a).entries[i]);
    }
  }

  lemma RequestWork(w: Worker, entries: seq<Entry>)
    requires w.id < |entries|
    ensures |WorkerEntries(w, entries)| == |entries|
    ensures Sum(EntryWeights(WorkerEntries(w, entries))) <= Sum(EntryWeights(entries))
  {
    if w.pc == Requesting { EntriesUpdated(entries, w.id, RequestStop(entries[w.id])); }
  }

  lemma AdvanceStopWork(s: System, n: nat, who: nat)
    requires Bounded(s.clients, n) && Enabled(s, AdvanceStop(who))
    ensures Work(Step(s, AdvanceStop(who)), n) < Work(s, n)
  {
    var w := s.clients[who].worker;
    RequestWork(w, s.entries);
    ClientStepWork(s, Step(s, AdvanceStop(who)), n, who, StopTask(w.(pc := NextWorker(w.pc))));
  }

  lemma AdvanceWorkerWork(s: System, n: nat, who: nat, k: nat)
    requires Bounded(s.clients, n) && Enabled(s, AdvanceWorker(who, k))
    ensures Work(Step(s, AdvanceWorker(who, k)), n) < Work(s, n)
  {
    var c := s.clients[who];
    var w := c.workers[k];
    RequestWork(w, s.entries);
    WorkersUpdated(c.workers, k, w.(pc := NextWorker(w.pc)));
    ClientStepWork(s, Step(s, AdvanceWorker(who, k)), n, who, MoveWorker(c, k, NextWorker(w.pc), []));
  }

  lemma TimeoutWork(s: System, n: nat, who: nat, k: nat, error: TaskError)
    requires Bounded(s.clients, n) && Enabled(s, WorkerTimesOut(who, k, error))
    ensures Work(Step(s, WorkerTimesOut(who, k, error)), n) < Work(s, n)
  {
    var c := s.clients[who];
    WorkersUpdated(c.workers, k, c.workers[k].(pc := TimedOut));
    ClientStepWork(s, Step(s, WorkerTimesOut(who, k, error)), n, who, MoveWorker(c, k, TimedOut, [error]));
  }

  lemma {:induction false} FreshWorkers(workers: seq<Worker>)
    requires forall k :: 0 <= k < |workers| ==> workers[k].pc.Requesting?
    ensures Sum(WorkerWeights(workers)) == 4 * |workers|
  {
    if workers != [] {
      FreshWorkers(workers[..|workers| - 1]);
      assert WorkerWeights(workers)[..|workers| - 1] == WorkerWeights(workers[..|workers| - 1]);
    }
  }

  /** The map has no more names than there are entries. */
  lemma NamesAreFew(entries: seq<Entry>, tasks: map<string, nat>, order: seq<string>)
    requires MapInv(entries, tasks) && Distinct(order) && forall name :: name in order ==> name in tasks
    ensures |order| <= |entries|
  {
    var ids := seq(|order|, k requires 0 <= k < |order| => tasks[order[k]]);
    forall i, j | 0 <= i < j < |ids| ensures ids[i] != ids[j] {
      assert entries[ids[i]].name == order[i] && entries[ids[j]].name == order[j];
    }
    Pigeonhole(ids, |entries|);
  }

  lemma SnapshotWork(s: System, n: nat, who: nat, order: seq<string>)
    requires MapInv(s.entries, s.tasks) && Bounded(s.clients, n) && Enabled(s, Snapshot(who, order))
    ensures Work(Step(s, Snapshot(who, order)), n) < Work(s, n)
  {
    var workers := WorkersFor(s.tasks, order);
    FreshWorkers(workers);
    NamesAreFew(s.entries, s.tasks, order);
    ClientStepWork(s, Step(s, Snapshot(who, order)), n, who, StoppingAll(workers, []));
  }

  lemma InsertWork(s: System, n: nat, who: nat)
    requires MapInv(s.entries, s.tasks) && Bounded(s.clients, n) && Enabled(s, InsertTask(who))
    ensures Work(Step(s, InsertTask(who)), n) < Work(s, n)
  {
    var name := s.clients[who].name;
    InsertDecides(s, who);
    if name in s.tasks {
      ClientStepWork(s, Step(s, InsertTask(who)), n, who, Releasing(AlreadyExists));
    } else {
      EntriesExtended(s.entries, Entry(name, Spawned, NotRequested, 0, [], false));
      ClientStepWork(s, Step(s, InsertTask(who)), n, who, Releasing(Started(|s.entries|)));
    }
  }

  /** The steps that only move their caller to its next place. */
  predicate PlainStep(a: Action) {
    a.Acquire? || a.JoinWorkers? || a.JoinRuns? || a.ReadStartErrs? || a.ReadStopErrs? || a.Release?
    || a.StopTimesOut? || a.ReadStopErr?
  }

  lemma PlainStepIs(s: System, a: Action)
    requires Enabled(s, a) && PlainStep(a)
    ensures a.who in s.clients && a.who in Step(s, a).clients && Step(s, a).entries == s.entries
    ensures Step(s, a).clients == s.clients[a.who := Step(s, a).clients[a.who]]
    ensures Starting(Step(s, a).clients[a.who]) <= Starting(s.clients[a.who])
    ensures forall cap: nat :: ClientWeight(Step(s, a).clients[a.who], cap) < ClientWeight(s.clients[a.who], cap)
  {
  }

  lemma PlainStepWork(s: System, n: nat, a: Action)
    requires Bounded(s.clients, n) && Enabled(s, a) && PlainStep(a)
    ensures Work(Step(s, a), n) < Work(s, n)
  {
    PlainStepIs(s, a);
    ClientStepWork(s, Step(s, a), n, a.who, Step(s, a).clients[a.who]);
  }

  lemma CallersStay(s: System, n: nat, a: Action)
    requires Bounded(s.clients, n) && !NewCall(a)
    ensures Bounded(Step(s, a).clients, n)
  {
  }

  /** Every step that is not a new call lowers the work, timeouts and the tasks' returns included. */
  lemma StepWork(s: System, n: nat, a: Action)
    requires Inv(s) && Bounded(s.clients, n) && Enabled(s, a) && !NewCall(a)
    ensures Work(Step(s, a), n) < Work(s, n)
  {
    if StartAction(a) || StopAction(a) {
      GoroutineStepWork(s, n, a);
    } else if PlainStep(a) {
      PlainStepWork(s, n, a);
    } else if a.AdvanceStop? {
      AdvanceStopWork(s, n, a.who);
    } else if a.AdvanceWorker? {
      AdvanceWorkerWork(s, n, a.who, a.k);
    } else if a.WorkerTimesOut? {
      TimeoutWork(s, n, a.who, a.k, a.error);
    } else if a.Snapshot? {
      SnapshotWork(s, n, a.who, a.order);
    } else {
      InsertWork(s, n, a.who);
    }
  }

  // ------------------------------------------------------------- what follows from it

  /** How many of the steps were enabled when they were tried. */
  ghost function Taken(s: System, rest: seq<Action>): nat
    decreases |rest|
  {
    if rest == [] then 0
    else (if Enabled(s, rest[0]) then 1 else 0) + Taken(Step(s, rest[0]), rest[1..])
  }

  predicate NoNewCalls(rest: seq<Action>) {
    forall k :: 0 <= k < |rest| ==> !NewCall(rest[k])
  }

  /**
    Between two new calls only finitely many steps are possible, in whatever order they are
    taken: no more than the work at hand.
   */
  lemma {:induction false} StepsAreBounded(s: System, n: nat, rest: seq<Action>)
    requires Inv(s) && Balanced(s) && Bounded(s.clients, n) && NoNewCalls(rest)
    ensures Taken(s, rest) + Work(Steps(s, rest), n) <= Work(s, n)
    decreases |rest|
  {
    if rest != [] {
      StepInv(s, rest[0]);
      CallersStay(s, n, rest[0]);
      if Enabled(s, rest[0]) { StepWork(s, n, rest[0]); }
      StepsAreBounded(Step(s, rest[0]), n, rest[1..]);
    }
  }

  ghost predicate AllAnswered(s: System) {
    forall who :: who in s.clients ==> s.clients[who].Done?
  }

  /** No Wait has been called that has not been let through. */
  ghost predicate NoWait(s: System) {
    forall who :: who in s.clients ==> !s.clients[who].Waiting? && s.clients[who] != Locking(WaitOp)
  }

  /** A step without timeout or new call; when `strict`, tasks return from Start only once cancelled. */
  ghost predicate Allowed(s: System, a: Action, strict: bool) {
    Enabled(s, a) && !NewCall(a) && !TimesOut(a) && (strict ==> Promised(s, a))
  }

  ghost predicate AllAllowed(s: System, rest: seq<Action>, strict: bool)
    decreases |rest|
  {
    rest != [] ==> Allowed(s, rest[0], strict) && AllAllowed(Step(s, rest[0]), rest[1..], strict)
  }

  lemma NoWaitStays(s: System, a: Action)
    requires NoWait(s) && !NewCall(a)
    ensures NoWait(Step(s, a))
  {
  }

  lemma ServingIsAllowed(s: System, who: nat, a: Action)
    requires Serves(s, who, a)
    ensures !NewCall(a) && !TimesOut(a)
  {
  }

  lemma NextAllowed(s: System, who: nat, strict: bool) returns (a: Action)
    requires Inv(s) && Balanced(s) && Pending(s, who) && (strict ==> NoWait(s))
    ensures Allowed(s, a, strict)
  {
    var mover := Mover(s, who);
    if s.clients[mover].Waiting? && NobodyAsked(s.entries) {
      var i :| 0 <= i < |s.entries| && !s.entries[i].start.Exited?;
      a := StartReturns(i, Success);
    } else {
      a := PromisedStep(s, who);
      ServingIsAllowed(s, who, a);
    }
  }

  lemma {:induction false} Complete(s: System, n: nat, strict: bool) returns (rest: seq<Action>)
    requires Inv(s) && Balanced(s) && Bounded(s.clients, n) && (strict ==> NoWait(s))
    ensures AllAllowed(s, rest, strict) && AllAnswered(Steps(s, rest)) && |rest| <= Work(s, n)
    decreases Work(s, n)
  {
    if AllAnswered(s) { return []; }
    var who :| who in s.clients && !s.clients[who].Done?;
    var a := NextAllowed(s, who, strict);
    StepInv(s, a);
    CallersStay(s, n, a);
    StepWork(s, n, a);
    if strict { NoWaitStays(s, a); }
    var more := Complete(Step(s, a), n, strict);
    rest := [a] + more;
  }

  /**
    While no Wait is under way, tasks that keep their promises (to return from Stop, and from
    Start once its context is cancelled) let every call be answered, without any timeout
    and within the work at hand.
   */
  lemma CallsCompleteWithoutWait(s: System, n: nat) returns (rest: seq<Action>)
    requires Reachable(s) && Bounded(s.clients, n) && NoWait(s)
    ensures AllAllowed(s, rest, true) && AllAnswered(Steps(s, rest)) && |rest| <= Work(s, n)
  {
    ReachableInv(s);
    rest := Complete(s, n, true);
  }

  /** With a Wait under way the same takes tasks that also return from Start when nobody has stopped them. */
  lemma CallsCompleteIfTasksReturn(s: System, n: nat) returns (rest: seq<Action>)
    requires Reachable(s) && Bounded(s.clients, n)
    ensures AllAllowed(s, rest, false) && AllAnswered(Steps(s, rest)) && |rest| <= Work(s, n)
  {
    ReachableInv(s);
    rest := Complete(s, n, false);
  }

  predicate AllOwn(rest: seq<Action>, who: nat) {
    forall k :: 0 <= k < |rest| ==> Own(rest[k], who)
  }

  ghost predicate AnsweredAfter(s: System, rest: seq<Action>, who: nat) {
    who in Steps(s, rest).clients && Steps(s, rest).clients[who].Done?
  }

  lemma OwnStepKeepsPlace(s: System, who: nat, a: Action)
    requires Pending(s, who) && !s.clients[who].Locking? && !s.clients[who].Waiting? && Own(a, who) && Enabled(s, a)
    ensures who in Step(s, a).clients && !Step(s, a).clients[who].Locking? && !Step(s, a).clients[who].Waiting?
    ensures !NewCall(a)
  {
  }

  /** The caller is neither at opsMu nor in Wait. */
  predicate PastLock(s: System, who: nat) {
    who in s.clients && !s.clients[who].Locking? && !s.clients[who].Waiting?
  }

  lemma OwnTurn(s: System, n: nat, who: nat) returns (a: Action)
    requires Inv(s) && Balanced(s) && Bounded(s.clients, n) && PastLock(s, who) && !s.clients[who].Done?
    ensures Own(a, who) && PastLock(Step(s, a), who) && Bounded(Step(s, a).clients, n)
    ensures Work(Step(s, a), n) < Work(s, n)
  {
    a := OwnStep(s, who);
    OwnStepKeepsPlace(s, who, a);
    CallersStay(s, n, a);
    StepWork(s, n, a);
  }

  lemma {:induction false} OwnWayOut(s: System, n: nat, who: nat) returns (rest: seq<Action>)
    requires Inv(s) && Balanced(s) && Bounded(s.clients, n) && PastLock(s, who)
    ensures AllOwn(rest, who) && AnsweredAfter(s, rest, who)
    decreases Work(s, n)
  {
    if s.clients[who].Done? { return []; }
    var a := OwnTurn(s, n, who);
    StepInv(s, a);
    var more := OwnWayOut(Step(s, a), n, who);
    rest := [a] + more;
    OneMoreOwn(s, a, more, who);
  }

  lemma OneMoreOwn(s: System, a: Action, more: seq<Action>, who: nat)
    requires Own(a, who) && AllOwn(more, who) && AnsweredAfter(Step(s, a), more, who)
    ensures AllOwn([a] + more, who) && AnsweredAfter(s, [a] + more, who)
  {
    assert ([a] + more)[1..] == more;
  }

  /**
    A StopTask, and a StopAll that has got opsMu, can be answered by steps of its own alone once
    its context has expired: it depends on no task and on no other caller.
   */
  lemma ExpiredCallReturns(s: System, n: nat, who: nat) returns (rest: seq<Action>)
    requires Reachable(s) && Bounded(s.clients, n) && PastLock(s, who)
    ensures AllOwn(rest, who) && AnsweredAfter(s, rest, who)
  {
    ReachableInv(s);
    rest := OwnWayOut(s, n, who);
  }
}
