/**
  The named task registry of core/task/manager.go as a transition system: one step for
  each lock region, channel operation and wait-group operation of StartTask, StopTask,
  StopAll and Wait and of the goroutines they spawn, with any number of concurrent callers.

  A run is any sequence of steps; a step that is not enabled leaves everything as it is.
  Whether and when a task's Start and Stop return, and with what, is the environment's
  choice, and so is the moment at which a caller's context expires.
 */
module Manager {
  import opened Common
  import opened TaskErrors

  // ------------------------------------------------------------- the task map

  /** The region of StartTask; `open` says that the entry in the way is not nil and not done. */
  function Insert<T>(tasks: map<string, T>, name: string, entry: T, open: bool): Option<map<string, T>> {
    if name in tasks && open then None else Some(tasks[name := entry])
  }

  /** removeTaskIfSame. */
  function RemoveIfSame<T(==)>(tasks: map<string, T>, name: string, expected: T): map<string, T> {
    if name in tasks && tasks[name] == expected then tasks - {name} else tasks
  }

  class ManagedTask {
    const name: string
    var done: bool
    var stopDone: bool
    var stopErr: Errors

    constructor (name: string)
      ensures this.name == name && !done && !stopDone && stopErr == []
    {
      this.name := name;
      done, stopDone, stopErr := false, false, [];
    }
  }

  /** The regions of Manager that its read-write lock guards, and its error accumulators. */
  class Manager {
    var tasks: map<string, ManagedTask?>
    const startErr: MultiError
    const stopErr: MultiError

    constructor ()
      ensures tasks == map[] && fresh(startErr) && fresh(stopErr) && startErr != stopErr
      ensures startErr.errs == [] && stopErr.errs == []
    {
      tasks := map[];
      startErr := new MultiError();
      stopErr := new MultiError();
    }

    /** What a task's goroutine does with the error of its Start. */
    method NoteStart(outcome: Outcome)
      modifies startErr
      ensures startErr.errs == old(startErr.errs) + StartFailureOf(outcome)
    {
      if outcome.Failure? && !outcome.error.canceled {
        startErr.Add(Some(outcome.error));
      }
    }

    /** What the goroutine of requestStop does with the error of Stop. */
    method NoteStop(outcome: Outcome)
      modifies stopErr
      ensures stopErr.errs == old(stopErr.errs) + FailureOf(outcome)
    {
      if outcome.Failure? {
        stopErr.Add(Some(outcome.error));
      }
    }

    method ResultErr() returns (joined: Errors)
      ensures joined == startErr.errs + stopErr.errs
    {
      var starts := startErr.Unwrap();
      var stops := stopErr.Unwrap();
      joined := (if starts.Some? then starts.value else []) + (if stops.Some? then stops.value else []);
    }

    method InsertRegion(name: string, entry: ManagedTask) returns (inserted: bool)
      modifies this
      ensures var open := name in old(tasks) && old(tasks)[name] != null && !old(tasks)[name].done;
        match Insert(old(tasks), name, entry, open)
        case None => !inserted && tasks == old(tasks)
        case Some(tasks') => inserted && tasks == tasks'
      ensures !inserted <==> name in old(tasks) && old(tasks)[name] != null && !old(tasks)[name].done
      ensures inserted ==> tasks == old(tasks)[name := entry]
    {
      if name in tasks {
        var existing := tasks[name];
        if existing != null && !existing.done {
          return false;
        }
        if existing == null {
          tasks := tasks - {name};
        }
      }
      tasks := tasks[name := entry];
      return true;
    }

    method RemoveTaskIfSame(name: string, expected: ManagedTask)
      modifies this
      ensures tasks == RemoveIfSame(old(tasks), name, expected)
      ensures name in tasks ==> tasks[name] != expected
      ensures forall other :: other in old(tasks) && (other != name || old(tasks)[name] != expected) ==>
        other in tasks && tasks[other] == old(tasks)[other]
      ensures tasks.Keys <= old(tasks).Keys
    {
      if name in tasks && tasks[name] == expected {
        tasks := tasks - {name};
      }
    }

    method GetTask(name: string) returns (entry: ManagedTask?)
      ensures entry != null <==> name in tasks && tasks[name] != null
      ensures entry != null ==> tasks[name] == entry
    {
      entry := if name in tasks then tasks[name] else null;
    }

    method SnapshotTasks() returns (copied: map<string, ManagedTask>)
      ensures forall name :: name in copied <==> name in tasks && tasks[name] != null
      ensures forall name :: name in copied ==> copied[name] == tasks[name]
    {
      copied := map[];
      var rest := tasks.Keys;
      while rest != {}
        invariant rest <= tasks.Keys
        invariant forall name :: name in copied <==> name in tasks && name !in rest && tasks[name] != null
        invariant forall name :: name in copied ==> copied[name] == tasks[name]
      {
        var name :| name in rest;
        var task := tasks[name];
        if task != null {
          copied := copied[name := task];
        }
        rest := rest - {name};
      }
    }
  }

  // ------------------------------------------------------------------ the protocol

  /** The goroutine that runs an entry's Start, up to and including its deferred calls. */
  datatype StartStage =
    | Spawned
    | InStart
    | Returned(outcome: Outcome)
    | Noted(outcome: Outcome)     // its error is in startErr
    | Removed(outcome: Outcome)   // removeTaskIfSame has run
    | DoneClosed(outcome: Outcome)
    | Exited(outcome: Outcome)    // runWG.Done has run

  /** The goroutine that the entry's stopOnce lets requestStop spawn. */
  datatype StopStage =
    | NotRequested
    | Requested
    | InStop
    | StopReturned(outcome: Outcome)
    | StopNoted(outcome: Outcome)   // its error is in the manager's stopErr
    | StopErrSet(outcome: Outcome)  // and in the entry's
    | Signalled(outcome: Outcome)   // stopDoneCh is closed

  /** `parentDone` says that the context given to StartTask, the parent of the run context, is done. */
  datatype Entry = Entry(name: string, start: StartStage, stop: StopStage, stopCalls: nat, stopErr: Errors,
                         parentDone: bool)

  /** Where a stopper is with one entry: StopTask's caller, or a goroutine of StopAll. */
  datatype WorkerPc = Requesting | AwaitingStop | AwaitingDone | Removing | Finished | TimedOut

  datatype Worker = Worker(name: string, id: nat, pc: WorkerPc)

  datatype Op = StartOp(name: string) | StopAllOp | WaitOp

  datatype Reply =
    | TaskIsNil
    | NameIsEmpty
    | AlreadyExists
    | Started(id: nat)
    | NotFound
    | ContextError
    | Stopped(name: string, id: nat, errors: Errors)
    | Joined(op: Op, own: Errors, startErrs: Errors, stopErrs: Errors)

  datatype Client =
    | Locking(op: Op)                                     // at opsMu.Lock
    | Inserting(name: string)                             // from here on, opsMu is held
    | Snapshotting
    | StoppingAll(workers: seq<Worker>, own: Errors)
    | Waiting
    | Reading(op: Op, workers: seq<Worker>, own: Errors)
    | ReadingStop(op: Op, workers: seq<Worker>, own: Errors, startErrs: Errors)
    | Releasing(reply: Reply)                             // up to here
    | StopTask(worker: Worker)
    | Done(reply: Reply)

  datatype System = System(
    entries: seq<Entry>, tasks: map<string, nat>, ops: Option<nat>, running: int,
    startErrs: Errors, stopErrs: Errors, clients: map<nat, Client>)

  datatype Action =
    // the goroutines of an entry
    | BeginStart(id: nat)
    | StartReturns(id: nat, outcome: Outcome)
    | FinishStart(id: nat)
    | BeginStop(id: nat)
    | StopReturns(id: nat, outcome: Outcome)
    | FinishStop(id: nat)
    | ParentCancels(id: nat)
    // callers
    | StartCall(who: nat, name: string, nilTask: bool)
    | StopCall(who: nat, name: string)
    | StopAllCall(who: nat)
    | WaitCall(who: nat)
    | Acquire(who: nat)
    | InsertTask(who: nat)
    | Snapshot(who: nat, order: seq<string>)   // the order in which the map is traversed
    | AdvanceWorker(who: nat, k: nat)
    | WorkerTimesOut(who: nat, k: nat, error: TaskError)
    | JoinWorkers(who: nat)
    | JoinRuns(who: nat)
    | ReadStartErrs(who: nat)
    | ReadStopErrs(who: nat)
    | Release(who: nat)
    | AdvanceStop(who: nat)
    | StopTimesOut(who: nat)
    | ReadStopErr(who: nat)

  /** The entry is in the map. */
  predicate InMap(stage: StartStage) {
    stage.Spawned? || stage.InStart? || stage.Returned? || stage.Noted?
  }

  /** Its doneCh is closed. */
  predicate IsDone(stage: StartStage) {
    stage.DoneClosed? || stage.Exited?
  }

  predicate Unreturned(stage: StartStage) {
    stage.Spawned? || stage.InStart?
  }

  predicate StopHasReturned(stage: StopStage) {
    stage.StopReturned? || stage.StopNoted? || stage.StopErrSet? || stage.Signalled?
  }

  /** What the goroutine does next once Start has returned. */
  function NextStart(stage: StartStage): StartStage {
    match stage
    case Returned(outcome) => Noted(outcome)
    case Noted(outcome) => Removed(outcome)
    case Removed(outcome) => DoneClosed(outcome)
    case DoneClosed(outcome) => Exited(outcome)
    case _ => stage
  }

  function NextStop(stage: StopStage): StopStage {
    match stage
    case StopReturned(outcome) => StopNoted(outcome)
    case StopNoted(outcome) => StopErrSet(outcome)
    case StopErrSet(outcome) => Signalled(outcome)
    case _ => stage
  }

  function NextWorker(pc: WorkerPc): WorkerPc {
    match pc
    case Requesting => AwaitingStop
    case AwaitingStop => AwaitingDone
    case AwaitingDone => Removing
    case Removing => Finished
    case _ => pc
  }

  predicate IsClient(s: System, who: nat) {
    who in s.clients
  }

  /** The worker's next step does not block. */
  predicate WorkerReady(w: Worker, entries: seq<Entry>) {
    w.id < |entries| &&
    match w.pc
    case Requesting => true
    case AwaitingStop => entries[w.id].stop.Signalled?
    case AwaitingDone => IsDone(entries[w.id].start)
    case Removing => true
    case _ => false
  }

  predicate WorkersJoined(workers: seq<Worker>) {
    forall k :: 0 <= k < |workers| ==> workers[k].pc.Finished? || workers[k].pc.TimedOut?
  }

  ghost predicate Enabled(s: System, a: Action) {
    match a
    case BeginStart(id) => id < |s.entries| && s.entries[id].start.Spawned?
    case StartReturns(id, _) => id < |s.entries| && s.entries[id].start.InStart?
    case FinishStart(id) => id < |s.entries| && NextStart(s.entries[id].start) != s.entries[id].start
    case BeginStop(id) => id < |s.entries| && s.entries[id].stop.Requested?
    case StopReturns(id, _) => id < |s.entries| && s.entries[id].stop.InStop?
    case FinishStop(id) => id < |s.entries| && NextStop(s.entries[id].stop) != s.entries[id].stop
    case ParentCancels(id) => id < |s.entries| && !s.entries[id].parentDone
    case StartCall(who, _, _) => who !in s.clients
    case StopCall(who, _) => who !in s.clients
    case StopAllCall(who) => who !in s.clients
    case WaitCall(who) => who !in s.clients
    case Acquire(who) => IsClient(s, who) && s.clients[who].Locking? && s.ops.None?
    case InsertTask(who) =>
      IsClient(s, who) && s.clients[who].Inserting?
    case Snapshot(who, order) =>
      IsClient(s, who) && s.clients[who].Snapshotting?
      && Distinct(order) && forall name :: name in order <==> name in s.tasks
    case AdvanceWorker(who, k) =>
      IsClient(s, who) && s.clients[who].StoppingAll? && k < |s.clients[who].workers|
      && WorkerReady(s.clients[who].workers[k], s.entries)
    case WorkerTimesOut(who, k, _) =>
      IsClient(s, who) && s.clients[who].StoppingAll? && k < |s.clients[who].workers|
      && (s.clients[who].workers[k].pc.AwaitingStop? || s.clients[who].workers[k].pc.AwaitingDone?)
    case JoinWorkers(who) =>
      IsClient(s, who) && s.clients[who].StoppingAll? && WorkersJoined(s.clients[who].workers)
    case JoinRuns(who) => IsClient(s, who) && s.clients[who].Waiting? && s.running == 0
    case ReadStartErrs(who) => IsClient(s, who) && s.clients[who].Reading?
    case ReadStopErrs(who) => IsClient(s, who) && s.clients[who].ReadingStop?
    case Release(who) => IsClient(s, who) && s.clients[who].Releasing?
    case AdvanceStop(who) =>
      IsClient(s, who) && s.clients[who].StopTask? && WorkerReady(s.clients[who].worker, s.entries)
    case StopTimesOut(who) =>
      IsClient(s, who) && s.clients[who].StopTask?
      && (s.clients[who].worker.pc.AwaitingStop? || s.clients[who].worker.pc.AwaitingDone?)
    case ReadStopErr(who) =>
      IsClient(s, who) && s.clients[who].StopTask? && s.clients[who].worker.pc.Finished?
      && s.clients[who].worker.id < |s.entries|
  }

  /** requestStop: only the first request of an entry spawns the goroutine. */
  function RequestStop(entry: Entry): Entry {
    if entry.stop.NotRequested? then entry.(stop := Requested) else entry
  }

  /** What a worker's step does to the entries and to the map. */
  function WorkerEntries(w: Worker, entries: seq<Entry>): seq<Entry>
    requires w.id < |entries|
  {
    if w.pc == Requesting then entries[w.id := RequestStop(entries[w.id])] else entries
  }

  function WorkerTasks(w: Worker, tasks: map<string, nat>): map<string, nat> {
    if w.pc == Removing then RemoveIfSame(tasks, w.name, w.id) else tasks
  }

  /** One worker for each entry of the map. */
  function WorkersFor(tasks: map<string, nat>, order: seq<string>): (workers: seq<Worker>)
    requires forall name :: name in order ==> name in tasks
    ensures |workers| == |order|
    ensures forall k :: 0 <= k < |order| ==> workers[k] == Worker(order[k], tasks[order[k]], Requesting)
  {
    seq(|order|, k requires 0 <= k < |order| => Worker(order[k], tasks[order[k]], Requesting))
  }

  function SetClient(s: System, who: nat, client: Client): System {
    s.(clients := s.clients[who := client])
  }

  function SetEntry(s: System, id: nat, entry: Entry): System
    requires id < |s.entries|
  {
    s.(entries := s.entries[id := entry])
  }

  /** The lock region of StartTask for a caller that holds opsMu. */
  function InsertEntry(s: System, who: nat, name: string): System {
    var open := name in s.tasks && s.tasks[name] < |s.entries| && !IsDone(s.entries[s.tasks[name]].start);
    var id := |s.entries|;
    match Insert(s.tasks, name, id, open)
    case None => SetClient(s, who, Releasing(AlreadyExists))
    case Some(tasks) =>
      SetClient(s, who, Releasing(Started(id)))
      .(tasks := tasks, running := s.running + 1,
        entries := s.entries + [Entry(name, Spawned, NotRequested, 0, [], false)])
  }

  /** The next step of a Start goroutine after its Start has returned. */
  function FinishStarting(s: System, id: nat): System
    requires id < |s.entries|
  {
    var e := s.entries[id];
    var s' := SetEntry(s, id, e.(start := NextStart(e.start)));
    match e.start
    case Returned(outcome) => s'.(startErrs := s.startErrs + StartFailureOf(outcome))
    case Noted(_) => s'.(tasks := RemoveIfSame(s.tasks, e.name, id))
    case DoneClosed(_) => s'.(running := s.running - 1)
    case _ => s'
  }

  /** The next step of a Stop goroutine after its Stop has returned. */
  function FinishStopping(s: System, id: nat): System
    requires id < |s.entries|
  {
    var e := s.entries[id];
    var e' := e.(stop := NextStop(e.stop));
    match e.stop
    case StopReturned(outcome) => SetEntry(s, id, e').(stopErrs := s.stopErrs + FailureOf(outcome))
    case StopNoted(outcome) => SetEntry(s, id, e'.(stopErr := FailureOf(outcome)))
    case _ => SetEntry(s, id, e')
  }

  /** What a caller does once it holds opsMu. */
  function Holder(op: Op): Client {
    match op
    case StartOp(name) => Inserting(name)
    case StopAllOp => Snapshotting
    case WaitOp => Waiting
  }

  function MoveWorker(client: Client, k: nat, pc: WorkerPc, errs: Errors): Client
    requires client.StoppingAll? && k < |client.workers|
  {
    StoppingAll(client.workers[k := client.workers[k].(pc := pc)], client.own + errs)
  }

  ghost function Do(s: System, a: Action): System
    requires Enabled(s, a)
  {
    match a
    case BeginStart(id) => SetEntry(s, id, s.entries[id].(start := InStart))
    case StartReturns(id, outcome) => SetEntry(s, id, s.entries[id].(start := Returned(outcome)))
    case FinishStart(id) => FinishStarting(s, id)
    case BeginStop(id) => SetEntry(s, id, s.entries[id].(stop := InStop, stopCalls := s.entries[id].stopCalls + 1))
    case StopReturns(id, outcome) => SetEntry(s, id, s.entries[id].(stop := StopReturned(outcome)))
    case FinishStop(id) => FinishStopping(s, id)
    case ParentCancels(id) => SetEntry(s, id, s.entries[id].(parentDone := true))
    case StartCall(who, name, nilTask) =>
      SetClient(s, who, if nilTask then Done(TaskIsNil) else if name == "" then Done(NameIsEmpty)
                        else Locking(StartOp(name)))
    case StopCall(who, name) =>
      SetClient(s, who, if name in s.tasks then StopTask(Worker(name, s.tasks[name], Requesting)) else Done(NotFound))
    case StopAllCall(who) => SetClient(s, who, Locking(StopAllOp))
    case WaitCall(who) => SetClient(s, who, Locking(WaitOp))
    case Acquire(who) => SetClient(s, who, Holder(s.clients[who].op)).(ops := Some(who))
    case InsertTask(who) => InsertEntry(s, who, s.clients[who].name)
    case Snapshot(who, order) => SetClient(s, who, StoppingAll(WorkersFor(s.tasks, order), []))
    case AdvanceWorker(who, k) =>
      var w := s.clients[who].workers[k];
      SetClient(s, who, MoveWorker(s.clients[who], k, NextWorker(w.pc), []))
      .(entries := WorkerEntries(w, s.entries), tasks := WorkerTasks(w, s.tasks))
    case WorkerTimesOut(who, k, error) => SetClient(s, who, MoveWorker(s.clients[who], k, TimedOut, [error]))
    case JoinWorkers(who) => SetClient(s, who, Reading(StopAllOp, s.clients[who].workers, s.clients[who].own))
    case JoinRuns(who) => SetClient(s, who, Reading(WaitOp, [], []))
    case ReadStartErrs(who) =>
      var c := s.clients[who];
      SetClient(s, who, ReadingStop(c.op, c.workers, c.own, s.startErrs))
    case ReadStopErrs(who) =>
      var c := s.clients[who];
      SetClient(s, who, Releasing(Joined(c.op, c.own, c.startErrs, s.stopErrs)))
    case Release(who) => SetClient(s, who, Done(s.clients[who].reply)).(ops := None)
    case AdvanceStop(who) =>
      var w := s.clients[who].worker;
      SetClient(s, who, StopTask(w.(pc := NextWorker(w.pc))))
      .(entries := WorkerEntries(w, s.entries), tasks := WorkerTasks(w, s.tasks))
    case StopTimesOut(who) => SetClient(s, who, Done(ContextError))
    case ReadStopErr(who) =>
      var w := s.clients[who].worker;
      SetClient(s, who, Done(Stopped(w.name, w.id, s.entries[w.id].stopErr)))
  }

  ghost function Step(s: System, a: Action): System {
    if Enabled(s, a) then Do(s, a) else s
  }

  function Initially(): System {
    System([], map[], None, 0, [], [], map[])
  }

  ghost function After(run: seq<Action>): System {
    if run == [] then Initially() else Step(After(run[..|run| - 1]), run[|run| - 1])
  }

  // ------------------------------------------------------------------ invariants

  /** The map holds exactly the entries whose Start goroutine has not removed them. */
  ghost predicate MapInv(entries: seq<Entry>, tasks: map<string, nat>) {
    && (forall name :: name in tasks ==>
         tasks[name] < |entries| && entries[tasks[name]].name == name && InMap(entries[tasks[name]].start))
    && (forall id :: 0 <= id < |entries| && InMap(entries[id].start) ==>
         entries[id].name in tasks && tasks[entries[id].name] == id)
  }

  /** Stop is called once, and its error is kept until it is signalled. */
  predicate EntryInv(e: Entry) {
    && e.stopCalls == (if e.stop.NotRequested? || e.stop.Requested? then 0 else 1)
    && e.stopErr == (if e.stop.StopErrSet? || e.stop.Signalled? then FailureOf(e.stop.outcome) else [])
  }

  ghost predicate EntriesInv(entries: seq<Entry>) {
    forall id :: 0 <= id < |entries| ==> EntryInv(entries[id])
  }

  /** What one entry has contributed to the wait group and to the manager's errors. */
  function Runs(e: Entry): nat {
    if e.start.Exited? then 0 else 1
  }

  function StartFailure(e: Entry): Errors {
    if Unreturned(e.start) || e.start.Returned? then [] else StartFailureOf(e.start.outcome)
  }

  function StopFailure(e: Entry): Errors {
    if StopHasReturned(e.stop) && !e.stop.StopReturned? then FailureOf(e.stop.outcome) else []
  }

  function Sum(counts: seq<nat>): nat {
    if counts == [] then 0 else Sum(counts[..|counts| - 1]) + counts[|counts| - 1]
  }

  /** What all entries together have contributed. */
  function AllRuns(entries: seq<Entry>): nat {
    Sum(RunsOf(entries))
  }

  function RunsOf(entries: seq<Entry>): seq<nat> {
    seq(|entries|, id requires 0 <= id < |entries| => Runs(entries[id]))
  }

  function AllStartFailures(entries: seq<Entry>): multiset<TaskError> {
    Union(StartFailures(entries))
  }

  function StartFailures(entries: seq<Entry>): seq<Errors> {
    seq(|entries|, id requires 0 <= id < |entries| => StartFailure(entries[id]))
  }

  function AllStopFailures(entries: seq<Entry>): multiset<TaskError> {
    Union(StopFailures(entries))
  }

  function StopFailures(entries: seq<Entry>): seq<Errors> {
    seq(|entries|, id requires 0 <= id < |entries| => StopFailure(entries[id]))
  }

  /** The wait group counts the goroutines; the manager's errors are their failures, each once. */
  predicate AccountInv(entries: seq<Entry>, running: int, startErrs: Errors, stopErrs: Errors) {
    && running == AllRuns(entries)
    && multiset(startErrs) == AllStartFailures(entries)
    && multiset(stopErrs) == AllStopFailures(entries)
  }

  predicate Balanced(s: System) {
    AccountInv(s.entries, s.running, s.startErrs, s.stopErrs)
  }

  /** The caller is in opsMu's critical section. */
  predicate Holding(c: Client) {
    !(c.Locking? || c.StopTask? || c.Done?)
  }

  ghost predicate OpsInv(ops: Option<nat>, clients: map<nat, Client>) {
    && (forall who :: who in clients && Holding(clients[who]) ==> ops == Some(who))
    && (ops.Some? ==> ops.value in clients && Holding(clients[ops.value]))
  }

  predicate WorkerInv(w: Worker, entries: seq<Entry>) {
    && w.id < |entries| && entries[w.id].name == w.name
    && (!w.pc.Requesting? ==> !entries[w.id].stop.NotRequested?)
    && (w.pc.AwaitingDone? || w.pc.Removing? || w.pc.Finished? ==> entries[w.id].stop.Signalled?)
    && (w.pc.Removing? || w.pc.Finished? ==> IsDone(entries[w.id].start))
  }

  ghost predicate WorkersInv(workers: seq<Worker>, own: Errors, entries: seq<Entry>) {
    && (forall k :: 0 <= k < |workers| ==> WorkerInv(workers[k], entries))
    && (own == [] ==> forall k :: 0 <= k < |workers| ==> !workers[k].pc.TimedOut?)
  }

  predicate HasWorker(workers: seq<Worker>, name: string, id: nat) {
    exists k :: 0 <= k < |workers| && workers[k].name == name && workers[k].id == id
  }

  ghost predicate Covered(tasks: map<string, nat>, workers: seq<Worker>) {
    forall name :: name in tasks ==> HasWorker(workers, name, tasks[name])
  }

  ghost predicate AllExited(entries: seq<Entry>) {
    forall id :: 0 <= id < |entries| ==> entries[id].start.Exited?
  }

  /** StopAll has stopped everything in time, or Wait has waited for everything. */
  ghost predicate JoinedInv(op: Op, own: Errors, entries: seq<Entry>, tasks: map<string, nat>) {
    && (own == [] ==> tasks == map[])
    && (op == WaitOp ==> own == [] && AllExited(entries))
  }

  ghost predicate ReplyInv(reply: Reply, entries: seq<Entry>, tasks: map<string, nat>, startErrs: Errors) {
    match reply
    case Joined(op, own, errs, _) => JoinedInv(op, own, entries, tasks) && (own == [] ==> errs == startErrs)
    case _ => !reply.Stopped?
  }

  ghost predicate ClientInv(c: Client, entries: seq<Entry>, tasks: map<string, nat>, startErrs: Errors) {
    match c
    case StoppingAll(workers, own) => WorkersInv(workers, own, entries) && Covered(tasks, workers)
    case Reading(op, workers, own) =>
      WorkersInv(workers, own, entries) && WorkersJoined(workers) && JoinedInv(op, own, entries, tasks)
    case ReadingStop(op, workers, own, errs) =>
      WorkersInv(workers, own, entries) && WorkersJoined(workers) && JoinedInv(op, own, entries, tasks)
      && (own == [] ==> errs == startErrs)
    case Releasing(reply) => ReplyInv(reply, entries, tasks, startErrs)
    case StopTask(w) => WorkerInv(w, entries) && !w.pc.TimedOut?
    case Done(Stopped(name, id, errors)) =>
      id < |entries| && entries[id].name == name && entries[id].stop.Signalled? && IsDone(entries[id].start)
      && errors == entries[id].stopErr
    case _ => true
  }

  ghost predicate ClientsInv(clients: map<nat, Client>, entries: seq<Entry>, tasks: map<string, nat>,
                             startErrs: Errors) {
    forall who :: who in clients ==> ClientInv(clients[who], entries, tasks, startErrs)
  }

  ghost predicate Inv(s: System) {
    && MapInv(s.entries, s.tasks)
    && EntriesInv(s.entries)
    && OpsInv(s.ops, s.clients)
    && ClientsInv(s.clients, s.entries, s.tasks, s.startErrs)
  }

  // -------------------------------------------------------- how entries move on

  function StartRank(stage: StartStage): nat {
    match stage
    case Spawned => 0
    case InStart => 1
    case Returned(_) => 2
    case Noted(_) => 3
    case Removed(_) => 4
    case DoneClosed(_) => 5
    case Exited(_) => 6
  }

  /** Nothing about an entry is undone. */
  predicate Advances(e: Entry, e': Entry) {
    && e'.name == e.name
    && StartRank(e.start) <= StartRank(e'.start)
    && (!e.stop.NotRequested? ==> !e'.stop.NotRequested?)
    && (e.stop.Signalled? ==> e'.stop == e.stop && e'.stopErr == e.stopErr)
  }

  ghost predicate AllAdvance(entries: seq<Entry>, entries': seq<Entry>) {
    |entries| == |entries'| && forall id :: 0 <= id < |entries| ==> Advances(entries[id], entries'[id])
  }

  ghost predicate Shrinks(tasks: map<string, nat>, tasks': map<string, nat>) {
    forall name :: name in tasks' ==> name in tasks && tasks'[name] == tasks[name]
  }

  lemma ClientKept(c: Client, entries: seq<Entry>, tasks: map<string, nat>, errs: Errors,
                   entries': seq<Entry>, tasks': map<string, nat>, errs': Errors)
    requires ClientInv(c, entries, tasks, errs)
    requires AllAdvance(entries, entries') && Shrinks(tasks, tasks')
    requires errs' == errs || tasks != map[]
    ensures ClientInv(c, entries', tasks', errs')
  {
    if tasks == map[] { assert tasks' == map[]; }
    match c {
      case StoppingAll(workers, own) => WorkersKept(workers, own, entries, entries');
      case Reading(_, workers, own) => WorkersKept(workers, own, entries, entries');
      case ReadingStop(_, workers, own, _) => WorkersKept(workers, own, entries, entries');
      case _ =>
    }
  }

  lemma WorkersKept(workers: seq<Worker>, own: Errors, entries: seq<Entry>, entries': seq<Entry>)
    requires WorkersInv(workers, own, entries) && AllAdvance(entries, entries')
    ensures WorkersInv(workers, own, entries')
  {
  }

  lemma ClientsKept(clients: map<nat, Client>, entries: seq<Entry>, tasks: map<string, nat>, errs: Errors,
                    entries': seq<Entry>, tasks': map<string, nat>, errs': Errors)
    requires ClientsInv(clients, entries, tasks, errs)
    requires AllAdvance(entries, entries') && Shrinks(tasks, tasks')
    requires errs' == errs || tasks != map[]
    ensures ClientsInv(clients, entries', tasks', errs')
  {
    forall who | who in clients ensures ClientInv(clients[who], entries', tasks', errs') {
      ClientKept(clients[who], entries, tasks, errs, entries', tasks', errs');
    }
  }

  // ------------------------------------------------------------- the accounts

  lemma {:induction false} SumUpdated(counts: seq<nat>, i: nat, n: nat)
    requires i < |counts|
    ensures Sum(counts[i := n]) == Sum(counts) - counts[i] + n
  {
    var k := |counts| - 1;
    if i == k {
      assert counts[i := n][..k] == counts[..k];
    } else {
      SumUpdated(counts[..k], i, n);
      assert counts[i := n][..k] == counts[..k][i := n];
    }
  }

  lemma SumSnoc(counts: seq<nat>, n: nat)
    ensures Sum(counts + [n]) == Sum(counts) + n
  {
    assert (counts + [n])[..|counts|] == counts;
  }

  lemma RunsUpdated(entries: seq<Entry>, id: nat, e: Entry)
    requires id < |entries|
    ensures AllRuns(entries[id := e]) == AllRuns(entries) - Runs(entries[id]) + Runs(e)
  {
    SumUpdated(RunsOf(entries), id, Runs(e));
    assert RunsOf(entries[id := e]) == RunsOf(entries)[id := Runs(e)];
  }

  lemma StartFailuresUpdated(entries: seq<Entry>, id: nat, e: Entry, errs: Errors, more: Errors)
    requires id < |entries| && multiset(errs) == AllStartFailures(entries)
    requires Adds(StartFailure(entries[id]), StartFailure(e), more)
    ensures multiset(errs + more) == AllStartFailures(entries[id := e])
  {
    UnionUpdated(StartFailures(entries), id, StartFailure(e), more);
    assert StartFailures(entries[id := e]) == StartFailures(entries)[id := StartFailure(e)];
  }

  lemma StopFailuresUpdated(entries: seq<Entry>, id: nat, e: Entry, errs: Errors, more: Errors)
    requires id < |entries| && multiset(errs) == AllStopFailures(entries)
    requires Adds(StopFailure(entries[id]), StopFailure(e), more)
    ensures multiset(errs + more) == AllStopFailures(entries[id := e])
  {
    UnionUpdated(StopFailures(entries), id, StopFailure(e), more);
    assert StopFailures(entries[id := e]) == StopFailures(entries)[id := StopFailure(e)];
  }

  lemma AccountUpdated(entries: seq<Entry>, id: nat, e: Entry, running: int, startErrs: Errors, stopErrs: Errors,
                       moreStart: Errors, moreStop: Errors)
    requires id < |entries| && AccountInv(entries, running, startErrs, stopErrs)
    requires Adds(StartFailure(entries[id]), StartFailure(e), moreStart)
    requires Adds(StopFailure(entries[id]), StopFailure(e), moreStop)
    ensures AccountInv(entries[id := e], running - Runs(entries[id]) + Runs(e),
                       startErrs + moreStart, stopErrs + moreStop)
  {
    RunsUpdated(entries, id, e);
    StartFailuresUpdated(entries, id, e, startErrs, moreStart);
    StopFailuresUpdated(entries, id, e, stopErrs, moreStop);
  }

  lemma AccountUnchanged(entries: seq<Entry>, id: nat, e: Entry, running: int, startErrs: Errors, stopErrs: Errors)
    requires id < |entries| && AccountInv(entries, running, startErrs, stopErrs)
    requires StartFailure(e) == StartFailure(entries[id]) && StopFailure(e) == StopFailure(entries[id])
    ensures AccountInv(entries[id := e], running - Runs(entries[id]) + Runs(e), startErrs, stopErrs)
  {
    AccountUpdated(entries, id, e, running, startErrs, stopErrs, [], []);
    NothingMore(startErrs);
    NothingMore(stopErrs);
  }

  lemma NothingMore(errs: Errors)
    ensures errs + [] == errs
  {
  }

  /** Nobody is left running when the wait group is down to zero. */
  lemma NobodyRuns(entries: seq<Entry>)
    requires AllRuns(entries) == 0
    ensures AllExited(entries)
  {
    forall id | 0 <= id < |entries| ensures entries[id].start.Exited? {
      SumBound(RunsOf(entries), id);
    }
  }

  lemma {:induction false} SumBound(counts: seq<nat>, i: nat)
    requires i < |counts|
    ensures counts[i] <= Sum(counts)
  {
    if i < |counts| - 1 {
      SumBound(counts[..|counts| - 1], i);
    }
  }

  // ------------------------------------------------------------ entries' steps

  predicate StartAction(a: Action) {
    a.BeginStart? || a.StartReturns? || a.FinishStart? || a.ParentCancels?
  }

  predicate StopAction(a: Action) {
    a.BeginStop? || a.StopReturns? || a.FinishStop?
  }

  lemma EntryAdvances(entries: seq<Entry>, id: nat, e: Entry)
    requires id < |entries| && Advances(entries[id], e)
    ensures AllAdvance(entries, entries[id := e])
  {
  }

  /** An entry that stays on its side of removal leaves the map as it is. */
  lemma MapKept(entries: seq<Entry>, tasks: map<string, nat>, id: nat, e: Entry)
    requires MapInv(entries, tasks) && id < |entries|
    requires e.name == entries[id].name && (InMap(e.start) <==> InMap(entries[id].start))
    ensures MapInv(entries[id := e], tasks)
  {
  }

  /** An entry that is removed was in the map, and nothing else is removed with it. */
  lemma MapRemoved(entries: seq<Entry>, tasks: map<string, nat>, id: nat, e: Entry)
    requires MapInv(entries, tasks) && id < |entries|
    requires e.name == entries[id].name && InMap(entries[id].start) && !InMap(e.start)
    ensures tasks[e.name := id] == tasks
    ensures RemoveIfSame(tasks, e.name, id) == tasks - {e.name}
    ensures MapInv(entries[id := e], tasks - {e.name})
  {
  }

  /** One entry moves on, with what that does to the map and to the start errors. */
  lemma EntryMoved(s: System, id: nat, e: Entry, tasks: map<string, nat>, startErrs: Errors)
    requires Inv(s) && id < |s.entries| && EntryInv(e) && Advances(s.entries[id], e)
    requires MapInv(s.entries[id := e], tasks) && Shrinks(s.tasks, tasks)
    requires startErrs == s.startErrs || s.tasks != map[]
    ensures MapInv(s.entries[id := e], tasks) && EntriesInv(s.entries[id := e])
    ensures OpsInv(s.ops, s.clients) && ClientsInv(s.clients, s.entries[id := e], tasks, startErrs)
  {
    EntryAdvances(s.entries, id, e);
    ClientsKept(s.clients, s.entries, s.tasks, s.startErrs, s.entries[id := e], tasks, startErrs);
  }

  /** An entry's step that does not touch the map. */
  lemma EntryStepInv(s: System, id: nat, e: Entry)
    requires Inv(s) && id < |s.entries| && EntryInv(e) && Advances(s.entries[id], e)
    requires InMap(e.start) <==> InMap(s.entries[id].start)
    ensures Inv(SetEntry(s, id, e))
  {
    MapKept(s.entries, s.tasks, id, e);
    EntryMoved(s, id, e, s.tasks, s.startErrs);
  }

  /** A failure is noted while its entry is still in the map. */
  lemma NoteStartInv(s: System, id: nat)
    requires Inv(s) && id < |s.entries| && s.entries[id].start.Returned?
    ensures Inv(FinishStarting(s, id))
  {
    var e := s.entries[id].(start := NextStart(s.entries[id].start));
    MapKept(s.entries, s.tasks, id, e);
    assert e.name in s.tasks;
    EntryMoved(s, id, e, s.tasks, FinishStarting(s, id).startErrs);
  }

  lemma RemoveInv(s: System, id: nat)
    requires Inv(s) && id < |s.entries| && s.entries[id].start.Noted?
    ensures Inv(FinishStarting(s, id))
  {
    var e := s.entries[id].(start := NextStart(s.entries[id].start));
    MapRemoved(s.entries, s.tasks, id, e);
    EntryMoved(s, id, e, s.tasks - {e.name}, s.startErrs);
  }

  lemma FinishStartInv(s: System, id: nat)
    requires Inv(s) && id < |s.entries| && NextStart(s.entries[id].start) != s.entries[id].start
    ensures Inv(FinishStarting(s, id))
  {
    if s.entries[id].start.Returned? {
      NoteStartInv(s, id);
    } else if s.entries[id].start.Noted? {
      RemoveInv(s, id);
    } else {
      EntryStepInv(s, id, s.entries[id].(start := NextStart(s.entries[id].start)));
    }
  }

  lemma StartStepInv(s: System, a: Action)
    requires Inv(s) && Enabled(s, a) && StartAction(a)
    ensures Inv(Step(s, a))
  {
    match a {
      case BeginStart(id) => EntryStepInv(s, id, s.entries[id].(start := InStart));
      case StartReturns(id, outcome) => EntryStepInv(s, id, s.entries[id].(start := Returned(outcome)));
      case FinishStart(id) => FinishStartInv(s, id);
      case ParentCancels(id) => EntryStepInv(s, id, s.entries[id].(parentDone := true));
    }
  }

  lemma FinishStopInv(s: System, id: nat)
    requires Inv(s) && id < |s.entries| && NextStop(s.entries[id].stop) != s.entries[id].stop
    ensures Inv(FinishStopping(s, id))
  {
    EntryStepInv(s, id, FinishStopping(s, id).entries[id]);
  }

  lemma StopStepInv(s: System, a: Action)
    requires Inv(s) && Enabled(s, a) && StopAction(a)
    ensures Inv(Step(s, a))
  {
    match a {
      case BeginStop(id) =>
        EntryStepInv(s, id, s.entries[id].(stop := InStop, stopCalls := s.entries[id].stopCalls + 1));
      case StopReturns(id, outcome) => EntryStepInv(s, id, s.entries[id].(stop := StopReturned(outcome)));
      case FinishStop(id) => FinishStopInv(s, id);
    }
  }

  // ------------------------------------------------------------ callers' steps

  /** A caller's step that changes nothing but its own state, on the same side of opsMu. */
  lemma ClientMoves(s: System, who: nat, c: Client)
    requires Inv(s) && ClientInv(c, s.entries, s.tasks, s.startErrs)
    requires Holding(c) <==> who in s.clients && Holding(s.clients[who])
    ensures Inv(SetClient(s, who, c))
  {
  }

  lemma AcquireInv(s: System, who: nat, c: Client)
    requires Inv(s) && s.ops.None? && ClientInv(c, s.entries, s.tasks, s.startErrs) && Holding(c)
    ensures Inv(SetClient(s, who, c).(ops := Some(who)))
  {
  }

  lemma ReleaseInv(s: System, who: nat)
    requires Inv(s) && who in s.clients && s.clients[who].Releasing?
    ensures Inv(SetClient(s, who, Done(s.clients[who].reply)).(ops := None))
  {
  }

  /** By the time a stopper removes its entry, the entry's own goroutine has removed it. */
  lemma StopperRemovesNothing(w: Worker, entries: seq<Entry>, tasks: map<string, nat>)
    requires MapInv(entries, tasks) && WorkerInv(w, entries)
    ensures WorkerTasks(w, tasks) == tasks
  {
  }

  lemma WorkerAdvances(w: Worker, entries: seq<Entry>)
    requires WorkerInv(w, entries) && WorkerReady(w, entries)
    ensures WorkerInv(w.(pc := NextWorker(w.pc)), WorkerEntries(w, entries))
    ensures AllAdvance(entries, WorkerEntries(w, entries))
  {
  }

  lemma WorkerEntriesInv(s: System, w: Worker)
    requires Inv(s) && w.id < |s.entries|
    ensures Inv(s.(entries := WorkerEntries(w, s.entries)))
  {
    if w.pc == Requesting {
      EntryStepInv(s, w.id, RequestStop(s.entries[w.id]));
    }
  }

  lemma AdvanceStopInv(s: System, who: nat)
    requires Inv(s) && who in s.clients && s.clients[who].StopTask?
    requires WorkerReady(s.clients[who].worker, s.entries)
    ensures Inv(Step(s, AdvanceStop(who)))
  {
    var w := s.clients[who].worker;
    var s' := s.(entries := WorkerEntries(w, s.entries));
    assert ClientInv(s.clients[who], s.entries, s.tasks, s.startErrs);
    StopperRemovesNothing(w, s.entries, s.tasks);
    WorkerEntriesInv(s, w);
    WorkerAdvances(w, s.entries);
    ClientMoves(s', who, StopTask(w.(pc := NextWorker(w.pc))));
  }

  /** One worker of StopAll changes its place. */
  lemma WorkerMoved(c: Client, k: nat, pc: WorkerPc, errs: Errors, entries: seq<Entry>, tasks: map<string, nat>,
                    startErrs: Errors)
    requires c.StoppingAll? && k < |c.workers| && ClientInv(c, entries, tasks, startErrs)
    requires WorkerInv(c.workers[k].(pc := pc), entries) && (pc.TimedOut? ==> errs != [])
    ensures ClientInv(MoveWorker(c, k, pc, errs), entries, tasks, startErrs)
  {
    var workers := MoveWorker(c, k, pc, errs).workers;
    forall name | name in tasks ensures HasWorker(workers, name, tasks[name]) {
      assert HasWorker(c.workers, name, tasks[name]);
      var i :| 0 <= i < |c.workers| && c.workers[i].name == name && c.workers[i].id == tasks[name];
      assert workers[i].name == name && workers[i].id == tasks[name];
    }
  }

  lemma AdvanceWorkerInv(s: System, who: nat, k: nat)
    requires Inv(s) && who in s.clients && s.clients[who].StoppingAll? && k < |s.clients[who].workers|
    requires WorkerReady(s.clients[who].workers[k], s.entries)
    ensures Inv(Step(s, AdvanceWorker(who, k)))
  {
    var c := s.clients[who];
    var w := c.workers[k];
    var s' := s.(entries := WorkerEntries(w, s.entries));
    assert ClientInv(c, s.entries, s.tasks, s.startErrs);
    StopperRemovesNothing(w, s.entries, s.tasks);
    WorkerEntriesInv(s, w);
    WorkerAdvances(w, s.entries);
    WorkerMoved(c, k, NextWorker(w.pc), [], s'.entries, s.tasks, s.startErrs);
    ClientMoves(s', who, MoveWorker(c, k, NextWorker(w.pc), []));
  }

  lemma WorkerTimesOutInv(s: System, who: nat, k: nat, error: TaskError)
    requires Inv(s) && who in s.clients && s.clients[who].StoppingAll? && k < |s.clients[who].workers|
    requires s.clients[who].workers[k].pc.AwaitingStop? || s.clients[who].workers[k].pc.AwaitingDone?
    ensures Inv(SetClient(s, who, MoveWorker(s.clients[who], k, TimedOut, [error])))
  {
    var c := s.clients[who];
    assert ClientInv(c, s.entries, s.tasks, s.startErrs);
    WorkerMoved(c, k, TimedOut, [error], s.entries, s.tasks, s.startErrs);
    ClientMoves(s, who, MoveWorker(c, k, TimedOut, [error]));
  }

  lemma SnapshotInv(s: System, who: nat, order: seq<string>)
    requires Inv(s) && who in s.clients && s.clients[who].Snapshotting?
    requires forall name :: name in order <==> name in s.tasks
    ensures Inv(SetClient(s, who, StoppingAll(WorkersFor(s.tasks, order), [])))
  {
    var workers := WorkersFor(s.tasks, order);
    forall name | name in s.tasks ensures HasWorker(workers, name, s.tasks[name]) {
      var k :| 0 <= k < |order| && order[k] == name;
      assert workers[k].name == name && workers[k].id == s.tasks[name];
    }
    ClientMoves(s, who, StoppingAll(workers, []));
  }

  /** When no worker has timed out, everything that was in the map has left it. */
  lemma NothingLeft(entries: seq<Entry>, tasks: map<string, nat>, workers: seq<Worker>)
    requires MapInv(entries, tasks) && WorkersInv(workers, [], entries) && WorkersJoined(workers)
    requires Covered(tasks, workers)
    ensures tasks == map[]
  {
  }

  lemma JoinWorkersInv(s: System, who: nat)
    requires Inv(s) && who in s.clients && s.clients[who].StoppingAll? && WorkersJoined(s.clients[who].workers)
    ensures Inv(SetClient(s, who, Reading(StopAllOp, s.clients[who].workers, s.clients[who].own)))
  {
    var c := s.clients[who];
    assert ClientInv(c, s.entries, s.tasks, s.startErrs);
    if c.own == [] { NothingLeft(s.entries, s.tasks, c.workers); }
    ClientMoves(s, who, Reading(StopAllOp, c.workers, c.own));
  }

  lemma JoinRunsInv(s: System, who: nat)
    requires Inv(s) && who in s.clients && s.clients[who].Waiting? && AllExited(s.entries)
    ensures Inv(SetClient(s, who, Reading(WaitOp, [], [])))
  {
    assert s.tasks == map[];
    ClientMoves(s, who, Reading(WaitOp, [], []));
  }

  lemma InsertMap(entries: seq<Entry>, tasks: map<string, nat>, e: Entry)
    requires MapInv(entries, tasks) && e.name !in tasks && InMap(e.start)
    ensures MapInv(entries + [e], tasks[e.name := |entries|])
  {
  }

  /** A caller outside opsMu does not notice an insertion. */
  lemma InsertKeeps(c: Client, entries: seq<Entry>, e: Entry, tasks: map<string, nat>, tasks': map<string, nat>,
                    errs: Errors)
    requires ClientInv(c, entries, tasks, errs) && !Holding(c)
    ensures ClientInv(c, entries + [e], tasks', errs)
  {
  }

  lemma InsertInv(s: System, who: nat)
    requires Inv(s) && who in s.clients && s.clients[who].Inserting?
    ensures Inv(InsertEntry(s, who, s.clients[who].name))
  {
    var name := s.clients[who].name;
    if name in s.tasks {
      ClientMoves(s, who, Releasing(AlreadyExists));
    } else {
      var e := Entry(name, Spawned, NotRequested, 0, [], false);
      var s' := InsertEntry(s, who, name);
      InsertMap(s.entries, s.tasks, e);
      forall w | w in s'.clients ensures ClientInv(s'.clients[w], s'.entries, s'.tasks, s'.startErrs) {
        if w != who { InsertKeeps(s.clients[w], s.entries, e, s.tasks, s'.tasks, s.startErrs); }
      }
    }
  }

  /** The callers' steps outside opsMu. */
  predicate FreeAction(a: Action) {
    a.StartCall? || a.StopCall? || a.StopAllCall? || a.WaitCall? || a.AdvanceStop? || a.StopTimesOut?
    || a.ReadStopErr?
  }

  lemma FreeStepInv(s: System, a: Action)
    requires Inv(s) && Enabled(s, a) && FreeAction(a)
    ensures Inv(Step(s, a))
  {
    match a {
      case AdvanceStop(who) => AdvanceStopInv(s, who);
      case StopTimesOut(who) => ClientMoves(s, who, Done(ContextError));
      case ReadStopErr(who) =>
        var w := s.clients[who].worker;
        ClientMoves(s, who, Done(Stopped(w.name, w.id, s.entries[w.id].stopErr)));
      case StartCall(who, _, _) => ClientMoves(s, who, Step(s, a).clients[who]);
      case StopCall(who, _) => ClientMoves(s, who, Step(s, a).clients[who]);
      case StopAllCall(who) => ClientMoves(s, who, Locking(StopAllOp));
      case WaitCall(who) => ClientMoves(s, who, Locking(WaitOp));
    }
  }

  lemma HolderStepInv(s: System, a: Action)
    requires Inv(s) && Enabled(s, a) && !FreeAction(a) && !StartAction(a) && !StopAction(a)
    requires a.JoinRuns? ==> AllExited(s.entries)
    ensures Inv(Step(s, a))
  {
    match a {
      case Acquire(who) => AcquireInv(s, who, Holder(s.clients[who].op));
      case InsertTask(who) => InsertInv(s, who);
      case Snapshot(who, order) => SnapshotInv(s, who, order);
      case AdvanceWorker(who, k) => AdvanceWorkerInv(s, who, k);
      case WorkerTimesOut(who, k, error) => WorkerTimesOutInv(s, who, k, error);
      case JoinWorkers(who) => JoinWorkersInv(s, who);
      case JoinRuns(who) => JoinRunsInv(s, who);
      case ReadStartErrs(who) =>
        var c := s.clients[who];
        ClientMoves(s, who, ReadingStop(c.op, c.workers, c.own, s.startErrs));
      case ReadStopErrs(who) =>
        var c := s.clients[who];
        ClientMoves(s, who, Releasing(Joined(c.op, c.own, c.startErrs, s.stopErrs)));
      case Release(who) => ReleaseInv(s, who);
    }
  }

  // ---------------------------------------------------------- accounts of a step

  lemma EntryUnaccounted(s: System, id: nat, e: Entry)
    requires Balanced(s) && id < |s.entries| && SameAccount(s.entries[id], e)
    ensures Balanced(SetEntry(s, id, e))
  {
    AccountUnchanged(s.entries, id, e, s.running, s.startErrs, s.stopErrs);
  }

  predicate SameAccount(e: Entry, e': Entry) {
    Runs(e') == Runs(e) && StartFailure(e') == StartFailure(e) && StopFailure(e') == StopFailure(e)
  }

  /** A Start that begins or returns is not accounted for yet. */
  lemma StartUnaccounted(e: Entry, start: StartStage)
    requires Unreturned(e.start) && (start.InStart? || start.Returned?)
    ensures SameAccount(e, e.(start := start))
  {
  }

  lemma StopUnaccounted(e: Entry, stop: StopStage, calls: nat)
    requires !StopHasReturned(e.stop) && (!StopHasReturned(stop) || stop.StopReturned?)
    ensures SameAccount(e, e.(stop := stop, stopCalls := calls))
  {
  }

  /** What the next step of the entry's Start, or of its Stop, adds to the manager's errors. */
  function NotedStart(e: Entry): Errors {
    if e.start.Returned? then StartFailureOf(e.start.outcome) else []
  }

  function NotedStop(e: Entry): Errors {
    if e.stop.StopReturned? then FailureOf(e.stop.outcome) else []
  }

  lemma FinishStartFacts(e: Entry)
    ensures var e' := e.(start := NextStart(e.start));
      Adds(StartFailure(e), StartFailure(e'), NotedStart(e))
      && StopFailure(e') == StopFailure(e)
      && Runs(e) - Runs(e') == if e.start.DoneClosed? then 1 else 0
  {
  }

  lemma FinishStopFacts(e: Entry, stopErr: Errors)
    ensures var e' := e.(stop := NextStop(e.stop), stopErr := stopErr);
      Adds(StopFailure(e), StopFailure(e'), NotedStop(e))
      && StartFailure(e') == StartFailure(e) && Runs(e') == Runs(e)
  {
  }

  lemma FinishStartAccount(entries: seq<Entry>, id: nat, e: Entry, running: int, startErrs: Errors, stopErrs: Errors)
    requires id < |entries| && AccountInv(entries, running, startErrs, stopErrs) && e == entries[id]
    ensures AccountInv(entries[id := e.(start := NextStart(e.start))],
                       running - (if e.start.DoneClosed? then 1 else 0), startErrs + NotedStart(e), stopErrs)
  {
    FinishStartFacts(e);
    NothingMore(stopErrs);
    AccountUpdated(entries, id, e.(start := NextStart(e.start)), running, startErrs, stopErrs, NotedStart(e), []);
  }

  lemma FinishStopAccount(entries: seq<Entry>, id: nat, e: Entry, stopErr: Errors, running: int, startErrs: Errors,
                          stopErrs: Errors)
    requires id < |entries| && AccountInv(entries, running, startErrs, stopErrs) && e == entries[id]
    ensures AccountInv(entries[id := e.(stop := NextStop(e.stop), stopErr := stopErr)],
                       running, startErrs, stopErrs + NotedStop(e))
  {
    FinishStopFacts(e, stopErr);
    NothingMore(startErrs);
    AccountUpdated(entries, id, e.(stop := NextStop(e.stop), stopErr := stopErr), running, startErrs, stopErrs,
                   [], NotedStop(e));
  }

  /** What the last steps of an entry's goroutines make of the state. */
  lemma FinishStartingIs(s: System, id: nat)
    requires id < |s.entries|
    ensures var e, s' := s.entries[id], FinishStarting(s, id);
      && s'.entries == s.entries[id := e.(start := NextStart(e.start))]
      && s'.running == s.running - (if e.start.DoneClosed? then 1 else 0)
      && s'.startErrs == s.startErrs + NotedStart(e) && s'.stopErrs == s.stopErrs
  {
  }

  lemma FinishStoppingIs(s: System, id: nat)
    requires id < |s.entries|
    ensures var e, s' := s.entries[id], FinishStopping(s, id);
      && s'.entries == s.entries[id := e.(stop := NextStop(e.stop), stopErr := s'.entries[id].stopErr)]
      && s'.running == s.running && s'.startErrs == s.startErrs && s'.stopErrs == s.stopErrs + NotedStop(e)
  {
  }

  lemma FinishStartBalances(s: System, id: nat)
    requires Balanced(s) && id < |s.entries|
    ensures Balanced(FinishStarting(s, id))
  {
    FinishStartingIs(s, id);
    FinishStartAccount(s.entries, id, s.entries[id], s.running, s.startErrs, s.stopErrs);
  }

  lemma FinishStopBalances(s: System, id: nat)
    requires Balanced(s) && id < |s.entries|
    ensures Balanced(FinishStopping(s, id))
  {
    FinishStoppingIs(s, id);
    FinishStopAccount(s.entries, id, s.entries[id], FinishStopping(s, id).entries[id].stopErr, s.running,
                      s.startErrs, s.stopErrs);
  }

  lemma StartActionBalances(s: System, a: Action)
    requires Balanced(s) && Enabled(s, a) && StartAction(a)
    ensures Balanced(Step(s, a))
  {
    match a {
      case BeginStart(id) =>
        StartUnaccounted(s.entries[id], InStart);
        EntryUnaccounted(s, id, s.entries[id].(start := InStart));
      case StartReturns(id, outcome) =>
        StartUnaccounted(s.entries[id], Returned(outcome));
        EntryUnaccounted(s, id, s.entries[id].(start := Returned(outcome)));
      case FinishStart(id) => FinishStartBalances(s, id);
      case ParentCancels(id) => EntryUnaccounted(s, id, s.entries[id].(parentDone := true));
    }
  }

  /** A state that differs only in one entry, and not in what that contributes. */
  lemma SameBooks(s: System, s': System, id: nat, e: Entry)
    requires Balanced(s) && id < |s.entries| && SameAccount(s.entries[id], e)
    requires s'.entries == s.entries[id := e] && s'.running == s.running
    requires s'.startErrs == s.startErrs && s'.stopErrs == s.stopErrs
    ensures Balanced(s')
  {
    EntryUnaccounted(s, id, e);
  }

  lemma BeginStopBalances(s: System, id: nat)
    requires Balanced(s)
    ensures Balanced(Step(s, BeginStop(id)))
  {
    if Enabled(s, BeginStop(id)) {
      StopUnaccounted(s.entries[id], InStop, s.entries[id].stopCalls + 1);
      BeginStopStep(s, id);
      SameBooks(s, Step(s, BeginStop(id)), id, s.entries[id].(stop := InStop, stopCalls := s.entries[id].stopCalls + 1));
    }
  }

  lemma BeginStopStep(s: System, id: nat)
    requires Enabled(s, BeginStop(id))
    ensures Step(s, BeginStop(id))
      == SetEntry(s, id, s.entries[id].(stop := InStop, stopCalls := s.entries[id].stopCalls + 1))
  {
  }

  lemma StopReturnsBalances(s: System, id: nat, outcome: Outcome)
    requires Balanced(s)
    ensures Balanced(Step(s, StopReturns(id, outcome)))
  {
    if Enabled(s, StopReturns(id, outcome)) {
      StopUnaccounted(s.entries[id], StopReturned(outcome), s.entries[id].stopCalls);
      SameBooks(s, Step(s, StopReturns(id, outcome)), id, s.entries[id].(stop := StopReturned(outcome)));
    }
  }

  lemma FinishStopStepBalances(s: System, id: nat)
    requires Balanced(s)
    ensures Balanced(Step(s, FinishStop(id)))
  {
    if Enabled(s, FinishStop(id)) {
      FinishStopStep(s, id);
      FinishStopBalances(s, id);
    }
  }

  lemma FinishStopStep(s: System, id: nat)
    requires Enabled(s, FinishStop(id))
    ensures Step(s, FinishStop(id)) == FinishStopping(s, id)
  {
  }

  lemma StopActionBalances(s: System, a: Action)
    requires Balanced(s) && StopAction(a)
    ensures Balanced(Step(s, a))
  {
    match a {
      case BeginStop(id) => BeginStopBalances(s, id);
      case StopReturns(id, outcome) => StopReturnsBalances(s, id, outcome);
      case FinishStop(id) => FinishStopStepBalances(s, id);
    }
  }

  predicate Fresh(e: Entry) {
    e.start.Spawned? && e.stop.NotRequested?
  }

  lemma OneMoreRuns(entries: seq<Entry>, e: Entry)
    requires Fresh(e)
    ensures AllRuns(entries + [e]) == AllRuns(entries) + 1
  {
    assert RunsOf(entries + [e]) == RunsOf(entries) + [1];
    SumSnoc(RunsOf(entries), 1);
  }

  lemma NoStartFailureYet(entries: seq<Entry>, e: Entry)
    requires Fresh(e)
    ensures AllStartFailures(entries + [e]) == AllStartFailures(entries)
  {
    assert StartFailures(entries + [e]) == StartFailures(entries) + [[]];
    UnionSnoc(StartFailures(entries), []);
  }

  lemma NoStopFailureYet(entries: seq<Entry>, e: Entry)
    requires Fresh(e)
    ensures AllStopFailures(entries + [e]) == AllStopFailures(entries)
  {
    assert StopFailures(entries + [e]) == StopFailures(entries) + [[]];
    UnionSnoc(StopFailures(entries), []);
  }

  lemma NewEntryBalances(entries: seq<Entry>, running: int, startErrs: Errors, stopErrs: Errors, e: Entry)
    requires AccountInv(entries, running, startErrs, stopErrs) && Fresh(e)
    ensures AccountInv(entries + [e], running + 1, startErrs, stopErrs)
  {
    OneMoreRuns(entries, e);
    NoStartFailureYet(entries, e);
    NoStopFailureYet(entries, e);
  }

  lemma InsertBalances(s: System, who: nat)
    requires Balanced(s) && who in s.clients && s.clients[who].Inserting?
    ensures Balanced(InsertEntry(s, who, s.clients[who].name))
  {
    NewEntryBalances(s.entries, s.running, s.startErrs, s.stopErrs,
                     Entry(s.clients[who].name, Spawned, NotRequested, 0, [], false));
  }

  lemma WorkerBalances(s: System, w: Worker)
    requires Balanced(s) && w.id < |s.entries|
    ensures AccountInv(WorkerEntries(w, s.entries), s.running, s.startErrs, s.stopErrs)
  {
    var e := s.entries[w.id];
    if w.pc == Requesting {
      if e.stop.NotRequested? { StopUnaccounted(e, Requested, e.stopCalls); }
      EntryUnaccounted(s, w.id, RequestStop(e));
    }
  }

  lemma CallerStepBalances(s: System, a: Action)
    requires Balanced(s) && Enabled(s, a) && !StartAction(a) && !StopAction(a)
    ensures Balanced(Step(s, a))
  {
    match a {
      case InsertTask(who) => InsertBalances(s, who);
      case AdvanceWorker(who, k) => WorkerBalances(s, s.clients[who].workers[k]);
      case AdvanceStop(who) => WorkerBalances(s, s.clients[who].worker);
      case _ =>
    }
  }

  // ---------------------------------------------------------------------- all runs

  lemma StepInv(s: System, a: Action)
    requires Inv(s) && Balanced(s)
    ensures Inv(Step(s, a)) && Balanced(Step(s, a))
  {
    if Enabled(s, a) {
      if StartAction(a) {
        StartStepInv(s, a);
        StartActionBalances(s, a);
      } else if StopAction(a) {
        StopStepInv(s, a);
        StopActionBalances(s, a);
      } else {
        if s.running == 0 { NobodyRuns(s.entries); }
        CallerStepBalances(s, a);
        if FreeAction(a) { FreeStepInv(s, a); } else { HolderStepInv(s, a); }
      }
    }
  }

  lemma {:induction false} RunInv(run: seq<Action>)
    ensures Inv(After(run)) && Balanced(After(run))
  {
    if run == [] {
      InitialInv();
    } else {
      RunInv(run[..|run| - 1]);
      StepInv(After(run[..|run| - 1]), run[|run| - 1]);
    }
  }

  lemma InitialInv()
    ensures Inv(Initially()) && Balanced(Initially())
  {
  }

  ghost predicate Reachable(s: System) {
    exists run :: s == After(run)
  }

  lemma ReachableInv(s: System)
    requires Reachable(s)
    ensures Inv(s) && Balanced(s)
  {
    var run :| s == After(run);
    RunInv(run);
  }
}
