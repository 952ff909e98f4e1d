/**
  The in-memory queue of mq/memory: one buffered channel per topic, looked up under a
  lock and used after the lock has been released, so that a channel operation may act on
  a handle that was fetched long before.

  A run is any sequence of atomic steps of any number of concurrent calls: a lock region
  or one channel operation each. A step that is not enabled leaves everything as it is,
  so every sequence of steps is a run and every interleaving is one.
 */
module Queue {
  import opened Common

  /** A Go channel. */
  datatype Chan<T> = Chan(buffer: seq<T>, closed: bool)

  /** The queue and the channels it has made; a handle is an index into `chans`. */
  datatype Store<T> = Store(queueSize: nat, queues: map<string, nat>, chans: seq<Chan<T>>, closed: bool)

  datatype Error = QueueClosed | ContextDone | Panicked

  // ------------------------------------------------------------- lock regions

  function GetOrCreate<T>(s: Store<T>, topic: string): (Store<T>, Result<nat, Error>) {
    if s.closed then (s, Err(QueueClosed))
    else if topic in s.queues then (s, Ok(s.queues[topic]))
    else (s.(queues := s.queues[topic := |s.chans|], chans := s.chans + [Chan([], false)]), Ok(|s.chans|))
  }

  function Find<T>(s: Store<T>, topic: string): Result<Option<nat>, Error> {
    if s.closed then Err(QueueClosed)
    else Ok(if topic in s.queues then Some(s.queues[topic]) else None)
  }

  /** Some topic uses channel `i`. */
  predicate HasTopic(queues: map<string, nat>, i: nat) {
    exists t :: t in queues && queues[t] == i
  }

  function Closed<T>(s: Store<T>): Store<T> {
    if s.closed then s
    else
      s.(closed := true,
         chans := seq(|s.chans|, i requires 0 <= i < |s.chans| =>
           if HasTopic(s.queues, i) then s.chans[i].(closed := true) else s.chans[i]))
  }

  // --------------------------------------------------------- channel operations

  function Sent<T>(s: Store<T>, ch: nat, data: T): Store<T>
    requires ch < |s.chans|
  {
    s.(chans := s.chans[ch := s.chans[ch].(buffer := s.chans[ch].buffer + [data])])
  }

  function Received<T>(s: Store<T>, ch: nat): Store<T>
    requires ch < |s.chans| && s.chans[ch].buffer != []
  {
    s.(chans := s.chans[ch := s.chans[ch].(buffer := s.chans[ch].buffer[1..])])
  }

  /** The channels of the topics are distinct, all of them are made for a topic, and they close together. */
  ghost predicate WellFormed<T>(s: Store<T>) {
    && (forall t :: t in s.queues ==> s.queues[t] < |s.chans|)
    && (forall t, u :: t in s.queues && u in s.queues && t != u ==> s.queues[t] != s.queues[u])
    && (forall i :: 0 <= i < |s.chans| ==> HasTopic(s.queues, i))
    && (forall i :: 0 <= i < |s.chans| ==> s.chans[i].closed == s.closed)
    && (forall i :: 0 <= i < |s.chans| ==> |s.chans[i].buffer| <= s.queueSize)
  }

  class Queue<T> {
    const queueSize: nat
    var queues: map<string, nat>
    var chans: seq<Chan<T>>
    var closed: bool

    ghost function State(): Store<T>
      reads this
    {
      Store(queueSize, queues, chans, closed)
    }

    constructor (queueSize: nat)
      ensures State() == Store(queueSize, map[], [], false)
      ensures WellFormed(State())
    {
      this.queueSize := queueSize;
      queues, chans, closed := map[], [], false;
    }

    method GetOrCreateQueue(topic: string) returns (r: Result<nat, Error>)
      modifies this
      ensures (State(), r) == GetOrCreate(old(State()), topic)
    {
      if closed {
        return Err(QueueClosed);
      }
      if topic !in queues {
        queues := queues[topic := |chans|];
        chans := chans + [Chan([], false)];
      }
      return Ok(queues[topic]);
    }

    method GetQueue(topic: string) returns (r: Result<Option<nat>, Error>)
      ensures r == Find(State(), topic)
    {
      if closed {
        return Err(QueueClosed);
      }
      return Ok(if topic in queues then Some(queues[topic]) else None);
    }

    /** Closes the channel of every topic once; a Go channel must not be closed twice. */
    method Close()
      requires WellFormed(State())
      modifies this
      ensures State() == Closed(old(State()))
      ensures WellFormed(State()) && closed
    {
      if closed {
        return;
      }
      closed := true;
      var topics := queues.Keys;
      while topics != {}
        invariant topics <= queues.Keys && closed && queues == old(queues) && |chans| == |old(chans)|
        invariant forall t :: t in topics ==> chans[queues[t]] == old(chans)[queues[t]]
        invariant forall t :: t in queues && t !in topics ==>
          chans[queues[t]] == old(chans)[queues[t]].(closed := true)
        decreases |topics|
      {
        var topic :| topic in topics;
        var ch := queues[topic];
        assert !chans[ch].closed;
        chans := chans[ch := chans[ch].(closed := true)];
        topics := topics - {topic};
      }
      forall i | 0 <= i < |chans| ensures chans[i] == old(chans)[i].(closed := true) && HasTopic(queues, i) {
        assert HasTopic(old(queues), i);
        var t :| t in queues && queues[t] == i;
      }
    }

    /**
      PurgeQueue when no other call runs meanwhile. `expires` is the round of the loop in which
      the select takes the branch of the context, if it ever does.
     */
    method PurgeQueue(topic: string, expires: Option<nat>) returns (r: Option<Error>)
      requires WellFormed(State())
      modifies this
      ensures WellFormed(State())
      ensures closed ==> r == Some(QueueClosed)
      ensures !closed && topic !in old(queues) ==> r == None
      ensures closed || topic !in old(queues) ==> State() == old(State())
      ensures !closed && topic in old(queues) ==>
        var ch := old(queues)[topic];
        var buffer := old(chans)[ch].buffer;
        var inTime := expires.None? || expires.value > |buffer|;
        && r == (if inTime then None else Some(ContextDone))
        && State() == old(State()).(chans :=
             old(chans)[ch := Chan(if inTime then [] else buffer[expires.value..], false)])
    {
      if closed {
        return Some(QueueClosed);
      }
      if topic !in queues {
        return None;
      }
      var queue := queues[topic];
      var round := 0;
      ghost var buffer := chans[queue].buffer;
      while true
        invariant |chans| == |old(chans)| && !chans[queue].closed
        invariant forall i :: 0 <= i < |chans| && i != queue ==> chans[i] == old(chans)[i]
        invariant round <= |buffer| && chans[queue].buffer == buffer[round..]
        invariant expires.Some? ==> round <= expires.value
        invariant queues == old(queues) && closed == old(closed)
        decreases |buffer| - round
      {
        if expires == Some(round) {
          return Some(ContextDone);
        }
        if chans[queue].buffer == [] {
          return None;
        }
        chans := chans[queue := chans[queue].(buffer := chans[queue].buffer[1..])];
        round := round + 1;
      }
    }
  }

  // ----------------------------------------------------------------- the protocol

  datatype ReceiveKind = Consuming | TryConsuming | Purging

  /** A call that has its handle and is not finished. */
  datatype Call<T> =
    | Publish(topic: string, handle: nat, data: T)
    | Receive(kind: ReceiveKind, topic: string, handle: nat)

  /** `calls` holds the unfinished calls by the goroutine that makes them. */
  datatype System<T> = System(store: Store<T>, calls: map<nat, Call<T>>)

  datatype Action<T> =
    | PublishLookup(who: nat, topic: string, data: T)
    | ReceiveLookup(who: nat, kind: ReceiveKind, topic: string)
    | Send(who: nat)
    | SendOnClosed(who: nat)
    | Handoff(who: nat, receiver: nat)
    | Recv(who: nat)
    | RecvClosed(who: nat)
    | RecvDefault(who: nat)
    | Cancel(who: nat)
    | CloseQueue

  /** What the outside sees of a run. */
  datatype Event<T> =
    | Accepted(topic: string, data: T)    // Publish returned nil
    | Delivered(topic: string, data: T)   // Consume or TryConsume returned the message
    | Discarded(topic: string, data: T)   // PurgeQueue dropped the message
    | Empty(kind: ReceiveKind, topic: string)   // TryConsume found nothing, or PurgeQueue returned nil
    | Failed(error: Error)

  predicate IsReceiver<T>(s: System<T>, who: nat) {
    who in s.calls && s.calls[who].Receive? && s.calls[who].handle < |s.store.chans|
  }

  predicate IsPublisher<T>(s: System<T>, who: nat) {
    who in s.calls && s.calls[who].Publish? && s.calls[who].handle < |s.store.chans|
  }

  function ChanOf<T>(s: System<T>, who: nat): Chan<T>
    requires IsReceiver(s, who) || IsPublisher(s, who)
  {
    s.store.chans[s.calls[who].handle]
  }

  predicate Enabled<T>(s: System<T>, a: Action<T>) {
    match a
    case PublishLookup(who, _, _) => who !in s.calls
    case ReceiveLookup(who, _, _) => who !in s.calls
    case Send(who) =>
      IsPublisher(s, who) && !ChanOf(s, who).closed && |ChanOf(s, who).buffer| < s.store.queueSize
    case SendOnClosed(who) => IsPublisher(s, who) && ChanOf(s, who).closed
    case Handoff(who, receiver) =>
      && IsPublisher(s, who) && IsReceiver(s, receiver) && s.calls[who].handle == s.calls[receiver].handle
      && !ChanOf(s, who).closed && ChanOf(s, who).buffer == []
    case Recv(who) => IsReceiver(s, who) && ChanOf(s, who).buffer != []
    case RecvClosed(who) => IsReceiver(s, who) && ChanOf(s, who).buffer == [] && ChanOf(s, who).closed
    case RecvDefault(who) =>
      IsReceiver(s, who) && s.calls[who].kind != Consuming && ChanOf(s, who).buffer == [] && !ChanOf(s, who).closed
    case Cancel(who) => who in s.calls
    case CloseQueue => true
  }

  function Taken<T>(kind: ReceiveKind, topic: string, data: T): Event<T> {
    if kind == Purging then Discarded(topic, data) else Delivered(topic, data)
  }

  /** PurgeQueue goes on receiving; the other calls return with the message. */
  function CallsAfterReceipt<T>(calls: map<nat, Call<T>>, who: nat): map<nat, Call<T>>
    requires who in calls && calls[who].Receive?
  {
    if calls[who].kind == Purging then calls else calls - {who}
  }

  function Do<T>(s: System<T>, a: Action<T>): (System<T>, seq<Event<T>>)
    requires Enabled(s, a)
  {
    match a
    case PublishLookup(who, topic, data) =>
      var (store, handle) := GetOrCreate(s.store, topic);
      if handle.Err? then (s, [Failed(handle.error)])
      else (System(store, s.calls[who := Publish(topic, handle.value, data)]), [])
    case ReceiveLookup(who, kind, topic) => DoReceiveLookup(s, who, kind, topic)
    case Send(who) =>
      var call := s.calls[who];
      (System(Sent(s.store, call.handle, call.data), s.calls - {who}), [Accepted(call.topic, call.data)])
    case SendOnClosed(who) => (s.(calls := s.calls - {who}), [Failed(Panicked)])
    case Handoff(who, receiver) =>
      var call, other := s.calls[who], s.calls[receiver];
      (s.(calls := CallsAfterReceipt(s.calls, receiver) - {who}),
       [Accepted(call.topic, call.data), Taken(other.kind, other.topic, call.data)])
    case Recv(who) =>
      var call := s.calls[who];
      (System(Received(s.store, call.handle), CallsAfterReceipt(s.calls, who)),
       [Taken(call.kind, call.topic, ChanOf(s, who).buffer[0])])
    case RecvClosed(who) => (s.(calls := s.calls - {who}), [Failed(QueueClosed)])
    case RecvDefault(who) =>
      (s.(calls := s.calls - {who}), [Empty(s.calls[who].kind, s.calls[who].topic)])
    case Cancel(who) => (s.(calls := s.calls - {who}), [Failed(ContextDone)])
    case CloseQueue => (s.(store := Closed(s.store)), [])
  }

  /** Consume creates the channel of its topic; TryConsume and PurgeQueue only look for it. */
  function DoReceiveLookup<T>(s: System<T>, who: nat, kind: ReceiveKind, topic: string)
    : (System<T>, seq<Event<T>>)
  {
    if kind == Consuming then
      var (store, handle) := GetOrCreate(s.store, topic);
      if handle.Err? then (s, [Failed(handle.error)])
      else (System(store, s.calls[who := Receive(kind, topic, handle.value)]), [])
    else
      match Find(s.store, topic)
      case Err(error) => (s, [Failed(error)])
      case Ok(None) => (s, [Empty(kind, topic)])
      case Ok(Some(handle)) => (s.(calls := s.calls[who := Receive(kind, topic, handle)]), [])
  }

  function Step<T>(s: System<T>, a: Action<T>): (System<T>, seq<Event<T>>) {
    if Enabled(s, a) then Do(s, a) else (s, [])
  }

  function Start<T>(queueSize: nat): System<T> {
    System(Store(queueSize, map[], [], false), map[])
  }

  function After<T>(queueSize: nat, run: seq<Action<T>>): System<T> {
    if run == [] then Start(queueSize) else Step(After(queueSize, run[..|run| - 1]), run[|run| - 1]).0
  }

  /** Everything that a run lets the outside see, oldest first. */
  function Trace<T>(queueSize: nat, run: seq<Action<T>>): seq<Event<T>> {
    if run == [] then []
    else Trace(queueSize, run[..|run| - 1]) + Step(After(queueSize, run[..|run| - 1]), run[|run| - 1]).1
  }

  /** The messages of a topic that Publish reported as accepted. */
  function AcceptedBy<T>(trace: seq<Event<T>>, topic: string): seq<T> {
    if trace == [] then []
    else
      var e := trace[|trace| - 1];
      AcceptedBy(trace[..|trace| - 1], topic) + if e.Accepted? && e.topic == topic then [e.data] else []
  }

  /** The messages of a topic that left it, to a consumer or by a purge. */
  function TakenFrom<T>(trace: seq<Event<T>>, topic: string): seq<T> {
    if trace == [] then []
    else
      var e := trace[|trace| - 1];
      TakenFrom(trace[..|trace| - 1], topic)
      + if (e.Delivered? || e.Discarded?) && e.topic == topic then [e.data] else []
  }

  function Waiting<T>(s: Store<T>, topic: string): seq<T> {
    if topic in s.queues && s.queues[topic] < |s.chans| then s.chans[s.queues[topic]].buffer else []
  }

  // ------------------------------------------------------------------ invariants

  /** Every call holds the one channel of its topic. */
  ghost predicate HandlesAreCurrent<T>(s: System<T>) {
    forall who :: who in s.calls ==>
      s.calls[who].topic in s.store.queues && s.store.queues[s.calls[who].topic] == s.calls[who].handle
  }

  ghost predicate Inv<T>(s: System<T>) {
    WellFormed(s.store) && HandlesAreCurrent(s)
  }

  lemma GetOrCreateWellFormed<T>(s: Store<T>, topic: string)
    requires WellFormed(s)
    ensures var (s', r) := GetOrCreate(s, topic);
      && WellFormed(s') && (r.Ok? ==> topic in s'.queues && s'.queues[topic] == r.value)
      && (forall t :: t in s.queues ==> t in s'.queues && s'.queues[t] == s.queues[t])
      && (forall t :: Waiting(s', t) == Waiting(s, t))
      && s'.closed == s.closed && s'.queueSize == s.queueSize
  {
    var (s', r) := GetOrCreate(s, topic);
    if s' != s {
      assert s'.queues[topic] == |s.chans|;
      forall i | 0 <= i < |s.chans| ensures HasTopic(s'.queues, i) {
        assert HasTopic(s.queues, i);
        var t :| t in s.queues && s.queues[t] == i;
        assert s'.queues[t] == i;
      }
    }
  }

  lemma ClosedWellFormed<T>(s: Store<T>)
    requires WellFormed(s)
    ensures WellFormed(Closed(s)) && Closed(s).closed && Closed(s).queues == s.queues
    ensures forall t :: Waiting(Closed(s), t) == Waiting(s, t)
  {
  }

  lemma SentWellFormed<T>(s: Store<T>, topic: string, data: T)
    requires WellFormed(s) && topic in s.queues && |Waiting(s, topic)| < s.queueSize
    ensures WellFormed(Sent(s, s.queues[topic], data))
    ensures forall t :: Waiting(Sent(s, s.queues[topic], data), t)
                        == Waiting(s, t) + if t == topic then [data] else []
  {
  }

  lemma ReceivedWellFormed<T>(s: Store<T>, topic: string)
    requires WellFormed(s) && topic in s.queues && Waiting(s, topic) != []
    ensures WellFormed(Received(s, s.queues[topic]))
    ensures forall t :: Waiting(Received(s, s.queues[topic]), t)
                        == if t == topic then Waiting(s, t)[1..] else Waiting(s, t)
  {
  }

  // -------------------------------------------------------------- every step

  /** What one step does to a topic's messages: in at the back, out at the front. */
  ghost predicate Conserves<T>(s: System<T>, s': System<T>, events: seq<Event<T>>, topic: string) {
    Waiting(s.store, topic) + AcceptedBy(events, topic) == TakenFrom(events, topic) + Waiting(s'.store, topic)
  }

  /** Channels are for life, and a closed queue stays closed. */
  ghost predicate Extends<T>(s: Store<T>, s': Store<T>) {
    && (forall t :: t in s.queues ==> t in s'.queues && s'.queues[t] == s.queues[t])
    && s'.queueSize == s.queueSize
    && (s.closed ==> s'.closed && s'.queues == s.queues)
  }

  ghost predicate GoodStep<T>(s: System<T>, s': System<T>, events: seq<Event<T>>) {
    && Inv(s') && Extends(s.store, s'.store)
    && (forall t :: Conserves(s, s', events, t))
    && (forall i :: 0 <= i < |events| && events[i].Accepted? ==> !s.store.closed)
    && (forall i :: 0 <= i < |events| && events[i].Empty? ==> Waiting(s'.store, events[i].topic) == [])
  }

  lemma NoEvents<T>(s: System<T>, s': System<T>)
    requires Inv(s') && Extends(s.store, s'.store)
    requires forall t :: Waiting(s'.store, t) == Waiting(s.store, t)
    ensures GoodStep(s, s', [])
  {
    forall t ensures Conserves(s, s', [], t) {
      var w := Waiting(s.store, t);
      assert w + [] == w && [] + w == w;
    }
  }

  lemma OneEvent<T>(e: Event<T>, topic: string)
    ensures AcceptedBy([e], topic) == if e.Accepted? && e.topic == topic then [e.data] else []
    ensures TakenFrom([e], topic) == if (e.Delivered? || e.Discarded?) && e.topic == topic then [e.data] else []
  {
    assert [e][..0] == [];
    var none: seq<Event<T>> := [];
    assert AcceptedBy(none, topic) == [] && TakenFrom(none, topic) == [];
  }

  lemma TwoEvents<T>(d: Event<T>, e: Event<T>, topic: string)
    ensures AcceptedBy([d, e], topic) == AcceptedBy([d], topic) + AcceptedBy([e], topic)
    ensures TakenFrom([d, e], topic) == TakenFrom([d], topic) + TakenFrom([e], topic)
  {
    assert [d, e][..1] == [d];
    OneEvent(e, topic);
  }

  /** An event that is not about a message. */
  lemma SilentEvent<T>(s: System<T>, s': System<T>, e: Event<T>)
    requires Inv(s') && s'.store == s.store
    requires e.Failed? || (e.Empty? && Waiting(s.store, e.topic) == [])
    ensures GoodStep(s, s', [e])
  {
    forall t ensures Conserves(s, s', [e], t) {
      OneEvent(e, t);
      var w := Waiting(s.store, t);
      assert w + [] == w && [] + w == w;
    }
  }

  lemma SendIsGood<T>(s: System<T>, who: nat)
    requires Inv(s) && Enabled(s, Send(who))
    ensures GoodStep(s, Step(s, Send(who)).0, Step(s, Send(who)).1)
  {
    var call := s.calls[who];
    SentWellFormed(s.store, call.topic, call.data);
    forall t ensures Conserves(s, Step(s, Send(who)).0, Step(s, Send(who)).1, t) {
      OneEvent(Accepted(call.topic, call.data), t);
      NothingTaken(Waiting(s.store, t));
    }
  }

  lemma NothingTaken<T>(w: seq<T>)
    ensures w + [] == w && [] + w == w
    ensures w != [] ==> w == [w[0]] + w[1..]
  {
  }

  lemma RecvIsGood<T>(s: System<T>, who: nat)
    requires Inv(s) && Enabled(s, Recv(who))
    ensures GoodStep(s, Step(s, Recv(who)).0, Step(s, Recv(who)).1)
  {
    var call := s.calls[who];
    ReceivedWellFormed(s.store, call.topic);
    forall t ensures Conserves(s, Step(s, Recv(who)).0, Step(s, Recv(who)).1, t) {
      RecvConserves(s, who, t);
    }
  }

  lemma RecvConserves<T>(s: System<T>, who: nat, t: string)
    requires WellFormed(s.store) && Enabled(s, Recv(who)) && s.calls[who].topic in s.store.queues
    requires s.store.queues[s.calls[who].topic] == s.calls[who].handle
    ensures Conserves(s, Step(s, Recv(who)).0, Step(s, Recv(who)).1, t)
  {
    var call := s.calls[who];
    ReceivedWellFormed(s.store, call.topic);
    OneEvent(Taken(call.kind, call.topic, Waiting(s.store, call.topic)[0]), t);
    NothingTaken(Waiting(s.store, t));
  }

  lemma HandoffIsGood<T>(s: System<T>, who: nat, receiver: nat)
    requires Inv(s) && Enabled(s, Handoff(who, receiver))
    ensures GoodStep(s, Step(s, Handoff(who, receiver)).0, Step(s, Handoff(who, receiver)).1)
  {
    var call, other := s.calls[who], s.calls[receiver];
    assert call.topic == other.topic;
    forall t ensures Conserves(s, Step(s, Handoff(who, receiver)).0, Step(s, Handoff(who, receiver)).1, t) {
      HandoffEvents(Accepted(call.topic, call.data), Taken(other.kind, other.topic, call.data), t);
    }
  }

  lemma HandoffEvents<T>(accepted: Event<T>, taken: Event<T>, topic: string)
    requires accepted.Accepted? && (taken.Delivered? || taken.Discarded?)
    requires taken.topic == accepted.topic && taken.data == accepted.data
    ensures AcceptedBy([accepted, taken], topic) == TakenFrom([accepted, taken], topic)
    ensures accepted.topic != topic ==> AcceptedBy([accepted, taken], topic) == []
    ensures accepted.topic == topic ==> AcceptedBy([accepted, taken], topic) == [accepted.data]
  {
    OneEvent(accepted, topic);
    OneEvent(taken, topic);
    TwoEvents(accepted, taken, topic);
  }

  lemma LookupIsGood<T>(s: System<T>, who: nat, topic: string, call: nat -> Call<T>)
    requires Inv(s) && !s.store.closed && forall h :: call(h).topic == topic && call(h).handle == h
    ensures var (store, handle) := GetOrCreate(s.store, topic);
      handle.Ok? && GoodStep(s, System(store, s.calls[who := call(handle.value)]), [])
  {
    GetOrCreateWellFormed(s.store, topic);
    var (store, handle) := GetOrCreate(s.store, topic);
    NoEvents(s, System(store, s.calls[who := call(handle.value)]));
  }

  lemma StepIsGood<T>(s: System<T>, a: Action<T>)
    requires Inv(s)
    ensures GoodStep(s, Step(s, a).0, Step(s, a).1)
  {
    NoEvents(s, s);
    if Enabled(s, a) {
      var (s', events) := Do(s, a);
      match a {
        case PublishLookup(who, topic, data) =>
          if s.store.closed {
            SilentEvent(s, s', events[0]);
          } else {
            LookupIsGood(s, who, topic, (h: nat) => Publish(topic, h, data));
          }
        case ReceiveLookup(who, kind, topic) =>
          if s.store.closed {
            SilentEvent(s, s', events[0]);
          } else if kind == Consuming {
            LookupIsGood(s, who, topic, (h: nat) => Receive(kind, topic, h));
          } else if topic in s.store.queues {
            NoEvents(s, s');
          } else {
            SilentEvent(s, s', events[0]);
          }
        case Send(who) => SendIsGood(s, who);
        case Handoff(who, receiver) => HandoffIsGood(s, who, receiver);
        case Recv(who) => RecvIsGood(s, who);
        case CloseQueue =>
          ClosedWellFormed(s.store);
          NoEvents(s, s');
        case _ => SilentEvent(s, s', events[0]);
      }
    }
  }

  // ------------------------------------------------------------------ whole runs

  lemma {:induction false} RunInv<T>(queueSize: nat, run: seq<Action<T>>)
    ensures Inv(After(queueSize, run)) && After(queueSize, run).store.queueSize == queueSize
  {
    if run != [] {
      RunInv(queueSize, run[..|run| - 1]);
      StepIsGood(After(queueSize, run[..|run| - 1]), run[|run| - 1]);
    }
  }

  lemma {:induction false} AcceptedConcat<T>(a: seq<Event<T>>, b: seq<Event<T>>, topic: string)
    ensures AcceptedBy(a + b, topic) == AcceptedBy(a, topic) + AcceptedBy(b, topic)
  {
    if b == [] {
      assert a + b == a;
    } else {
      AcceptedConcat(a, b[..|b| - 1], topic);
      assert (a + b)[..|a + b| - 1] == a + b[..|b| - 1];
    }
  }

  lemma {:induction false} TakenConcat<T>(a: seq<Event<T>>, b: seq<Event<T>>, topic: string)
    ensures TakenFrom(a + b, topic) == TakenFrom(a, topic) + TakenFrom(b, topic)
  {
    if b == [] {
      assert a + b == a;
    } else {
      TakenConcat(a, b[..|b| - 1], topic);
      assert (a + b)[..|a + b| - 1] == a + b[..|b| - 1];
    }
  }

  /**
    Nothing is lost, duplicated or reordered: in every interleaving, what Publish accepted
    for a topic is what consumers and purges have taken from it, in order, followed by what
    still waits in its channel, and no more than the queue size waits there.
   */
  lemma {:induction false} MessagesAreConserved<T>(queueSize: nat, run: seq<Action<T>>, topic: string)
    ensures AcceptedBy(Trace(queueSize, run), topic)
            == TakenFrom(Trace(queueSize, run), topic) + Waiting(After(queueSize, run).store, topic)
    ensures |Waiting(After(queueSize, run).store, topic)| <= queueSize
  {
    RunInv(queueSize, run);
    if run != [] {
      var before := run[..|run| - 1];
      var s, a := After(queueSize, before), run[|run| - 1];
      var (s', events) := Step(s, a);
      MessagesAreConserved(queueSize, before, topic);
      RunInv(queueSize, before);
      StepIsGood(s, a);
      assert Conserves(s, s', events, topic);
      AcceptedConcat(Trace(queueSize, before), events, topic);
      TakenConcat(Trace(queueSize, before), events, topic);
      Rearrange(TakenFrom(Trace(queueSize, before), topic), Waiting(s.store, topic), AcceptedBy(events, topic),
                TakenFrom(events, topic), Waiting(s'.store, topic));
    }
  }

  lemma Rearrange<T>(taken: seq<T>, waiting: seq<T>, accepted: seq<T>, taken': seq<T>, waiting': seq<T>)
    requires waiting + accepted == taken' + waiting'
    ensures taken + waiting + accepted == taken + taken' + waiting'
  {
    assert taken + waiting + accepted == taken + (waiting + accepted);
    assert taken + taken' + waiting' == taken + (taken' + waiting');
  }

  // -------------------------------------------------------- who gets what

  ghost predicate IsPublish<T>(s: System<T>, who: nat, topic: string, data: T) {
    who in s.calls && s.calls[who].Publish? && s.calls[who].topic == topic && s.calls[who].data == data
  }

  predicate IsReceive<T>(s: System<T>, who: nat, kind: ReceiveKind, topic: string) {
    who in s.calls && s.calls[who].Receive? && s.calls[who].kind == kind && s.calls[who].topic == topic
  }

  /** The publisher whose message is accepted, and the receiver that takes one, in a step. */
  ghost predicate SendsIn<T>(a: Action<T>, who: nat) {
    a == Send(who) || (a.Handoff? && a.who == who)
  }

  ghost predicate TakesIn<T>(a: Action<T>, who: nat) {
    a == Recv(who) || (a.Handoff? && a.receiver == who)
  }

  /** A publish call ends with the acceptance of the message it was called with. */
  ghost predicate AcceptedRightly<T>(s: System<T>, a: Action<T>, topic: string, data: T) {
    exists who :: SendsIn(a, who) && IsPublish(s, who, topic, data) && who !in Step(s, a).0.calls
  }

  /** A Consume or a TryConsume ends with the message that it takes. */
  ghost predicate DeliveredRightly<T>(s: System<T>, a: Action<T>, topic: string) {
    exists who :: TakesIn(a, who) && who !in Step(s, a).0.calls
                  && (IsReceive(s, who, Consuming, topic) || IsReceive(s, who, TryConsuming, topic))
  }

  /** A purge drops the message and goes on. */
  ghost predicate DiscardedRightly<T>(s: System<T>, a: Action<T>, topic: string) {
    exists who :: TakesIn(a, who) && IsReceive(s, who, Purging, topic) && IsReceive(Step(s, a).0, who, Purging, topic)
  }

  /** A call that does not wait finds nothing, on a topic without a channel or on an empty one, and ends. */
  ghost predicate EmptyRightly<T>(s: System<T>, a: Action<T>, kind: ReceiveKind, topic: string) {
    && kind != Consuming && Waiting(s.store, topic) == []
    && exists who :: who !in Step(s, a).0.calls
                     && (a == ReceiveLookup(who, kind, topic) || (a == RecvDefault(who) && IsReceive(s, who, kind, topic)))
  }

  ghost predicate FailedRightly<T>(s: System<T>, a: Action<T>, error: Error) {
    match error
    case QueueClosed => s.store.closed && (a.PublishLookup? || a.ReceiveLookup? || a.RecvClosed?)
    case ContextDone => a.Cancel? && a.who in s.calls && a.who !in Step(s, a).0.calls
    case Panicked => s.store.closed && a.SendOnClosed? && a.who !in Step(s, a).0.calls
  }

  /** Every event comes from a call of the kind that it reports. */
  lemma EventsAreRight<T>(s: System<T>, a: Action<T>, e: Event<T>)
    requires Inv(s) && e in Step(s, a).1
    ensures match e
      case Accepted(topic, data) => AcceptedRightly(s, a, topic, data)
      case Delivered(topic, _) => DeliveredRightly(s, a, topic)
      case Discarded(topic, _) => DiscardedRightly(s, a, topic)
      case Empty(kind, topic) => EmptyRightly(s, a, kind, topic)
      case Failed(error) => FailedRightly(s, a, error)
  {
    match a {
      case Send(who) => assert SendsIn(a, who);
      case Handoff(who, receiver) => HandoffIsRight(s, who, receiver, e);
      case Recv(who) => assert TakesIn(a, who);
      case _ =>
    }
  }

  lemma HandoffIsRight<T>(s: System<T>, who: nat, receiver: nat, e: Event<T>)
    requires Inv(s) && e in Step(s, Handoff(who, receiver)).1
    ensures match e
      case Accepted(topic, data) => AcceptedRightly(s, Handoff(who, receiver), topic, data)
      case Delivered(topic, _) => DeliveredRightly(s, Handoff(who, receiver), topic)
      case Discarded(topic, _) => DiscardedRightly(s, Handoff(who, receiver), topic)
      case _ => false
  {
    var a: Action<T> := Handoff(who, receiver);
    assert SendsIn(a, who) && TakesIn(a, receiver);
    assert s.calls[who].topic == s.calls[receiver].topic;
  }

  /** The messages of a topic that Consume and TryConsume returned. */
  function DeliveredFrom<T>(trace: seq<Event<T>>, topic: string): seq<T> {
    if trace == [] then []
    else
      var e := trace[|trace| - 1];
      DeliveredFrom(trace[..|trace| - 1], topic) + if e.Delivered? && e.topic == topic then [e.data] else []
  }

  /** No call of PurgeQueue in the run. */
  ghost predicate PurgeFree<T>(run: seq<Action<T>>) {
    forall i :: 0 <= i < |run| ==> !(run[i].ReceiveLookup? && run[i].kind == Purging)
  }

  ghost predicate NobodyPurges<T>(s: System<T>) {
    forall who :: who in s.calls && s.calls[who].Receive? ==> s.calls[who].kind != Purging
  }

  lemma PurgeFreeStep<T>(s: System<T>, a: Action<T>)
    requires NobodyPurges(s) && !(a.ReceiveLookup? && a.kind == Purging)
    ensures NobodyPurges(Step(s, a).0)
  {
  }

  lemma NothingDiscarded<T>(s: System<T>, a: Action<T>, i: nat)
    requires Inv(s) && NobodyPurges(s) && i < |Step(s, a).1|
    ensures !Step(s, a).1[i].Discarded?
  {
    EventsAreRight(s, a, Step(s, a).1[i]);
  }

  lemma {:induction false} NobodyPurgesInRun<T>(queueSize: nat, run: seq<Action<T>>)
    requires PurgeFree(run)
    ensures NobodyPurges(After(queueSize, run))
    ensures forall i :: 0 <= i < |Trace(queueSize, run)| ==> !Trace(queueSize, run)[i].Discarded?
  {
    if run != [] {
      var before, a := run[..|run| - 1], run[|run| - 1];
      var s := After(queueSize, before);
      NobodyPurgesInRun(queueSize, before);
      RunInv(queueSize, before);
      PurgeFreeStep(s, a);
      forall i | 0 <= i < |Step(s, a).1| ensures !Step(s, a).1[i].Discarded? {
        NothingDiscarded(s, a, i);
      }
    }
  }

  lemma {:induction false} DeliveredIsTaken<T>(trace: seq<Event<T>>, topic: string)
    requires forall i :: 0 <= i < |trace| ==> !trace[i].Discarded?
    ensures DeliveredFrom(trace, topic) == TakenFrom(trace, topic)
  {
    if trace != [] { DeliveredIsTaken(trace[..|trace| - 1], topic); }
  }

  /**
    Without a purge, the messages that Publish accepted are exactly those that Consume and
    TryConsume have returned, in order, followed by those that wait.
   */
  lemma AcceptedAreDelivered<T>(queueSize: nat, run: seq<Action<T>>, topic: string)
    requires PurgeFree(run)
    ensures AcceptedBy(Trace(queueSize, run), topic)
            == DeliveredFrom(Trace(queueSize, run), topic) + Waiting(After(queueSize, run).store, topic)
  {
    MessagesAreConserved(queueSize, run, topic);
    NobodyPurgesInRun(queueSize, run);
    DeliveredIsTaken(Trace(queueSize, run), topic);
  }

  /** The call that step i of the run brought in. */
  ghost predicate CalledAt<T>(run: seq<Action<T>>, i: nat, who: nat, call: Call<T>) {
    i < |run|
    && match call
       case Publish(topic, _, data) => run[i] == PublishLookup(who, topic, data)
       case Receive(kind, topic, _) => run[i] == ReceiveLookup(who, kind, topic)
  }

  lemma StepCalls<T>(s: System<T>, a: Action<T>, who: nat)
    requires who in Step(s, a).0.calls
    ensures (who in s.calls && s.calls[who] == Step(s, a).0.calls[who])
            || CalledAt([a], 0, who, Step(s, a).0.calls[who])
  {
  }

  /** A call under way is for the topic, of the kind and with the message that it was made with. */
  lemma {:induction false} CallsAreAsMade<T>(queueSize: nat, run: seq<Action<T>>, who: nat) returns (i: nat)
    requires who in After(queueSize, run).calls
    ensures CalledAt(run, i, who, After(queueSize, run).calls[who])
  {
    var before, a := run[..|run| - 1], run[|run| - 1];
    StepCalls(After(queueSize, before), a, who);
    if CalledAt([a], 0, who, After(queueSize, run).calls[who]) {
      i := |run| - 1;
    } else {
      i := CallsAreAsMade(queueSize, before, who);
    }
  }

  /** What a call can do next, told by the state of its topic alone. */
  lemma StepsOfCalls<T>(s: System<T>, who: nat)
    requires Inv(s) && who in s.calls
    ensures var waiting := Waiting(s.store, s.calls[who].topic);
      match s.calls[who]
      case Publish(topic, _, data) =>
        && (Enabled(s, Send(who)) <==> !s.store.closed && |waiting| < s.store.queueSize)
        && (Enabled(s, SendOnClosed(who)) <==> s.store.closed)
        && (forall r: nat, kind :: IsReceive(s, r, kind, topic) ==>
             (Enabled(s, Handoff(who, r)) <==> !s.store.closed && waiting == []))
      case Receive(kind, topic, _) =>
        && (Enabled(s, Recv(who)) <==> waiting != [])
        && (Enabled(s, RecvClosed(who)) <==> waiting == [] && s.store.closed)
        && (Enabled(s, RecvDefault(who)) <==> kind != Consuming && waiting == [] && !s.store.closed)
    ensures Enabled(s, Cancel(who))
  {
  }

  /** A message as the receiver's kind reports it. */
  function Report<T>(kind: ReceiveKind, topic: string, data: T): Event<T> {
    match kind
    case Purging => Discarded(topic, data)
    case Consuming => Delivered(topic, data)
    case TryConsuming => Delivered(topic, data)
  }

  /** And what it reports when it does. */
  lemma ReportsOfCalls<T>(s: System<T>, who: nat)
    requires Inv(s) && who in s.calls
    ensures var waiting := Waiting(s.store, s.calls[who].topic);
      match s.calls[who]
      case Publish(topic, _, data) =>
        && (Enabled(s, Send(who)) ==> Step(s, Send(who)).1 == [Accepted(topic, data)])
        && (Enabled(s, SendOnClosed(who)) ==> Step(s, SendOnClosed(who)).1 == [Failed(Panicked)])
        && (forall r: nat, kind :: IsReceive(s, r, kind, topic) && Enabled(s, Handoff(who, r)) ==>
             Step(s, Handoff(who, r)).1 == [Accepted(topic, data), Report(kind, topic, data)])
      case Receive(kind, topic, _) =>
        && (Enabled(s, Recv(who)) ==> Step(s, Recv(who)).1 == [Report(kind, topic, waiting[0])])
        && (Enabled(s, RecvClosed(who)) ==> Step(s, RecvClosed(who)).1 == [Failed(QueueClosed)])
        && (Enabled(s, RecvDefault(who)) ==> Step(s, RecvDefault(who)).1 == [Empty(kind, topic)])
    ensures Step(s, Cancel(who)).1 == [Failed(ContextDone)]
  {
  }

  /**
    A new call: on a closed queue it fails; Publish and Consume always find a channel; the
    calls that do not wait find nothing on a topic that nobody has used.
   */
  lemma LookupAnswers<T>(s: System<T>, who: nat, topic: string, data: T, kind: ReceiveKind)
    requires Inv(s) && who !in s.calls
    ensures s.store.closed ==>
      && Step(s, PublishLookup(who, topic, data)) == (s, [Failed(QueueClosed)])
      && Step(s, ReceiveLookup(who, kind, topic)) == (s, [Failed(QueueClosed)])
    ensures !s.store.closed ==>
      && Step(s, PublishLookup(who, topic, data)).1 == []
      && IsPublish(Step(s, PublishLookup(who, topic, data)).0, who, topic, data)
    ensures !s.store.closed && (kind == Consuming || topic in s.store.queues) ==>
      && Step(s, ReceiveLookup(who, kind, topic)).1 == []
      && IsReceive(Step(s, ReceiveLookup(who, kind, topic)).0, who, kind, topic)
    ensures !s.store.closed && kind != Consuming && topic !in s.store.queues ==>
      Step(s, ReceiveLookup(who, kind, topic)) == (s, [Empty(kind, topic)])
  {
  }

  /** Close takes effect at once, for every channel, and drops no message. */
  lemma CloseCloses<T>(s: System<T>, topic: string)
    requires Inv(s)
    ensures var s' := Step(s, CloseQueue).0;
      && s'.store.closed && (forall i :: 0 <= i < |s'.store.chans| ==> s'.store.chans[i].closed)
      && s'.calls == s.calls && Waiting(s'.store, topic) == Waiting(s.store, topic)
  {
    ClosedWellFormed(s.store);
  }

  /** A topic keeps its channel for the rest of the run, and a closed queue stays closed. */
  lemma {:induction false} ChannelsAreForLife<T>(queueSize: nat, run: seq<Action<T>>, i: nat)
    requires i <= |run|
    ensures Extends(After(queueSize, run[..i]).store, After(queueSize, run).store)
  {
    if i < |run| {
      var before := run[..|run| - 1];
      ChannelsAreForLife(queueSize, before, i);
      assert before[..i] == run[..i];
      RunInv(queueSize, before);
      StepIsGood(After(queueSize, before), run[|run| - 1]);
    } else {
      assert run[..i] == run;
    }
  }

  /** Every handle that a call still holds, however old, is the current channel of its topic. */
  lemma HandlesStayCurrent<T>(queueSize: nat, run: seq<Action<T>>, who: nat)
    requires who in After(queueSize, run).calls
    ensures var s := After(queueSize, run);
      && s.calls[who].topic in s.store.queues
      && s.store.queues[s.calls[who].topic] == s.calls[who].handle < |s.store.chans|
      && forall t :: t in s.store.queues && t != s.calls[who].topic ==> s.store.queues[t] != s.calls[who].handle
  {
    RunInv(queueSize, run);
  }

  /** No Publish succeeds on a queue that has been closed. */
  lemma NothingAcceptedAfterClose<T>(queueSize: nat, run: seq<Action<T>>, a: Action<T>, i: nat)
    requires After(queueSize, run).store.closed
    requires i < |Step(After(queueSize, run), a).1|
    ensures !Step(After(queueSize, run), a).1[i].Accepted?
  {
    RunInv(queueSize, run);
    StepIsGood(After(queueSize, run), a);
  }

  /**
    When PurgeQueue returns nil for a topic it has found, every message accepted for that
    topic so far has been taken: the purge saw the channel empty.
   */
  lemma PurgeSawItEmpty<T>(queueSize: nat, run: seq<Action<T>>, who: nat)
    requires Enabled(After(queueSize, run), RecvDefault(who))
    ensures var trace := Trace(queueSize, run + [RecvDefault(who)]);
      var topic := After(queueSize, run).calls[who].topic;
      && trace != [] && trace[|trace| - 1] == Empty(After(queueSize, run).calls[who].kind, topic)
      && AcceptedBy(trace, topic) == TakenFrom(trace, topic)
  {
    var full := run + [RecvDefault(who)];
    assert full[..|full| - 1] == run;
    var topic := After(queueSize, run).calls[who].topic;
    RunInv(queueSize, run);
    StepIsGood(After(queueSize, run), RecvDefault(who));
    MessagesAreConserved(queueSize, full, topic);
    assert Waiting(After(queueSize, full).store, topic) == [];
  }

  /** After Close no call can wait for ever: each has a step of its own that is enabled. */
  lemma CloseWakesEveryCall<T>(queueSize: nat, run: seq<Action<T>>, who: nat)
    requires After(queueSize, run).store.closed && who in After(queueSize, run).calls
    ensures var s := After(queueSize, run);
      if s.calls[who].Publish? then Enabled(s, SendOnClosed(who))
      else Enabled(s, Recv(who)) || Enabled(s, RecvClosed(who))
  {
    RunInv(queueSize, run);
  }

  /**
    TryConsume promises no error when it finds no message. It has one exactly on a closed
    queue: at the lookup, or on a channel that was closed after the lookup and is drained.
    Besides, its context may end it with an error at any time.
   */
  lemma TryConsumeFails<T>(queueSize: nat, run: seq<Action<T>>, who: nat, topic: string)
    ensures var s := After(queueSize, run);
      && (who !in s.calls ==>
           (Failed(QueueClosed) in Step(s, ReceiveLookup(who, TryConsuming, topic)).1 <==> s.store.closed))
      && (who in s.calls && s.calls[who].Receive? && s.calls[who].kind == TryConsuming ==>
           (Failed(QueueClosed) in Step(s, RecvClosed(who)).1
            <==> s.store.closed && Waiting(s.store, s.calls[who].topic) == [])
           && Step(s, Cancel(who)).1 == [Failed(ContextDone)])
  {
    RunInv(queueSize, run);
    TryConsumeFailsAt(After(queueSize, run), who, topic);
  }

  lemma TryConsumeFailsAt<T>(s: System<T>, who: nat, topic: string)
    requires Inv(s)
    ensures who !in s.calls ==>
      (Failed(QueueClosed) in Step(s, ReceiveLookup(who, TryConsuming, topic)).1 <==> s.store.closed)
    ensures who in s.calls && s.calls[who].Receive? && s.calls[who].kind == TryConsuming ==>
      (Failed(QueueClosed) in Step(s, RecvClosed(who)).1
       <==> s.store.closed && Waiting(s.store, s.calls[who].topic) == [])
      && Step(s, Cancel(who)).1 == [Failed(ContextDone)]
  {
  }
}
