/**
  The map cache of cache/mcache, whose expired entries disappear only when an
  operation happens to look at them, against a history in which nothing is ever evicted.

  Every operation takes the time it reads from the clock; each map operation is one
  critical section. The error results, which are always nil, are not modelled.
 */
module MCache {
  import opened Common

  /** The two maps of the cache. */
  datatype Cache<K, S> = Cache(store: map<K, S>, expiration: map<K, int>)

  predicate Expired<K, S>(c: Cache<K, S>, key: K, now: int) {
    key in c.expiration && now > c.expiration[key]
  }

  function Lookup<K, S>(c: Cache<K, S>, key: K): Option<S> {
    if key in c.store then Some(c.store[key]) else None
  }

  function Evict<K, S>(c: Cache<K, S>, keys: set<K>): Cache<K, S> {
    Cache(c.store - keys, c.expiration - keys)
  }

  function ExpiredKeys<K, S>(c: Cache<K, S>, now: int): set<K> {
    set k | k in c.expiration && Expired(c, k, now)
  }

  function Constant<K, T>(keys: set<K>, value: T): map<K, T> {
    map k | k in keys :: value
  }

  /** Writes all of `vals` with one deadline; a negative lifetime means none. */
  function Write<K, S>(c: Cache<K, S>, vals: map<K, S>, deadline: Option<int>): Cache<K, S> {
    Cache(c.store + vals,
          if deadline.Some? then c.expiration + Constant(vals.Keys, deadline.value)
          else c.expiration - vals.Keys)
  }

  function Deadline(ttl: int, now: int): Option<int> {
    if ttl >= 0 then Some(now + ttl) else None
  }

  function Getting<K, S>(c: Cache<K, S>, key: K, now: int): (Cache<K, S>, Option<S>) {
    if Expired(c, key, now) then (Evict(c, {key}), None) else (c, Lookup(c, key))
  }

  function Elements<T>(s: seq<T>): set<T> {
    set x | x in s
  }

  /** The entries of `keys` that have not expired. */
  function Fresh<K, S>(c: Cache<K, S>, keys: set<K>, now: int): map<K, S> {
    map k | k in keys && k in c.store && !Expired(c, k, now) :: c.store[k]
  }

  /** `Put` is Set, SetWithTTL, MultiSet and MultiSetWithTTL; `Remove` is Del and MultiDel. */
  datatype Op<K, S> =
    | Put(vals: map<K, S>, ttl: Option<int>)
    | Get(key: K)
    | GetDel(key: K)
    | MultiGet(keys: seq<K>)
    | Exists(key: K)
    | Remove(removed: set<K>)
    | DelAll
    | Count
    | Trim

  datatype Event<K, S> = Event(op: Op<K, S>, at: int)

  datatype Response<K, S> = Value(value: Option<S>) | Values(values: map<K, S>) | Size(size: nat) | Found(found: bool) | Done

  /** The deadline that a write made at `at` gives its entries. */
  function DeadlineAt(ttl: Option<int>, at: int): Option<int> {
    if ttl.Some? then Deadline(ttl.value, at) else None
  }

  /** What the operations of the class do to the cache. */
  function Next<K, S>(c: Cache<K, S>, e: Event<K, S>): Cache<K, S> {
    match e.op
    case Put(vals, ttl) => Write(c, vals, DeadlineAt(ttl, e.at))
    case Get(key) => Getting(c, key, e.at).0
    case GetDel(key) => if key in c.store || Expired(c, key, e.at) then Evict(c, {key}) else c
    case MultiGet(keys) => Evict(c, ExpiredKeys(c, e.at) * Elements(keys))
    case Exists(key) => Getting(c, key, e.at).0
    case Remove(removed) => Evict(c, removed)
    case DelAll => Cache(map[], map[])
    case Count => Evict(c, ExpiredKeys(c, e.at))
    case Trim => Evict(c, ExpiredKeys(c, e.at))
  }

  /** And what they answer. */
  function Answer<K, S>(c: Cache<K, S>, e: Event<K, S>): Response<K, S> {
    match e.op
    case Get(key) => Value(Getting(c, key, e.at).1)
    case GetDel(key) => Value(Getting(c, key, e.at).1)
    case MultiGet(keys) => Values(Fresh(c, Elements(keys), e.at))
    case Exists(key) => Found(Getting(c, key, e.at).1.Some?)
    case Count => Size(|Evict(c, ExpiredKeys(c, e.at)).store|)
    case _ => Done
  }

  lemma ElementsSnoc<T>(s: seq<T>, i: nat)
    requires i < |s|
    ensures Elements(s[..i + 1]) == Elements(s[..i]) + {s[i]}
  {
    assert s[..i + 1] == s[..i] + [s[i]];
  }

  lemma WriteTwice<K, S>(c: Cache<K, S>, done: map<K, S>, key: K, val: S, deadline: Option<int>)
    ensures Write(Write(c, done, deadline), map[key := val], deadline) == Write(c, done[key := val], deadline)
  {
    MergeTwice(c.store, done, key, val);
    var one: map<K, S> := map[key := val];
    assert one.Keys == {key} && done[key := val].Keys == done.Keys + {key};
    if deadline.Some? {
      var t := deadline.value;
      MergeTwice(c.expiration, Constant(done.Keys, t), key, t);
      assert Constant(one.Keys, t) == map[key := t];
      assert Constant(done.Keys + {key}, t) == Constant(done.Keys, t)[key := t];
    } else {
      assert c.expiration - done.Keys - {key} == c.expiration - (done.Keys + {key});
    }
  }

  lemma MergeTwice<K, T>(m: map<K, T>, done: map<K, T>, key: K, val: T)
    ensures m + done + map[key := val] == m + done[key := val]
  {
  }

  lemma WriteOne<K, S>(c: Cache<K, S>, key: K, val: S, deadline: Option<int>)
    ensures Write(c, map[key := val], deadline)
            == Cache(c.store[key := val],
                     if deadline.Some? then c.expiration[key := deadline.value] else c.expiration - {key})
  {
    var one: map<K, S> := map[key := val];
    assert one.Keys == {key};
    if deadline.Some? { assert Constant(one.Keys, deadline.value) == map[key := deadline.value]; }
  }

  lemma WriteNothing<K, S>(c: Cache<K, S>, deadline: Option<int>)
    ensures Write(c, map[], deadline) == c
  {
    var none: map<K, S> := map[];
    assert c.store + none == c.store && none.Keys == {};
    if deadline.Some? { assert c.expiration + Constant(none.Keys, deadline.value) == c.expiration; }
  }

  /** One round of the loops that write a map: `keys` are still to be written. */
  lemma WriteNext<K, S>(c: Cache<K, S>, vals: map<K, S>, keys: set<K>, key: K, deadline: Option<int>)
    requires keys <= vals.Keys && key in keys
    ensures var c' := Write(c, vals - keys, deadline);
      Write(c, vals - (keys - {key}), deadline)
      == Cache(c'.store[key := vals[key]],
               if deadline.Some? then c'.expiration[key := deadline.value] else c'.expiration - {key})
  {
    WriteTwice(c, vals - keys, key, vals[key], deadline);
    assert (vals - keys)[key := vals[key]] == vals - (keys - {key});
    WriteOne(Write(c, vals - keys, deadline), key, vals[key], deadline);
  }

  lemma EvictTwice<K, S>(c: Cache<K, S>, a: set<K>, b: set<K>)
    ensures Evict(Evict(c, a), b) == Evict(c, a + b)
  {
  }

  lemma NothingEvicted<K, S>(c: Cache<K, S>)
    ensures Evict(c, {}) == c
  {
  }

  /** Looking at one more key evicts it if it has expired. */
  lemma EvictNext<K, S>(c: Cache<K, S>, looked: set<K>, key: K, now: int)
    ensures var c' := Evict(c, ExpiredKeys(c, now) * looked);
      Evict(c, ExpiredKeys(c, now) * (looked + {key})) == if Expired(c', key, now) then Evict(c', {key}) else c'
  {
    var expired := ExpiredKeys(c, now);
    if key in expired {
      assert expired * (looked + {key}) == expired * looked + {key};
      EvictTwice(c, expired * looked, {key});
    } else {
      assert expired * (looked + {key}) == expired * looked;
    }
  }

  /** The cache during a sweep, when the expiration times of `keys` are still to be checked. */
  ghost function Swept<K, S>(c: Cache<K, S>, keys: set<K>, now: int): Cache<K, S> {
    Evict(c, ExpiredKeys(c, now) * (c.expiration.Keys - keys))
  }

  lemma SweepStarts<K, S>(c: Cache<K, S>, now: int)
    ensures Swept(c, c.expiration.Keys, now) == c
  {
    assert ExpiredKeys(c, now) * (c.expiration.Keys - c.expiration.Keys) == {};
    NothingEvicted(c);
  }

  lemma SweepNext<K, S>(c: Cache<K, S>, keys: set<K>, key: K, now: int)
    requires key in keys
    ensures var c' := Swept(c, keys, now);
      Swept(c, keys - {key}, now) == if Expired(c', key, now) then Evict(c', {key}) else c'
  {
    var all, expired := c.expiration.Keys, ExpiredKeys(c, now);
    EvictNext(c, all - keys, key, now);
    assert expired * (all - (keys - {key})) == expired * (all - keys + {key});
  }

  lemma SweepEnds<K, S>(c: Cache<K, S>, now: int)
    ensures Swept(c, {}, now) == Evict(c, ExpiredKeys(c, now))
  {
    assert ExpiredKeys(c, now) * (c.expiration.Keys - {}) == ExpiredKeys(c, now);
  }

  /** And its value is found exactly when it has not expired. */
  lemma FreshNext<K, S>(c: Cache<K, S>, looked: set<K>, key: K, now: int)
    ensures var c' := Evict(c, ExpiredKeys(c, now) * looked);
      Fresh(c, looked + {key}, now)
      == if !Expired(c', key, now) && key in c'.store then Fresh(c, looked, now)[key := c'.store[key]]
         else Fresh(c, looked, now)
  {
  }

  // ------------------------------------------------------------ implementation

  class Map<K(==), S> {
    var store: map<K, S>
    var expiration: map<K, int>

    ghost function State(): Cache<K, S>
      reads this
    {
      Cache(store, expiration)
    }

    constructor ()
      ensures State() == Cache(map[], map[])
    {
      store, expiration := map[], map[];
    }

    method Set(key: K, val: S)
      modifies this
      ensures State() == Next(old(State()), Event(Put(map[key := val], None), 0))
    {
      WriteOne(State(), key, val, None);
      store := store[key := val];
      expiration := expiration - {key};
    }

    method SetWithTTL(key: K, val: S, ttl: int, now: int)
      modifies this
      ensures State() == Next(old(State()), Event(Put(map[key := val], Some(ttl)), now))
    {
      WriteOne(State(), key, val, Deadline(ttl, now));
      store := store[key := val];
      if ttl >= 0 {
        expiration := expiration[key := now + ttl];
      } else {
        expiration := expiration - {key};
      }
    }

    method MultiSet(valMap: map<K, S>)
      modifies this
      ensures State() == Next(old(State()), Event(Put(valMap, None), 0))
    {
      var keys := valMap.Keys;
      assert valMap - keys == map[];
      WriteNothing(State(), None);
      while keys != {}
        invariant keys <= valMap.Keys
        invariant State() == Write(old(State()), valMap - keys, None)
        decreases |keys|
      {
        var key :| key in keys;
        WriteNext(old(State()), valMap, keys, key, None);
        store := store[key := valMap[key]];
        expiration := expiration - {key};
        keys := keys - {key};
      }
      assert valMap - keys == valMap;
    }

    method MultiSetWithTTL(valMap: map<K, S>, ttl: int, now: int)
      modifies this
      ensures State() == Next(old(State()), Event(Put(valMap, Some(ttl)), now))
    {
      var keys := valMap.Keys;
      assert valMap - keys == map[];
      WriteNothing(State(), Deadline(ttl, now));
      while keys != {}
        invariant keys <= valMap.Keys
        invariant State() == Write(old(State()), valMap - keys, Deadline(ttl, now))
        decreases |keys|
      {
        var key :| key in keys;
        WriteNext(old(State()), valMap, keys, key, Deadline(ttl, now));
        store := store[key := valMap[key]];
        if ttl >= 0 {
          expiration := expiration[key := now + ttl];
        } else {
          expiration := expiration - {key};
        }
        keys := keys - {key};
      }
      assert valMap - keys == valMap;
    }

    method Get(key: K, now: int) returns (val: Option<S>)
      modifies this
      ensures State() == Next(old(State()), Event(Op.Get(key), now))
      ensures Value(val) == Answer(old(State()), Event(Op.Get(key), now))
    {
      if key in expiration && now > expiration[key] {
        store := store - {key};
        expiration := expiration - {key};
        return None;
      }
      return if key in store then Some(store[key]) else None;
    }

    method GetDel(key: K, now: int) returns (val: Option<S>)
      modifies this
      ensures State() == Next(old(State()), Event(Op.GetDel(key), now))
      ensures Value(val) == Answer(old(State()), Event(Op.GetDel(key), now))
    {
      if key in expiration && now > expiration[key] {
        store := store - {key};
        expiration := expiration - {key};
        return None;
      }
      val := None;
      if key in store {
        val := Some(store[key]);
        store := store - {key};
        expiration := expiration - {key};
      }
    }

    method MultiGet(keys: seq<K>, now: int) returns (result: map<K, S>)
      modifies this
      ensures State() == Next(old(State()), Event(Op.MultiGet(keys), now))
      ensures Values(result) == Answer(old(State()), Event(Op.MultiGet(keys), now))
    {
      result := map[];
      for i := 0 to |keys|
        invariant State() == Evict(old(State()), ExpiredKeys(old(State()), now) * Elements(keys[..i]))
        invariant result == Fresh(old(State()), Elements(keys[..i]), now)
      {
        var key := keys[i];
        ElementsSnoc(keys, i);
        EvictNext(old(State()), Elements(keys[..i]), key, now);
        FreshNext(old(State()), Elements(keys[..i]), key, now);
        if key in expiration && now > expiration[key] {
          store := store - {key};
          expiration := expiration - {key};
          continue;
        }
        if key in store {
          result := result[key := store[key]];
        }
      }
      assert keys[..|keys|] == keys;
    }

    method Del(key: K)
      modifies this
      ensures State() == Next(old(State()), Event(Remove({key}), 0))
    {
      store := store - {key};
      expiration := expiration - {key};
    }

    method MultiDel(keys: seq<K>)
      modifies this
      ensures State() == Next(old(State()), Event(Remove(Elements(keys)), 0))
    {
      for i := 0 to |keys|
        invariant State() == Evict(old(State()), Elements(keys[..i]))
      {
        ElementsSnoc(keys, i);
        EvictTwice(old(State()), Elements(keys[..i]), {keys[i]});
        store := store - {keys[i]};
        expiration := expiration - {keys[i]};
      }
      assert keys[..|keys|] == keys;
    }

    method DelAll()
      modifies this
      ensures State() == Next(old(State()), Event(Op.DelAll, 0))
    {
      store, expiration := map[], map[];
    }

    method Count(now: int) returns (count: nat)
      modifies this
      ensures State() == Next(old(State()), Event(Op.Count, now))
      ensures Size(count) == Answer(old(State()), Event(Op.Count, now))
    {
      var keys := expiration.Keys;
      SweepStarts(State(), now);
      while keys != {}
        invariant State() == Swept(old(State()), keys, now)
        decreases |keys|
      {
        var key :| key in keys;
        SweepNext(old(State()), keys, key, now);
        if key in expiration && now > expiration[key] {
          store := store - {key};
          expiration := expiration - {key};
        }
        keys := keys - {key};
      }
      SweepEnds(old(State()), now);
      return |store|;
    }

    method Trim(now: int)
      modifies this
      ensures State() == Next(old(State()), Event(Op.Trim, now))
    {
      var count := Count(now);
    }

    method Exists(key: K, now: int) returns (found: bool)
      modifies this
      ensures State() == Next(old(State()), Event(Op.Exists(key), now))
      ensures Found(found) == Answer(old(State()), Event(Op.Exists(key), now))
    {
      var val := Get(key, now);
      return val.Some?;
    }
  }

  // ---------------------------------------------------------- the write history

  ghost function After<K, S>(h: seq<Event<K, S>>): Cache<K, S> {
    if h == [] then Cache(map[], map[]) else Next(After(h[..|h| - 1]), h[|h| - 1])
  }

  /** A write as it was made: no lifetime, or a negative one, means for ever. */
  datatype Entry<S> = Entry(value: S, ttl: Option<int>, at: int)
  {
    predicate Mortal() {
      ttl.Some? && ttl.value >= 0
    }

    /** The write's lifetime is over: more time than that has passed. */
    predicate Over(now: int) {
      Mortal() && now - at > ttl.value
    }
  }

  /** The last write of `key` that has not been deleted. Reads leave it alone. */
  ghost function LastWrite<K, S>(h: seq<Event<K, S>>, key: K): Option<Entry<S>> {
    if h == [] then None
    else
      var e, earlier := h[|h| - 1], LastWrite(h[..|h| - 1], key);
      match e.op
      case Put(vals, ttl) => if key in vals then Some(Entry(vals[key], ttl, e.at)) else earlier
      case GetDel(k) => if k == key then None else earlier
      case Remove(removed) => if key in removed then None else earlier
      case DelAll => None
      case _ => earlier
  }

  /** The value a reader of an ideal cache sees at `now`. */
  ghost function Visible<K, S>(h: seq<Event<K, S>>, key: K, now: int): Option<S> {
    match LastWrite(h, key)
    case None => None
    case Some(w) => if w.Over(now) then None else Some(w.value)
  }

  ghost function WrittenKeys<K, S>(h: seq<Event<K, S>>): set<K> {
    if h == [] then {}
    else WrittenKeys(h[..|h| - 1]) + if h[|h| - 1].op.Put? then h[|h| - 1].op.vals.Keys else {}
  }

  ghost function LiveKeys<K, S>(h: seq<Event<K, S>>, now: int): set<K> {
    set k | k in WrittenKeys(h) && Visible(h, k, now).Some?
  }

  /** What an ideal cache, which never evicts anything, answers after `h`. */
  ghost function Expected<K, S>(h: seq<Event<K, S>>, e: Event<K, S>): Response<K, S> {
    match e.op
    case Get(key) => Value(Visible(h, key, e.at))
    case GetDel(key) => Value(Visible(h, key, e.at))
    case MultiGet(keys) => Values(map k | k in keys && Visible(h, k, e.at).Some? :: Visible(h, k, e.at).value)
    case Exists(key) => Found(Visible(h, key, e.at).Some?)
    case Count => Size(|LiveKeys(h, e.at)|)
    case _ => Done
  }

  ghost predicate ClockMovesForward<K, S>(h: seq<Event<K, S>>) {
    forall i, j :: 0 <= i < j < |h| ==> h[i].at <= h[j].at
  }

  // ------------------------------------------------------------------ refinement

  ghost function DeadlineOf<K, S>(c: Cache<K, S>, key: K): Option<int> {
    if key in c.expiration then Some(c.expiration[key]) else None
  }

  /** The cache holds the last write, or has dropped it after its deadline. */
  ghost predicate KeyAgrees<K, S>(c: Cache<K, S>, last: Option<Entry<S>>, key: K, clock: int) {
    && (key in c.expiration ==> key in c.store)
    && match last
       case None => key !in c.store
       case Some(w) =>
         if key in c.store then
           c.store[key] == w.value && DeadlineOf(c, key) == if w.Mortal() then Some(w.at + w.ttl.value) else None
         else w.Over(clock)
  }

  lemma ReadAgrees<K, S>(c: Cache<K, S>, h: seq<Event<K, S>>, key: K, clock: int, now: int)
    requires KeyAgrees(c, LastWrite(h, key), key, clock) && clock <= now
    ensures Getting(c, key, now).1 == Visible(h, key, now)
    ensures key in c.store && !Expired(c, key, now) <==> Visible(h, key, now).Some?
    ensures Visible(h, key, now).Some? ==> c.store[key] == Visible(h, key, now).value
  {
  }

  lemma StepAgrees<K, S>(h: seq<Event<K, S>>, key: K, clock: int)
    requires h != [] && clock <= h[|h| - 1].at
    requires KeyAgrees(After(h[..|h| - 1]), LastWrite(h[..|h| - 1], key), key, clock)
    ensures KeyAgrees(After(h), LastWrite(h, key), key, h[|h| - 1].at)
  {
    var e, c := h[|h| - 1], After(h[..|h| - 1]);
    match e.op {
      case Put(vals, ttl) => WriteAgrees(c, LastWrite(h[..|h| - 1], key), key, clock, vals, ttl, e.at);
      case _ =>
    }
  }

  lemma WriteAgrees<K, S>(c: Cache<K, S>, last: Option<Entry<S>>, key: K, clock: int,
                          vals: map<K, S>, ttl: Option<int>, now: int)
    requires KeyAgrees(c, last, key, clock) && clock <= now
    ensures KeyAgrees(Write(c, vals, DeadlineAt(ttl, now)),
                      if key in vals then Some(Entry(vals[key], ttl, now)) else last, key, now)
  {
  }

  lemma {:induction false} RunAgrees<K, S>(h: seq<Event<K, S>>, key: K, clock: int)
    requires ClockMovesForward(h) && (h != [] ==> h[|h| - 1].at <= clock)
    ensures KeyAgrees(After(h), LastWrite(h, key), key, clock)
  {
    if h != [] {
      var n := |h| - 1;
      var start := if n == 0 then h[n].at else h[n - 1].at;
      assert n > 0 ==> h[..n][n - 1] == h[n - 1];
      RunAgrees(h[..n], key, start);
      StepAgrees(h, key, start);
    }
  }

  lemma {:induction false} StoredWasWritten<K, S>(h: seq<Event<K, S>>, key: K)
    ensures LastWrite(h, key).Some? ==> key in WrittenKeys(h)
  {
    if h != [] {
      StoredWasWritten(h[..|h| - 1], key);
    }
  }

  /** What is left after a sweep is exactly what is live. */
  lemma CountAgrees<K(!new), S>(h: seq<Event<K, S>>, now: int)
    requires ClockMovesForward(h) && (h != [] ==> h[|h| - 1].at <= now)
    ensures Evict(After(h), ExpiredKeys(After(h), now)).store.Keys == LiveKeys(h, now)
  {
    var c := After(h);
    forall k: K ensures k in Evict(c, ExpiredKeys(c, now)).store <==> k in LiveKeys(h, now) {
      RunAgrees(h, k, now);
      ReadAgrees(c, h, k, now, now);
      StoredWasWritten(h, k);
    }
  }

  /**
    Lazy eviction cannot be observed: after any operations at non-decreasing times, every
    operation answers what a cache that never evicts anything would answer.
   */
  lemma EvictionIsInvisible<K(!new), S>(h: seq<Event<K, S>>, e: Event<K, S>)
    requires ClockMovesForward(h + [e])
    ensures Answer(After(h), e) == Expected(h, e)
  {
    var c, now := After(h), e.at;
    assert (h + [e])[|h|] == e && forall i :: 0 <= i < |h| ==> (h + [e])[i] == h[i];
    match e.op {
      case Get(key) => SingleReadAgrees(h, key, now);
      case GetDel(key) => SingleReadAgrees(h, key, now);
      case Exists(key) => SingleReadAgrees(h, key, now);
      case MultiGet(keys) => MultiGetExpected(h, keys, now);
      case Count =>
        CountAgrees(h, now);
        KeysCount(Evict(c, ExpiredKeys(c, now)).store);
      case _ =>
    }
  }

  lemma SingleReadAgrees<K(!new), S>(h: seq<Event<K, S>>, key: K, now: int)
    requires ClockMovesForward(h) && (h != [] ==> h[|h| - 1].at <= now)
    ensures Getting(After(h), key, now).1 == Visible(h, key, now)
  {
    RunAgrees(h, key, now);
    ReadAgrees(After(h), h, key, now, now);
  }

  lemma MultiGetAgrees<K(!new), S>(h: seq<Event<K, S>>, keys: set<K>, now: int)
    requires ClockMovesForward(h) && (h != [] ==> h[|h| - 1].at <= now)
    ensures Fresh(After(h), keys, now)
            == map k | k in keys && Visible(h, k, now).Some? :: Visible(h, k, now).value
  {
    var c := After(h);
    forall k: K | k in keys
      ensures k in c.store && !Expired(c, k, now) <==> Visible(h, k, now).Some?
      ensures Visible(h, k, now).Some? ==> c.store[k] == Visible(h, k, now).value
    {
      RunAgrees(h, k, now);
      ReadAgrees(c, h, k, now, now);
    }
  }

  lemma MultiGetExpected<K(!new), S>(h: seq<Event<K, S>>, keys: seq<K>, now: int)
    requires ClockMovesForward(h) && (h != [] ==> h[|h| - 1].at <= now)
    ensures Answer(After(h), Event(Op.MultiGet(keys), now)) == Expected(h, Event(Op.MultiGet(keys), now))
  {
    MultiGetAgrees(h, Elements(keys), now);
    assert (map k | k in Elements(keys) && Visible(h, k, now).Some? :: Visible(h, k, now).value)
        == (map k | k in keys && Visible(h, k, now).Some? :: Visible(h, k, now).value);
  }

  lemma KeysCount<K, T>(m: map<K, T>)
    ensures |m| == |m.Keys|
  {
  }

  /** Every key with an expiration time has an entry. */
  lemma ExpirationsHaveEntries<K(!new), S>(h: seq<Event<K, S>>)
    requires ClockMovesForward(h)
    ensures After(h).expiration.Keys <= After(h).store.Keys
  {
    forall k: K ensures k in After(h).expiration ==> k in After(h).store {
      RunAgrees(h, k, if h == [] then 0 else h[|h| - 1].at);
    }
  }

  /** Count and Trim free the memory: afterwards exactly the live keys are stored. */
  lemma SweepFrees<K(!new), S>(h: seq<Event<K, S>>, e: Event<K, S>)
    requires ClockMovesForward(h + [e]) && (e.op == Op.Count || e.op == Op.Trim)
    ensures After(h + [e]).store.Keys == LiveKeys(h, e.at)
  {
    assert (h + [e])[|h|] == e && forall i :: 0 <= i < |h| ==> (h + [e])[i] == h[i];
    assert (h + [e])[..|h|] == h;
    CountAgrees(h, e.at);
  }

  /** The keys that a reading operation looks at. */
  function Looked<K, S>(op: Op<K, S>): set<K> {
    match op
    case Get(key) => {key}
    case GetDel(key) => {key}
    case Exists(key) => {key}
    case MultiGet(keys) => set k | k in keys
    case _ => {}
  }

  predicate Reads<K, S>(op: Op<K, S>) {
    op.Get? || op.GetDel? || op.Exists? || op.MultiGet?
  }

  /**
    A read frees the keys that it looks at and finds expired, GetDel also the one that it
    finds, and it leaves every other key as it is.
   */
  lemma ReadFrees<K(!new), S>(h: seq<Event<K, S>>, e: Event<K, S>, key: K)
    requires ClockMovesForward(h + [e]) && Reads(e.op)
    ensures var c, c' := After(h), After(h + [e]);
      if key in Looked(e.op) && (Visible(h, key, e.at).None? || e.op.GetDel?) then
        key !in c'.store && key !in c'.expiration
      else Lookup(c', key) == Lookup(c, key) && DeadlineOf(c', key) == DeadlineOf(c, key)
  {
    assert (h + [e])[|h|] == e && forall i :: 0 <= i < |h| ==> (h + [e])[i] == h[i];
    assert (h + [e])[..|h|] == h;
    RunAgrees(h, key, e.at);
    ReadAgrees(After(h), h, key, e.at, e.at);
  }
}
