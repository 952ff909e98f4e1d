/**
  The verification-code store of utils/exp/captcha: codes with a lifetime, and two
  rate limits per number kept as a count and the time of the last send.

  Every operation takes the time it reads from the clock; times are in nanoseconds.
 */
module Captcha {
  import opened Digits

  const DEFAULT_MINUTE_LIMIT := 1
  const DEFAULT_DAILY_LIMIT := 100
  const SECOND := 1_000_000_000
  const MINUTE := 60 * SECOND
  const DAY := 24 * 60 * MINUTE

  datatype Config = Config(minuteLimit: int, dailyLimit: int)

  datatype VerificationCode = VerificationCode(code: string, expiresAt: int)

  datatype Storage = Storage(
    codes: map<string, seq<VerificationCode>>,
    minuteCounts: map<string, int>, dailyCounts: map<string, int>,
    minuteTimestamps: map<string, int>, dailyTimestamps: map<string, int>)

  datatype Outcome = Accepted | MinuteLimitExceeded | DailyLimitExceeded

  // ------------------------------------------------------------- specification

  function Unexpired(codes: seq<VerificationCode>, now: int): seq<VerificationCode> {
    if codes == [] then []
    else
      var last := codes[|codes| - 1];
      Unexpired(codes[..|codes| - 1], now) + if last.expiresAt > now then [last] else []
  }

  function Cleaned(s: Storage, number: string, now: int): Storage {
    if number in s.codes then s.(codes := s.codes[number := Unexpired(s.codes[number], now)]) else s
  }

  function CleanedAll(s: Storage, now: int): Storage {
    s.(codes := map number | number in s.codes :: Unexpired(s.codes[number], now))
  }

  /** Go's map lookup with its zero value. */
  function Get(m: map<string, int>, key: string): int {
    if key in m then m[key] else 0
  }

  /** True when a limit forbids a send; `count` is absent before the first one. */
  predicate Blocked(counts: map<string, int>, times: map<string, int>, number: string,
                    limit: int, window: int, now: int) {
    number in counts && counts[number] >= limit && now - Get(times, number) < window
  }

  /** The counts once a send is allowed: a full batch starts over. */
  function Restarted(counts: map<string, int>, number: string, limit: int): map<string, int> {
    if number in counts && counts[number] >= limit then counts[number := 0] else counts
  }

  /** Records a send that both limits allow. */
  function Sending(s: Storage, number: string, code: string, ttl: int, now: int): Storage {
    var kept := if number in s.codes then s.codes[number] else [];
    Storage(s.codes[number := kept + [VerificationCode(code, now + ttl)]],
            s.minuteCounts[number := Get(s.minuteCounts, number) + 1],
            s.dailyCounts[number := Get(s.dailyCounts, number) + 1],
            s.minuteTimestamps[number := now],
            s.dailyTimestamps[number := now])
  }

  function Saving(conf: Config, s: Storage, number: string, code: string, ttl: int, now: int)
    : (Storage, Outcome)
  {
    var clean := Cleaned(s, number, now);
    if Blocked(s.minuteCounts, s.minuteTimestamps, number, conf.minuteLimit, MINUTE, now) then
      (clean, MinuteLimitExceeded)
    else
      var ready := clean.(minuteCounts := Restarted(s.minuteCounts, number, conf.minuteLimit));
      if Blocked(s.dailyCounts, s.dailyTimestamps, number, conf.dailyLimit, DAY, now) then
        (ready, DailyLimitExceeded)
      else
        var restarted := ready.(dailyCounts := Restarted(s.dailyCounts, number, conf.dailyLimit));
        (Sending(restarted, number, code, ttl, now), Accepted)
  }

  predicate Holds(codes: seq<VerificationCode>, code: string) {
    exists i :: 0 <= i < |codes| && codes[i].code == code
  }

  function VerifyResult(s: Storage, number: string, code: string, now: int): bool {
    var clean := Cleaned(s, number, now);
    number in clean.codes && Holds(clean.codes[number], code)
  }

  // ------------------------------------------------------------ implementation

  class VerificationSystem {
    const config: Config
    var codes: map<string, seq<VerificationCode>>
    var minuteCounts: map<string, int>
    var dailyCounts: map<string, int>
    var minuteTimestamps: map<string, int>
    var dailyTimestamps: map<string, int>

    ghost function State(): Storage
      reads this
    {
      Storage(codes, minuteCounts, dailyCounts, minuteTimestamps, dailyTimestamps)
    }

    constructor (conf: Config)
      ensures config.minuteLimit == if conf.minuteLimit == 0 then DEFAULT_MINUTE_LIMIT else conf.minuteLimit
      ensures config.dailyLimit == if conf.dailyLimit == 0 then DEFAULT_DAILY_LIMIT else conf.dailyLimit
      ensures State() == Storage(map[], map[], map[], map[], map[])
    {
      config := Config(if conf.minuteLimit == 0 then DEFAULT_MINUTE_LIMIT else conf.minuteLimit,
                       if conf.dailyLimit == 0 then DEFAULT_DAILY_LIMIT else conf.dailyLimit);
      codes := map[];
      minuteCounts, dailyCounts := map[], map[];
      minuteTimestamps, dailyTimestamps := map[], map[];
    }

    method CleanExpiredFor(number: string, now: int)
      modifies this`codes
      ensures State() == Cleaned(old(State()), number, now)
    {
      if number in codes {
        var captchas, valid := codes[number], [];
        for i := 0 to |captchas|
          invariant valid == Unexpired(captchas[..i], now)
        {
          assert captchas[..i + 1][..i] == captchas[..i];
          if captchas[i].expiresAt > now {
            valid := valid + [captchas[i]];
          }
        }
        assert captchas[..|captchas|] == captchas;
        codes := codes[number := valid];
      }
    }

    method SaveCode(number: string, code: string, expiresIn: int, now: int) returns (outcome: Outcome)
      modifies this
      ensures (State(), outcome) == Saving(config, old(State()), number, code, expiresIn, now)
    {
      CleanExpiredFor(number, now);
      if number in minuteCounts {
        if minuteCounts[number] >= config.minuteLimit {
          var lastSent := Get(minuteTimestamps, number);
          if now - lastSent < MINUTE {
            return MinuteLimitExceeded;
          } else {
            minuteCounts := minuteCounts[number := 0];
          }
        }
      }
      if number in dailyCounts {
        if dailyCounts[number] >= config.dailyLimit {
          var lastSent := Get(dailyTimestamps, number);
          if now - lastSent < DAY {
            return DailyLimitExceeded;
          } else {
            dailyCounts := dailyCounts[number := 0];
          }
        }
      }
      Send(number, code, expiresIn, now);
      return Accepted;
    }

    /** The tail of SaveCode, once both limits have been passed. */
    method Send(number: string, code: string, expiresIn: int, now: int)
      modifies this
      ensures State() == Sending(old(State()), number, code, expiresIn, now)
    {
      minuteCounts := minuteCounts[number := Get(minuteCounts, number) + 1];
      dailyCounts := dailyCounts[number := Get(dailyCounts, number) + 1];
      minuteTimestamps := minuteTimestamps[number := now];
      dailyTimestamps := dailyTimestamps[number := now];
      var newCaptcha := VerificationCode(code, now + expiresIn);
      var kept := if number in codes then codes[number] else [];
      codes := codes[number := kept + [newCaptcha]];
    }

    method Verify(number: string, code: string, now: int) returns (found: bool)
      modifies this`codes
      ensures State() == Cleaned(old(State()), number, now)
      ensures found == VerifyResult(old(State()), number, code, now)
    {
      CleanExpiredFor(number, now);
      if number in codes {
        var captchas := codes[number];
        for i := 0 to |captchas|
          invariant forall j :: 0 <= j < i ==> captchas[j].code != code
        {
          if captchas[i].code == code {
            return true;
          }
        }
      }
      return false;
    }

    method CleanExpired(now: int)
      modifies this`codes
      ensures State() == CleanedAll(old(State()), now)
    {
      var numbers := codes.Keys;
      ghost var done: set<string> := {};
      while numbers != {}
        invariant numbers !! done && numbers + done == old(codes).Keys == codes.Keys
        invariant forall n :: n in done ==> codes[n] == Unexpired(old(codes)[n], now)
        invariant forall n :: n in numbers ==> codes[n] == old(codes)[n]
        invariant State() == old(State()).(codes := codes)
        decreases |numbers|
      {
        var number :| number in numbers;
        CleanExpiredFor(number, now);
        numbers, done := numbers - {number}, done + {number};
      }
    }
  }

  // ----------------------------------------------------------------- whole runs

  datatype Op =
    | Save(number: string, code: string, ttl: int, at: int)
    | Verify(number: string, code: string, at: int)
    | CleanExpired(at: int)

  const EMPTY := Storage(map[], map[], map[], map[], map[])

  function Step(conf: Config, s: Storage, op: Op): Storage {
    match op
    case Save(number, code, ttl, at) => Saving(conf, s, number, code, ttl, at).0
    case Verify(number, code, at) => Cleaned(s, number, at)
    case CleanExpired(at) => CleanedAll(s, at)
  }

  /** The storage after a run of operations. */
  function After(conf: Config, ops: seq<Op>): Storage {
    if ops == [] then EMPTY else Step(conf, After(conf, ops[..|ops| - 1]), ops[|ops| - 1])
  }

  /** The last operation is a send to `number` that was accepted. */
  predicate LastAccepted(conf: Config, ops: seq<Op>, number: string) {
    && ops != []
    && var op := ops[|ops| - 1];
    && op.Save? && op.number == number
    && Saving(conf, After(conf, ops[..|ops| - 1]), number, op.code, op.ttl, op.at).1 == Accepted
  }

  /** The sends to `number` that were accepted, oldest first. */
  function AcceptedSends(conf: Config, ops: seq<Op>, number: string): seq<Op> {
    if ops == [] then []
    else AcceptedSends(conf, ops[..|ops| - 1], number)
         + if LastAccepted(conf, ops, number) then [ops[|ops| - 1]] else []
  }

  function Times(sends: seq<Op>): (times: seq<int>)
    ensures |times| == |sends| && forall i :: 0 <= i < |sends| ==> times[i] == sends[i].at
  {
    seq(|sends|, i requires 0 <= i < |sends| => sends[i].at)
  }

  ghost predicate ClockMovesForward(ops: seq<Op>) {
    forall i, j :: 0 <= i < j < |ops| ==> ops[i].at <= ops[j].at
  }

  // ----------------------------------------------------------------- rate limits

  /** Any `limit + 1` consecutive times span at least `window`. */
  ghost predicate Spaced(times: seq<int>, limit: nat, window: int) {
    forall i, j :: 0 <= i && i + limit == j < |times| ==> times[j] - times[i] >= window
  }

  /** A limit below one acts as a limit of one. */
  function Effective(limit: int): nat {
    if limit < 1 then 1 else limit
  }

  /**
    How many of the first `n` accepted sends make up the last batch: a batch that has
    reached the limit is over, and the next send starts a new one.
   */
  function Batch(n: nat, limit: nat): nat {
    if n == 0 then 0
    else
      var before := Batch(n - 1, limit);
      if before == limit then 1 else before + 1
  }

  /** A full batch, said without counting: batches have exactly `limit` sends. */
  predicate BatchIsFull(n: nat, limit: nat)
    requires limit >= 1
  {
    n > 0 && n % limit == 0
  }

  lemma {:induction false} BatchShape(n: nat, limit: nat) returns (batches: nat)
    requires limit >= 1
    ensures n == batches * limit + Batch(n, limit)
    ensures Batch(n, limit) <= limit && (n > 0 ==> Batch(n, limit) >= 1)
  {
    if n == 0 {
      batches := 0;
    } else {
      batches := BatchShape(n - 1, limit);
      if Batch(n - 1, limit) == limit {
        batches := batches + 1;
      }
    }
  }

  lemma FullBatches(n: nat, limit: nat)
    requires limit >= 1
    ensures Batch(n, limit) == limit <==> BatchIsFull(n, limit)
  {
    var batches := BatchShape(n, limit);
    var b := Batch(n, limit);
    if b == limit {
      DivModUnique(n, limit, batches + 1, 0);
    } else {
      DivModUnique(n, limit, batches, b);
    }
  }

  /**
    What a count and a last time say about all the sends so far: the last `count` of them
    are the current batch, and a window has passed before the batch began.
   */
  ghost predicate Limiter(sent: seq<int>, counts: map<string, int>, times: map<string, int>, number: string,
                          limit: int, window: int, clock: int)
  {
    && Spaced(sent, Effective(limit), window)
    && (forall i, j :: 0 <= i < j < |sent| ==> sent[i] <= sent[j])
    && (number in counts <==> sent != [])
    && (number in counts ==>
      var last := sent[|sent| - 1];
      var count := counts[number];
      && number in times && times[number] == last <= clock
      && 0 <= count <= Effective(limit) && count <= |sent|
      && (count == Batch(|sent|, Effective(limit)) || (count == 0 && Batch(|sent|, Effective(limit)) == Effective(limit)))
      && (count == 0 ==> clock - last >= window)
      && (0 < count < |sent| ==> sent[|sent| - count] - sent[|sent| - count - 1] >= window))
  }

  lemma LimiterRestarts(sent: seq<int>, counts: map<string, int>, times: map<string, int>, number: string,
                        limit: int, window: int, clock: int, now: int)
    requires Limiter(sent, counts, times, number, limit, window, clock) && clock <= now
    requires !Blocked(counts, times, number, limit, window, now)
    ensures Limiter(sent, Restarted(counts, number, limit), times, number, limit, window, now)
    ensures number in Restarted(counts, number, limit) ==>
      Restarted(counts, number, limit)[number] < Effective(limit)
  {
  }

  lemma LimiterSends(sent: seq<int>, counts: map<string, int>, times: map<string, int>, number: string,
                     limit: int, window: int, now: int)
    requires Limiter(sent, counts, times, number, limit, window, now)
    requires number in counts ==> counts[number] < Effective(limit)
    ensures Limiter(sent + [now], counts[number := Get(counts, number) + 1], times[number := now], number,
                    limit, window, now)
  {
    NewSendIsSpaced(sent, counts, times, number, limit, window, now);
  }

  /** A send that does not overfill the batch is a window away from the sends before the batch. */
  lemma NewSendIsSpaced(sent: seq<int>, counts: map<string, int>, times: map<string, int>, number: string,
                        limit: int, window: int, now: int)
    requires Limiter(sent, counts, times, number, limit, window, now)
    requires number in counts ==> counts[number] < Effective(limit)
    ensures Spaced(sent + [now], Effective(limit), window)
  {
    var n, i := |sent|, |sent| - Effective(limit);
    if i >= 0 {
      var count := counts[number];
      var boundary := n - count - 1;
      if count > 0 {
        assert sent[i] <= sent[boundary] || i == boundary;
        assert sent[boundary + 1] <= sent[n - 1];
      } else {
        assert sent[i] <= sent[n - 1];
      }
    }
  }

  /** Both limits are described by their counters after every run. */
  ghost predicate RateState(conf: Config, ops: seq<Op>, number: string, clock: int) {
    var s, sent := After(conf, ops), Times(AcceptedSends(conf, ops, number));
    MinuteState(conf, s, number, sent, clock) && DailyState(conf, s, number, sent, clock)
  }

  lemma LimiterIgnoresOthers(sent: seq<int>, counts: map<string, int>, times: map<string, int>,
                             counts': map<string, int>, times': map<string, int>, number: string,
                             limit: int, window: int, clock: int, now: int)
    requires Limiter(sent, counts, times, number, limit, window, clock) && clock <= now
    requires SameEntry(counts, counts', number) && SameEntry(times, times', number)
    ensures Limiter(sent, counts', times', number, limit, window, now)
  {
  }

  lemma {:induction false} RunRateState(conf: Config, ops: seq<Op>, number: string, clock: int)
    requires ClockMovesForward(ops) && (ops != [] ==> ops[|ops| - 1].at <= clock)
    ensures RateState(conf, ops, number, clock)
  {
    if ops != [] {
      var n := |ops| - 1;
      var op, before := ops[n], ops[..n];
      var start := if n == 0 then op.at else ops[n - 1].at;
      assert n > 0 ==> before[n - 1] == ops[n - 1];
      RunRateState(conf, before, number, start);
      StepRateState(conf, ops, number, start);
      RateStateLater(conf, ops, number, op.at, clock);
    }
  }

  lemma RateStateLater(conf: Config, ops: seq<Op>, number: string, clock: int, now: int)
    requires RateState(conf, ops, number, clock) && clock <= now
    ensures RateState(conf, ops, number, now)
  {
    var s, sent := After(conf, ops), Times(AcceptedSends(conf, ops, number));
    LimiterIgnoresOthers(sent, s.minuteCounts, s.minuteTimestamps, s.minuteCounts, s.minuteTimestamps,
                         number, conf.minuteLimit, MINUTE, clock, now);
    LimiterIgnoresOthers(sent, s.dailyCounts, s.dailyTimestamps, s.dailyCounts, s.dailyTimestamps,
                         number, conf.dailyLimit, DAY, clock, now);
  }

  lemma StepRateState(conf: Config, ops: seq<Op>, number: string, clock: int)
    requires ops != [] && clock <= ops[|ops| - 1].at
    requires RateState(conf, ops[..|ops| - 1], number, clock)
    ensures RateState(conf, ops, number, ops[|ops| - 1].at)
  {
    var op, before := ops[|ops| - 1], ops[..|ops| - 1];
    var sends := AcceptedSends(conf, before, number);
    if LastAccepted(conf, ops, number) {
      assert Times(sends + [op]) == Times(sends) + [op.at];
      StepSend(conf, After(conf, before), op, Times(sends), clock);
    } else {
      assert sends + [] == sends;
      StepIdle(conf, After(conf, before), op, number, Times(sends), clock);
    }
  }

  ghost predicate MinuteState(conf: Config, s: Storage, number: string, sent: seq<int>, clock: int) {
    Limiter(sent, s.minuteCounts, s.minuteTimestamps, number, conf.minuteLimit, MINUTE, clock)
  }

  ghost predicate DailyState(conf: Config, s: Storage, number: string, sent: seq<int>, clock: int) {
    Limiter(sent, s.dailyCounts, s.dailyTimestamps, number, conf.dailyLimit, DAY, clock)
  }

  lemma StepSend(conf: Config, s: Storage, op: Op, sent: seq<int>, clock: int)
    requires op.Save? && clock <= op.at
    requires Saving(conf, s, op.number, op.code, op.ttl, op.at).1 == Accepted
    requires MinuteState(conf, s, op.number, sent, clock) && DailyState(conf, s, op.number, sent, clock)
    ensures MinuteState(conf, Step(conf, s, op), op.number, sent + [op.at], op.at)
    ensures DailyState(conf, Step(conf, s, op), op.number, sent + [op.at], op.at)
  {
    LimiterRestarts(sent, s.minuteCounts, s.minuteTimestamps, op.number, conf.minuteLimit, MINUTE, clock, op.at);
    LimiterSends(sent, Restarted(s.minuteCounts, op.number, conf.minuteLimit), s.minuteTimestamps, op.number,
                 conf.minuteLimit, MINUTE, op.at);
    LimiterRestarts(sent, s.dailyCounts, s.dailyTimestamps, op.number, conf.dailyLimit, DAY, clock, op.at);
    LimiterSends(sent, Restarted(s.dailyCounts, op.number, conf.dailyLimit), s.dailyTimestamps, op.number,
                 conf.dailyLimit, DAY, op.at);
  }

  /** Everything but an accepted send leaves the meaning of the counters alone. */
  lemma StepIdle(conf: Config, s: Storage, op: Op, number: string, sent: seq<int>, clock: int)
    requires clock <= op.at
    requires op.Save? && op.number == number ==>
      Saving(conf, s, number, op.code, op.ttl, op.at).1 != Accepted
    requires MinuteState(conf, s, number, sent, clock) && DailyState(conf, s, number, sent, clock)
    ensures MinuteState(conf, Step(conf, s, op), number, sent, op.at)
    ensures DailyState(conf, Step(conf, s, op), number, sent, op.at)
  {
    StepIdleMinute(conf, s, op, number, sent, clock);
    StepIdleDaily(conf, s, op, number, sent, clock);
  }

  /** How an operation that is not an accepted send to `number` changes what is counted for it. */
  ghost predicate IdleCounts(conf: Config, s: Storage, s': Storage, at: int, number: string) {
    && SameEntry(s.minuteTimestamps, s'.minuteTimestamps, number)
    && SameEntry(s.dailyCounts, s'.dailyCounts, number)
    && SameEntry(s.dailyTimestamps, s'.dailyTimestamps, number)
    && (SameEntry(s.minuteCounts, s'.minuteCounts, number)
        || (s'.minuteCounts == Restarted(s.minuteCounts, number, conf.minuteLimit)
            && !Blocked(s.minuteCounts, s.minuteTimestamps, number, conf.minuteLimit, MINUTE, at)))
  }

  lemma IdleStep(conf: Config, s: Storage, op: Op, number: string)
    requires op.Save? && op.number == number ==>
      Saving(conf, s, number, op.code, op.ttl, op.at).1 != Accepted
    ensures IdleCounts(conf, s, Step(conf, s, op), op.at, number)
  {
    if op.Save? {
      if op.number == number {
        RefusedSave(conf, s, number, op.code, op.ttl, op.at);
      } else {
        OtherSave(conf, s, op.number, op.code, op.ttl, op.at, number);
      }
    }
  }

  lemma RefusedSave(conf: Config, s: Storage, number: string, code: string, ttl: int, now: int)
    requires Saving(conf, s, number, code, ttl, now).1 != Accepted
    ensures IdleCounts(conf, s, Saving(conf, s, number, code, ttl, now).0, now, number)
  {
  }

  lemma OtherSave(conf: Config, s: Storage, other: string, code: string, ttl: int, now: int, number: string)
    requires other != number
    ensures IdleCounts(conf, s, Saving(conf, s, other, code, ttl, now).0, now, number)
  {
    OtherSaveCounts(conf, s, other, code, ttl, now, number);
    OtherSaveTimes(conf, s, other, code, ttl, now, number);
  }

  lemma OtherSaveCounts(conf: Config, s: Storage, other: string, code: string, ttl: int, now: int, number: string)
    requires other != number
    ensures var s' := Saving(conf, s, other, code, ttl, now).0;
      SameEntry(s.minuteCounts, s'.minuteCounts, number) && SameEntry(s.dailyCounts, s'.dailyCounts, number)
  {
  }

  lemma OtherSaveTimes(conf: Config, s: Storage, other: string, code: string, ttl: int, now: int, number: string)
    requires other != number
    ensures var s' := Saving(conf, s, other, code, ttl, now).0;
      SameEntry(s.minuteTimestamps, s'.minuteTimestamps, number)
      && SameEntry(s.dailyTimestamps, s'.dailyTimestamps, number)
  {
  }

  ghost predicate SameEntry(a: map<string, int>, b: map<string, int>, key: string) {
    (key in a <==> key in b) && (key in a ==> a[key] == b[key])
  }

  /** A send that only the daily limit refuses may already have restarted the minute's batch. */
  lemma StepIdleMinute(conf: Config, s: Storage, op: Op, number: string, sent: seq<int>, clock: int)
    requires clock <= op.at
    requires op.Save? && op.number == number ==>
      Saving(conf, s, number, op.code, op.ttl, op.at).1 != Accepted
    requires MinuteState(conf, s, number, sent, clock)
    ensures MinuteState(conf, Step(conf, s, op), number, sent, op.at)
  {
    var s' := Step(conf, s, op);
    IdleStep(conf, s, op, number);
    var counts := s.minuteCounts;
    if !SameEntry(s.minuteCounts, s'.minuteCounts, number) {
      LimiterRestarts(sent, s.minuteCounts, s.minuteTimestamps, number, conf.minuteLimit, MINUTE, clock, op.at);
      counts := s'.minuteCounts;
    }
    LimiterIgnoresOthers(sent, counts, s.minuteTimestamps, s'.minuteCounts, s'.minuteTimestamps,
                         number, conf.minuteLimit, MINUTE, if counts == s.minuteCounts then clock else op.at, op.at);
  }

  lemma StepIdleDaily(conf: Config, s: Storage, op: Op, number: string, sent: seq<int>, clock: int)
    requires clock <= op.at
    requires op.Save? && op.number == number ==>
      Saving(conf, s, number, op.code, op.ttl, op.at).1 != Accepted
    requires DailyState(conf, s, number, sent, clock)
    ensures DailyState(conf, Step(conf, s, op), number, sent, op.at)
  {
    var s' := Step(conf, s, op);
    IdleStep(conf, s, op, number);
    LimiterIgnoresOthers(sent, s.dailyCounts, s.dailyTimestamps, s'.dailyCounts, s'.dailyTimestamps,
                         number, conf.dailyLimit, DAY, clock, op.at);
  }

  /**
    The sliding windows: of the sends that were accepted, any minuteLimit + 1 in a row span a
    minute and any dailyLimit + 1 in a row span a day.
   */
  lemma SlidingWindows(conf: Config, ops: seq<Op>, number: string)
    requires ClockMovesForward(ops)
    ensures var sent := Times(AcceptedSends(conf, ops, number));
      && Spaced(sent, Effective(conf.minuteLimit), 60_000_000_000)
      && Spaced(sent, Effective(conf.dailyLimit), 86_400_000_000_000)
  {
    SendsAreSpaced(conf, ops, number);
    assert MINUTE == 60_000_000_000 && DAY == 86_400_000_000_000;
  }

  lemma SendsAreSpaced(conf: Config, ops: seq<Op>, number: string)
    requires ClockMovesForward(ops)
    ensures var sent := Times(AcceptedSends(conf, ops, number));
      && Spaced(sent, Effective(conf.minuteLimit), MINUTE)
      && Spaced(sent, Effective(conf.dailyLimit), DAY)
  {
    RunRateState(conf, ops, number, if ops == [] then 0 else ops[|ops| - 1].at);
  }

  /** The limit forbids a send at `now`: the last batch is full and its last send is recent. */
  ghost predicate Forbids(sent: seq<int>, limit: int, window: int, now: int) {
    BatchIsFull(|sent|, Effective(limit)) && now - sent[|sent| - 1] < window
  }

  lemma BlockedIsForbidden(sent: seq<int>, counts: map<string, int>, times: map<string, int>, number: string,
                           limit: int, window: int, now: int)
    requires Limiter(sent, counts, times, number, limit, window, now)
    ensures Blocked(counts, times, number, limit, window, now) <==> Forbids(sent, limit, window, now)
  {
    FullBatches(|sent|, Effective(limit));
  }

  /**
    When exactly a send is refused, in terms of the accepted sends alone: accepted sends
    form batches of exactly the limit's size, and only a full batch whose last send lies
    less than a window back refuses; the minute's limit is consulted first.
   */
  lemma RefusalsAreExact(conf: Config, ops: seq<Op>, number: string, code: string, ttl: int, now: int)
    requires ClockMovesForward(ops) && (ops != [] ==> ops[|ops| - 1].at <= now)
    ensures var sent := Times(AcceptedSends(conf, ops, number));
      Saving(conf, After(conf, ops), number, code, ttl, now).1
      == if Forbids(sent, conf.minuteLimit, MINUTE, now) then MinuteLimitExceeded
         else if Forbids(sent, conf.dailyLimit, DAY, now) then DailyLimitExceeded
         else Accepted
  {
    var s, sent := After(conf, ops), Times(AcceptedSends(conf, ops, number));
    RunRateState(conf, ops, number, now);
    BlockedIsForbidden(sent, s.minuteCounts, s.minuteTimestamps, number, conf.minuteLimit, MINUTE, now);
    BlockedIsForbidden(sent, s.dailyCounts, s.dailyTimestamps, number, conf.dailyLimit, DAY, now);
  }

  /**
    The limits are stricter than so many sends per window: with two a minute, a send at
    time zero and one an hour later, a third send one second after that is refused although
    only one send lies within the last minute.
   */
  lemma StricterThanPerMinute(number: string, code: string, ttl: int)
    ensures var conf, hour := Config(2, 100), 60 * MINUTE;
      var ops := [Save(number, code, ttl, 0), Save(number, code, ttl, hour)];
      var now := hour + MINUTE / 60;
      && ClockMovesForward(ops) && Times(AcceptedSends(conf, ops, number)) == [0, hour]
      && now - 0 >= MINUTE
      && Saving(conf, After(conf, ops), number, code, ttl, now).1 == MinuteLimitExceeded
  {
    FirstTwoSends(number, code, ttl, 60 * MINUTE);
    var ops := [Save(number, code, ttl, 0), Save(number, code, ttl, 60 * MINUTE)];
    assert MINUTE / 60 == SECOND;
    RefusalsAreExact(Config(2, 100), ops, number, code, ttl, 60 * MINUTE + SECOND);
  }

  /** Two sends are within any limit of two or more. */
  lemma FirstTwoSends(number: string, code: string, ttl: int, later: int)
    requires later >= 0
    ensures var ops := [Save(number, code, ttl, 0), Save(number, code, ttl, later)];
      ClockMovesForward(ops) && Times(AcceptedSends(Config(2, 100), ops, number)) == [0, later]
  {
    var conf, first := Config(2, 100), [Save(number, code, ttl, 0)];
    var ops := [Save(number, code, ttl, 0), Save(number, code, ttl, later)];
    assert ops[..1] == first;
    FirstSend(number, code, ttl);
    AcceptedNow(conf, ops, number);
  }

  lemma FirstSend(number: string, code: string, ttl: int)
    ensures Times(AcceptedSends(Config(2, 100), [Save(number, code, ttl, 0)], number)) == [0]
  {
    var conf, first := Config(2, 100), [Save(number, code, ttl, 0)];
    assert first[..0] == [];
    NoSendsYet(conf, number);
    AcceptedNow(conf, first, number);
  }

  lemma NoSendsYet(conf: Config, number: string)
    ensures Times(AcceptedSends(conf, [], number)) == []
  {
  }

  /** A send that no limit forbids is accepted. */
  lemma AcceptedNow(conf: Config, ops: seq<Op>, number: string)
    requires ops != [] && ClockMovesForward(ops)
    requires ops[|ops| - 1].Save? && ops[|ops| - 1].number == number
    requires var sent, now := Times(AcceptedSends(conf, ops[..|ops| - 1], number)), ops[|ops| - 1].at;
      !Forbids(sent, conf.minuteLimit, MINUTE, now) && !Forbids(sent, conf.dailyLimit, DAY, now)
    ensures Times(AcceptedSends(conf, ops, number))
      == Times(AcceptedSends(conf, ops[..|ops| - 1], number)) + [ops[|ops| - 1].at]
  {
    var op := ops[|ops| - 1];
    RefusalsAreExact(conf, ops[..|ops| - 1], number, op.code, op.ttl, op.at);
  }

  // ------------------------------------------------------------------- lifetimes

  /** The codes that were accepted for `number`, with the time at which each expires. */
  function AcceptedCodes(conf: Config, ops: seq<Op>, number: string): seq<VerificationCode> {
    if ops == [] then []
    else AcceptedCodes(conf, ops[..|ops| - 1], number) + AddedCode(conf, ops, number)
  }

  function StoredCodes(s: Storage, number: string): seq<VerificationCode> {
    if number in s.codes then s.codes[number] else []
  }

  lemma {:induction false} UnexpiredTwice(codes: seq<VerificationCode>, now: int, t: int)
    requires now <= t
    ensures Unexpired(Unexpired(codes, now), t) == Unexpired(codes, t)
  {
    if codes != [] {
      var init, last := codes[..|codes| - 1], codes[|codes| - 1];
      UnexpiredTwice(init, now, t);
      if last.expiresAt > now {
        UnexpiredSnoc(Unexpired(init, now), last, t);
      } else {
        assert Unexpired(codes, now) == Unexpired(init, now);
      }
    }
  }

  lemma UnexpiredSnoc(codes: seq<VerificationCode>, c: VerificationCode, t: int)
    ensures Unexpired(codes + [c], t) == Unexpired(codes, t) + if c.expiresAt > t then [c] else []
  {
    assert (codes + [c])[..|codes|] == codes;
  }

  /** What one step does to the codes of a number: add one, drop expired ones, or nothing. */
  lemma StepStored(conf: Config, s: Storage, op: Op, number: string)
    ensures var stored, stored' := StoredCodes(s, number), StoredCodes(Step(conf, s, op), number);
      if op.Save? && op.number == number && Saving(conf, s, number, op.code, op.ttl, op.at).1 == Accepted
      then stored' == Unexpired(stored, op.at) + [VerificationCode(op.code, op.at + op.ttl)]
      else stored' == stored || stored' == Unexpired(stored, op.at)
  {
  }

  /** What one step may do to the codes of a number: `more` is what it adds, at most one code. */
  predicate StoredNext(stored: seq<VerificationCode>, more: seq<VerificationCode>,
                       stored': seq<VerificationCode>, now: int) {
    if more == [] then stored' == stored || stored' == Unexpired(stored, now)
    else |more| == 1 && stored' == Unexpired(stored, now) + more
  }

  /** Adding a code to two lists that show the same keeps them showing the same. */
  lemma AddedAgrees(a: seq<VerificationCode>, b: seq<VerificationCode>, c: VerificationCode, t: int)
    requires Unexpired(a, t) == Unexpired(b, t)
    ensures Unexpired(a + [c], t) == Unexpired(b + [c], t)
  {
    UnexpiredSnoc(a, c, t);
    UnexpiredSnoc(b, c, t);
  }

  /** Storing a code and remembering that it was accepted show the same from then on. */
  lemma StoredAgrees(stored: seq<VerificationCode>, accepted: seq<VerificationCode>,
                     more: seq<VerificationCode>, stored': seq<VerificationCode>, now: int, t: int)
    requires now <= t && Unexpired(stored, t) == Unexpired(accepted, t)
    requires StoredNext(stored, more, stored', now)
    ensures Unexpired(stored', t) == Unexpired(accepted + more, t)
  {
    UnexpiredTwice(stored, now, t);
    if more == [] {
      assert accepted + more == accepted;
    } else {
      assert more == [more[0]];
      AddedAgrees(Unexpired(stored, now), accepted, more[0], t);
    }
  }

  /** The code that the last operation of a run added, if it was an accepted send. */
  function AddedCode(conf: Config, ops: seq<Op>, number: string): seq<VerificationCode> {
    if LastAccepted(conf, ops, number) then
      [VerificationCode(ops[|ops| - 1].code, ops[|ops| - 1].at + ops[|ops| - 1].ttl)]
    else []
  }

  lemma LastStored(conf: Config, ops: seq<Op>, number: string)
    requires ops != []
    ensures StoredNext(StoredCodes(After(conf, ops[..|ops| - 1]), number), AddedCode(conf, ops, number),
                       StoredCodes(After(conf, ops), number), ops[|ops| - 1].at)
  {
    StepStored(conf, After(conf, ops[..|ops| - 1]), ops[|ops| - 1], number);
  }

  /** From now on, the store shows exactly the accepted codes that have not expired. */
  lemma {:induction false} StoreShowsAccepted(conf: Config, ops: seq<Op>, number: string, t: int)
    requires ClockMovesForward(ops) && (ops != [] ==> ops[|ops| - 1].at <= t)
    ensures Unexpired(StoredCodes(After(conf, ops), number), t) == Unexpired(AcceptedCodes(conf, ops, number), t)
  {
    if ops != [] {
      var before := ops[..|ops| - 1];
      StoreShowsAccepted(conf, before, number, t);
      LastStored(conf, ops, number);
      StoredAgrees(StoredCodes(After(conf, before), number), AcceptedCodes(conf, before, number),
                   AddedCode(conf, ops, number), StoredCodes(After(conf, ops), number), ops[|ops| - 1].at, t);
    }
  }

  ghost predicate HoldsUnexpired(codes: seq<VerificationCode>, code: string, t: int) {
    exists i :: 0 <= i < |codes| && codes[i].code == code && codes[i].expiresAt > t
  }

  lemma {:induction false} UnexpiredHolds(codes: seq<VerificationCode>, code: string, t: int)
    ensures Holds(Unexpired(codes, t), code) <==> HoldsUnexpired(codes, code, t)
  {
    if codes != [] {
      var init, last := codes[..|codes| - 1], codes[|codes| - 1];
      UnexpiredHolds(init, code, t);
      HoldsSnoc(Unexpired(init, t), last, code);
      HoldsUnexpiredSnoc(init, last, code, t);
      assert init + [last] == codes;
      assert Unexpired(init, t) + [] == Unexpired(init, t);
    }
  }

  lemma HoldsSnoc(codes: seq<VerificationCode>, c: VerificationCode, code: string)
    ensures Holds(codes + [c], code) <==> Holds(codes, code) || c.code == code
  {
    assert (codes + [c])[|codes|] == c;
    assert forall i :: 0 <= i < |codes| ==> (codes + [c])[i] == codes[i];
  }

  lemma HoldsUnexpiredSnoc(codes: seq<VerificationCode>, c: VerificationCode, code: string, t: int)
    ensures HoldsUnexpired(codes + [c], code, t)
            <==> HoldsUnexpired(codes, code, t) || (c.code == code && c.expiresAt > t)
  {
    assert (codes + [c])[|codes|] == c;
    assert forall i :: 0 <= i < |codes| ==> (codes + [c])[i] == codes[i];
  }

  /** Some accepted send carried this code for this number, and it has not expired. */
  ghost predicate SentUnexpired(conf: Config, ops: seq<Op>, number: string, code: string, now: int) {
    exists i :: 0 <= i < |ops| && SentAt(conf, ops, number, code, now, i)
  }

  /** Operation i was an accepted send of the code, and its lifetime is not over. */
  predicate SentAt(conf: Config, ops: seq<Op>, number: string, code: string, now: int, i: nat)
    requires i < |ops|
  {
    LastAccepted(conf, ops[..i + 1], number) && ops[i].code == code && ops[i].at + ops[i].ttl > now
  }

  /**
    Verify answers true exactly when some accepted send carried that code for that
    number and its lifetime is not over, whatever was cleaned up before.
   */
  lemma VerifyIsExact(conf: Config, ops: seq<Op>, number: string, code: string, now: int)
    requires ClockMovesForward(ops) && (ops != [] ==> ops[|ops| - 1].at <= now)
    ensures VerifyResult(After(conf, ops), number, code, now) <==> SentUnexpired(conf, ops, number, code, now)
  {
    StoreShowsAccepted(conf, ops, number, now);
    UnexpiredHolds(AcceptedCodes(conf, ops, number), code, now);
    CodesAreSends(conf, ops, number, code, now);
  }

  lemma {:induction false} CodesAreSends(conf: Config, ops: seq<Op>, number: string, code: string, now: int)
    ensures HoldsUnexpired(AcceptedCodes(conf, ops, number), code, now)
            <==> SentUnexpired(conf, ops, number, code, now)
  {
    if ops != [] {
      CodesAreSends(conf, ops[..|ops| - 1], number, code, now);
      SentSnoc(conf, ops, number, code, now);
      CodesSnoc(conf, ops, number, code, now);
    }
  }

  lemma CodesSnoc(conf: Config, ops: seq<Op>, number: string, code: string, now: int)
    requires ops != []
    ensures var n := |ops| - 1;
      HoldsUnexpired(AcceptedCodes(conf, ops, number), code, now)
      <==> HoldsUnexpired(AcceptedCodes(conf, ops[..n], number), code, now)
           || (LastAccepted(conf, ops, number) && ops[n].code == code && ops[n].at + ops[n].ttl > now)
  {
    HoldsMore(AcceptedCodes(conf, ops[..|ops| - 1], number), AddedCode(conf, ops, number), code, now);
  }

  lemma HoldsMore(codes: seq<VerificationCode>, more: seq<VerificationCode>, code: string, t: int)
    requires |more| <= 1
    ensures HoldsUnexpired(codes + more, code, t)
      <==> HoldsUnexpired(codes, code, t) || (more != [] && more[0].code == code && more[0].expiresAt > t)
  {
    if more == [] {
      assert codes + more == codes;
    } else {
      assert codes + more == codes + [more[0]];
      HoldsUnexpiredSnoc(codes, more[0], code, t);
    }
  }

  lemma SentSnoc(conf: Config, ops: seq<Op>, number: string, code: string, now: int)
    requires ops != []
    ensures var n := |ops| - 1;
      SentUnexpired(conf, ops, number, code, now)
      <==> SentUnexpired(conf, ops[..n], number, code, now)
           || (LastAccepted(conf, ops, number) && ops[n].code == code && ops[n].at + ops[n].ttl > now)
  {
    var n := |ops| - 1;
    assert ops[..n + 1] == ops;
    forall i | 0 <= i < n
      ensures SentAt(conf, ops, number, code, now, i) <==> SentAt(conf, ops[..n], number, code, now, i)
    {
      assert ops[..n][..i + 1] == ops[..i + 1];
    }
    if SentUnexpired(conf, ops[..n], number, code, now) {
      var i :| 0 <= i < n && SentAt(conf, ops[..n], number, code, now, i);
      assert SentAt(conf, ops, number, code, now, i);
    }
    if SentAt(conf, ops, number, code, now, n) {
      assert SentUnexpired(conf, ops, number, code, now);
    }
  }

  /** What is stored for the number has not expired. */
  ghost predicate AllUnexpired(s: Storage, number: string, now: int) {
    number in s.codes ==> forall i :: 0 <= i < |s.codes[number]| ==> s.codes[number][i].expiresAt > now
  }

  lemma {:induction false} UnexpiredOnly(codes: seq<VerificationCode>, now: int)
    ensures forall i :: 0 <= i < |Unexpired(codes, now)| ==> Unexpired(codes, now)[i].expiresAt > now
  {
    if codes != [] { UnexpiredOnly(codes[..|codes| - 1], now); }
  }

  /** Cleaning frees the memory: CleanExpired leaves no expired code at all, Verify none of its number. */
  lemma CleaningRemoves(conf: Config, s: Storage, number: string, code: string, now: int)
    ensures AllUnexpired(Step(conf, s, CleanExpired(now)), number, now)
    ensures AllUnexpired(Step(conf, s, Verify(number, code, now)), number, now)
  {
    if number in s.codes { UnexpiredOnly(s.codes[number], now); }
  }

  /** So does SaveCode, before it stores the new code with its own lifetime, if it is accepted. */
  lemma SavingRemoves(conf: Config, s: Storage, number: string, code: string, ttl: int, now: int)
    ensures var (s', outcome) := Saving(conf, s, number, code, ttl, now);
      if outcome == Accepted then
        && number in s'.codes && s'.codes[number] != []
        && s'.codes[number][|s'.codes[number]| - 1] == VerificationCode(code, now + ttl)
        && forall i :: 0 <= i < |s'.codes[number]| - 1 ==> s'.codes[number][i].expiresAt > now
      else AllUnexpired(s', number, now)
  {
    if number in s.codes { UnexpiredOnly(s.codes[number], now); }
  }
}
