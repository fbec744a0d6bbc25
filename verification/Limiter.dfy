/**
  The token-bucket rate limiter. Tokens and times are exact reals (seconds), a
  key is its 64-bit hash, and each call of `Take` is one step, as it holds the
  shard's lock throughout.
 */
module Limiter {
  datatype Config = Config(rate: real, burst: real)

  datatype Bucket = Bucket(tokens: real, last: real)

  datatype State = State(buckets: map<nat, Bucket>, overflow: Bucket, lastSweep: real, cap: nat)

  datatype Answer = Admitted | Refused(wait: real)

  /** What one call did: its answer, and whether the shared overflow bucket gave it. */
  datatype Served = Served(answer: Answer, overflow: bool)

  const SHARD_THRESHOLD: nat := 1024
  const SHARDS: nat := 16

  predicate ConfigOk(c: Config) {
    c.rate > 0.0 && c.burst >= 1.0
  }

  function Max(a: real, b: real): real {
    if a < b then b else a
  }

  function Min(a: real, b: real): real {
    if a < b then a else b
  }

  /** `saturating_duration_since`: a clock that went back counts as no time. */
  function Elapsed(since: real, now: real): real {
    Max(now - since, 0.0)
  }

  /** The least time between two sweeps of a shard. */
  function Interval(c: Config): real
    requires ConfigOk(c)
  {
    Max(1.0 / c.rate, 1.0)
  }

  function Refill(c: Config, b: Bucket, now: real): Bucket {
    Bucket(Min(b.tokens + Elapsed(b.last, now) * c.rate, c.burst), Max(b.last, now))
  }

  /** Refills the bucket, then takes a token or says how long until there is one. */
  function Draw(c: Config, b: Bucket, now: real): (Bucket, Answer)
    requires ConfigOk(c)
  {
    var r := Refill(c, b, now);
    if r.tokens >= 1.0 then (r.(tokens := r.tokens - 1.0), Admitted)
    else (r, Refused((1.0 - r.tokens) / c.rate))
  }

  predicate Sweeps(c: Config, s: State, id: nat, now: real)
    requires ConfigOk(c)
  {
    id !in s.buckets && |s.buckets| >= s.cap && Elapsed(s.lastSweep, now) >= Interval(c)
  }

  predicate FullAgain(c: Config, b: Bucket, now: real) {
    b.tokens + Elapsed(b.last, now) * c.rate >= c.burst
  }

  /** Drops the buckets that would be full again. */
  function Swept(c: Config, s: State, now: real): State {
    s.(lastSweep := now, buckets := map k | k in s.buckets && !FullAgain(c, s.buckets[k], now) :: s.buckets[k])
  }

  function MaybeSwept(c: Config, s: State, id: nat, now: real): State
    requires ConfigOk(c)
  {
    if Sweeps(c, s, id, now) then Swept(c, s, now) else s
  }

  predicate Overflows(s: State, id: nat) {
    id !in s.buckets && |s.buckets| >= s.cap
  }

  /** One call on the shard of `id`. */
  function TakeFrom(c: Config, s: State, id: nat, now: real): (State, Served)
    requires ConfigOk(c)
  {
    var s1 := MaybeSwept(c, s, id, now);
    if Overflows(s1, id) then
      var (b, answer) := Draw(c, s1.overflow, now);
      (s1.(overflow := b), Served(answer, true))
    else
      var (b, answer) := Draw(c, if id in s1.buckets then s1.buckets[id] else Bucket(c.burst, now), now);
      (s1.(buckets := s1.buckets[id := b]), Served(answer, false))
  }

  /** One call on the whole table. */
  function Step(c: Config, shards: seq<State>, id: nat, now: real): (seq<State>, Served)
    requires ConfigOk(c) && shards != []
  {
    var i := id % |shards|;
    var (s, served) := TakeFrom(c, shards[i], id, now);
    (shards[i := s], served)
  }

  function ShardCount(maxKeys: nat): (n: nat)
    ensures n >= 1
  {
    if maxKeys >= SHARD_THRESHOLD then SHARDS else 1
  }

  /**
    Shards with empty tables and full overflow buckets, made in order with the clock readings
    `clock(0)`, `clock(1)`, ...
   */
  function BuildShards(maxKeys: nat, burst: real, clock: nat -> real): (shards: seq<State>)
    ensures |shards| == ShardCount(maxKeys) == if maxKeys < 1024 then 1 else 16
    ensures forall s :: s in shards ==> s.buckets == map[] && s.overflow.tokens == burst
    ensures forall i, j :: 0 <= i < j < |shards| ==> shards[j].cap <= shards[i].cap <= shards[j].cap + 1
  {
    var count := ShardCount(maxKeys);
    seq(count, i requires 0 <= i < count =>
      var cap := maxKeys / count + if i < maxKeys % count then 1 else 0;
      State(map[], Bucket(burst, clock(2 * i)), clock(2 * i + 1), cap))
  }

  lemma NotNegative(a: real, b: real)
    requires a >= 0.0 && b >= 0.0
    ensures a * b >= 0.0
  {
  }

  class Limiter {
    const config: Config
    const shards: array<State>

    ghost predicate Valid()
      reads this
    {
      ConfigOk(config) && shards.Length >= 1
    }

    constructor (config: Config, maxKeys: nat, clock: nat -> real)
      requires ConfigOk(config)
      ensures Valid() && this.config == config && fresh(shards)
      ensures shards[..] == BuildShards(maxKeys, config.burst, clock)
    {
      this.config := config;
      var count := ShardCount(maxKeys);
      var base, extra := maxKeys / count, maxKeys % count;
      this.shards := new State[count]((i: nat) =>
        State(map[], Bucket(config.burst, clock(2 * i)), clock(2 * i + 1), base + if i < extra then 1 else 0));
    }

    method RefillBucket(bucket: Bucket, now: real) returns (b: Bucket)
      requires Valid()
      ensures b == Refill(config, bucket, now)
      ensures b.last >= bucket.last && b.last >= now
      ensures b.tokens <= config.burst && (bucket.tokens <= config.burst ==> bucket.tokens <= b.tokens)
    {
      var elapsed := Elapsed(bucket.last, now);
      NotNegative(elapsed, config.rate);
      b := bucket.(tokens := Min(bucket.tokens + elapsed * config.rate, config.burst));
      b := b.(last := Max(b.last, now));
    }

    /** One call under the lock of the shard that the key belongs to: admitted, or refused with the time to wait. */
    method Take(id: nat, now: real) returns (outcome: Answer)
      requires Valid()
      modifies shards
      ensures shards[..] == Step(config, old(shards[..]), id, now).0
      ensures outcome == Step(config, old(shards[..]), id, now).1.answer
    {
      var shard := id % shards.Length;
      var state := shards[shard];
      var known := id in state.buckets;
      if !known && |state.buckets| >= state.cap {
        var interval := Max(1.0 / config.rate, 1.0);
        if Elapsed(state.lastSweep, now) >= interval {
          state := state.(lastSweep := now);
          var before := state.buckets;
          state := state.(buckets := map k | k in before && !FullAgain(config, before[k], now) :: before[k]);
        }
      }
      var overflow := !known && |state.buckets| >= state.cap;
      var bucket := if overflow then state.overflow
        else if id in state.buckets then state.buckets[id]
        else Bucket(config.burst, now);
      bucket := RefillBucket(bucket, now);
      if bucket.tokens >= 1.0 {
        bucket := bucket.(tokens := bucket.tokens - 1.0);
        outcome := Admitted;
      } else {
        outcome := Refused((1.0 - bucket.tokens) / config.rate);
      }
      if overflow {
        state := state.(overflow := bucket);
      } else {
        state := state.(buckets := state.buckets[id := bucket]);
      }
      shards[shard] := state;
    }
  }
}

/** Properties of whole runs of the limiter. */
module LimiterRuns {
  import opened Wrappers
  import opened Limiter

  datatype Call = Call(id: nat, now: real)

  /** The table after the calls. */
  ghost function After(c: Config, shards: seq<State>, calls: seq<Call>): (after: seq<State>)
    requires ConfigOk(c) && shards != []
    ensures |after| == |shards|
  {
    if calls == [] then shards
    else
      var n := |calls| - 1;
      Step(c, After(c, shards, calls[..n]), calls[n].id, calls[n].now).0
  }

  /** What call `i` was served. */
  ghost function ServedAt(c: Config, shards: seq<State>, calls: seq<Call>, i: nat): Served
    requires ConfigOk(c) && shards != [] && i < |calls|
  {
    Step(c, After(c, shards, calls[..i]), calls[i].id, calls[i].now).1
  }

  ghost predicate Nondecreasing(calls: seq<Call>) {
    forall i, j :: 0 <= i <= j < |calls| ==> calls[i].now <= calls[j].now
  }

  /** Refilling in two steps is refilling in one: how often a bucket is looked at makes no difference. */
  lemma RefillInSteps(c: Config, b: Bucket, now: real, later: real)
    requires ConfigOk(c) && b.last <= now <= later
    ensures Refill(c, Refill(c, b, now), later) == Refill(c, b, later)
  {
    MulMonotone(0.0, now - b.last, c.rate);
    MulMonotone(0.0, later - now, c.rate);
    assert (later - b.last) * c.rate == (now - b.last) * c.rate + (later - now) * c.rate;
  }

  // ---- What one call does ----

  /**
    `b'` and `admitted` are what becomes of bucket `b` at `now`: refilled, capped, and a token taken
    exactly if there is one.
   */
  ghost predicate BucketServes(c: Config, b: Bucket, now: real, b': Bucket, admitted: bool) {
    var refilled := b.tokens + c.rate * (if now > b.last then now - b.last else 0.0);
    var tokens := if refilled < c.burst then refilled else c.burst;
    && (admitted <==> tokens >= 1.0)
    && b' == Bucket(if admitted then tokens - 1.0 else tokens, if now > b.last then now else b.last)
  }

  /** A call for a known key uses and changes its own bucket only. */
  lemma KnownKeyExactly(c: Config, s: State, id: nat, now: real)
    requires ConfigOk(c) && id in s.buckets
    ensures var (s', served) := TakeFrom(c, s, id, now);
      && !served.overflow && s'.buckets.Keys == s.buckets.Keys
      && BucketServes(c, s.buckets[id], now, s'.buckets[id], served.answer.Admitted?)
      && s' == s.(buckets := s.buckets[id := s'.buckets[id]])
  {
  }

  /** While its shard has room, a new key is admitted and gets a bucket of its own, full but for that token. */
  lemma NewKeyExactly(c: Config, s: State, id: nat, now: real)
    requires ConfigOk(c) && id !in s.buckets && |s.buckets| < s.cap
    ensures TakeFrom(c, s, id, now)
      == (s.(buckets := s.buckets[id := Bucket(c.burst - 1.0, now)]), Served(Admitted, false))
  {
  }

  /**
    For a new key, a full shard is swept exactly if it was not for so long; that drops exactly the
    buckets full again.
   */
  ghost predicate SweptFor(c: Config, s: State, s1: State, now: real)
    requires ConfigOk(c)
  {
    var interval := if c.rate < 1.0 then 1.0 / c.rate else 1.0;
    if now - s.lastSweep >= interval then
      && s1.lastSweep == now && s1.overflow == s.overflow && s1.cap == s.cap
      && (forall k :: k in s1.buckets ==> k in s.buckets && s1.buckets[k] == s.buckets[k])
      && (forall k :: k in s.buckets ==> (k in s1.buckets <==> FallsShort(c, s.buckets[k], now)))
    else s1 == s
  }

  ghost predicate FallsShort(c: Config, b: Bucket, now: real) {
    b.tokens + c.rate * (if now > b.last then now - b.last else 0.0) < c.burst
  }

  lemma SweepExactly(c: Config, s: State, id: nat, now: real)
    requires ConfigOk(c) && id !in s.buckets && |s.buckets| >= s.cap
    ensures SweptFor(c, s, MaybeSwept(c, s, id, now), now) && id !in MaybeSwept(c, s, id, now).buckets
  {
    IntervalIs(c);
  }

  lemma IntervalIs(c: Config)
    requires ConfigOk(c)
    ensures Interval(c) == if c.rate < 1.0 then 1.0 / c.rate else 1.0
  {
    var wait := 1.0 / c.rate;
    assert wait * c.rate == 1.0 && wait > 0.0;
    if c.rate < 1.0 {
      MulMonotone(c.rate, 1.0, wait);
    } else {
      MulMonotone(1.0, c.rate, wait);
    }
  }

  /**
    A new key in a full shard: there is room after the sweep, or the shard's overflow bucket answers and
    no other changes.
   */
  lemma FullShardExactly(c: Config, s: State, id: nat, now: real) returns (s1: State)
    requires ConfigOk(c) && id !in s.buckets && |s.buckets| >= s.cap
    ensures SweptFor(c, s, s1, now)
    ensures var (s', served) := TakeFrom(c, s, id, now);
      if |s1.buckets| < s1.cap then
        (s', served) == (s1.(buckets := s1.buckets[id := Bucket(c.burst - 1.0, now)]), Served(Admitted, false))
      else
        && served.overflow && s' == s1.(overflow := s'.overflow)
        && BucketServes(c, s1.overflow, now, s'.overflow, served.answer.Admitted?)
  {
    s1 := MaybeSwept(c, s, id, now);
    SweepExactly(c, s, id, now);
    hide SweptFor, MaybeSwept;
    ServedAfterSweep(c, s, id, now);
  }

  lemma ServedAfterSweep(c: Config, s: State, id: nat, now: real)
    requires ConfigOk(c) && id !in MaybeSwept(c, s, id, now).buckets
    ensures var s1 := MaybeSwept(c, s, id, now);
      var (s', served) := TakeFrom(c, s, id, now);
      if |s1.buckets| < s1.cap then
        (s', served) == (s1.(buckets := s1.buckets[id := Bucket(c.burst - 1.0, now)]), Served(Admitted, false))
      else
        && served.overflow && s' == s1.(overflow := s'.overflow)
        && BucketServes(c, s1.overflow, now, s'.overflow, served.answer.Admitted?)
  {
    hide MaybeSwept;
  }

  /** A call touches the shard its key belongs to and no other. */
  lemma OneShardExactly(c: Config, shards: seq<State>, id: nat, now: real)
    requires ConfigOk(c) && shards != []
    ensures var (after, served) := Step(c, shards, id, now);
      && |after| == |shards|
      && (after[id % |shards|], served) == TakeFrom(c, shards[id % |shards|], id, now)
      && forall i :: 0 <= i < |shards| && i != id % |shards| ==> after[i] == shards[i]
  {
  }

  // ---- Sharding, the cap and the sweep are invisible ----

  datatype Ideal = Unseen | Seen(bucket: Bucket)

  /** The bucket of key `k` in a limiter that keeps one bucket per key and never forgets it. */
  ghost function IdealAfter(c: Config, calls: seq<Call>, k: nat): Ideal
    requires ConfigOk(c)
  {
    if calls == [] then Unseen
    else
      var n := |calls| - 1;
      var before := IdealAfter(c, calls[..n], k);
      if calls[n].id == k then Seen(IdealDraw(c, before, calls[n].now).0) else before
  }

  ghost function IdealDraw(c: Config, ideal: Ideal, now: real): (Bucket, Answer)
    requires ConfigOk(c)
  {
    Draw(c, if ideal.Seen? then ideal.bucket else Bucket(c.burst, now), now)
  }

  /** The shard's bucket for `k` is the ideal one, or is gone and the ideal one is full. */
  ghost predicate Tracks(c: Config, s: State, k: nat, ideal: Ideal, clock: real) {
    && (ideal.Seen? ==> ideal.bucket.last <= clock)
    && if k in s.buckets then ideal == Seen(s.buckets[k])
       else ideal.Seen? ==> FullAgain(c, ideal.bucket, clock)
  }

  lemma MulMonotone(a: real, b: real, r: real)
    requires a <= b && r >= 0.0
    ensures a * r <= b * r
  {
  }

  /** A product, kept apart from the rest of an argument. */
  ghost function Times(a: real, b: real): real {
    a * b
  }

  lemma Distribute(a: real, b: real, r: real)
    ensures Times(a + b, r) == Times(a, r) + Times(b, r)
  {
  }

  lemma TimesIs(a: real, b: real)
    ensures Times(a, b) == a * b
  {
  }

  lemma TimesSigns(a: real, r: real)
    ensures Times(0.0, r) == 0.0 && Times(1.0, r) == r
    ensures a >= 0.0 && r >= 0.0 ==> Times(a, r) >= 0.0
  {
  }

  lemma FullStaysFull(c: Config, b: Bucket, clock: real, now: real)
    requires ConfigOk(c) && clock <= now && FullAgain(c, b, clock)
    ensures FullAgain(c, b, now)
  {
  }

  /** A call for another key keeps the shard in step with the ideal bucket of `k`. */
  lemma OtherKeyTracks(c: Config, s: State, k: nat, ideal: Ideal, clock: real, id: nat, now: real)
    requires ConfigOk(c) && clock <= now && id != k && Tracks(c, s, k, ideal, clock)
    ensures Tracks(c, TakeFrom(c, s, id, now).0, k, ideal, now)
  {
  }

  /** A call for `k` that is not sent to the overflow bucket gets the ideal answer. */
  lemma OwnKeyTracks(c: Config, s: State, k: nat, ideal: Ideal, clock: real, now: real)
    requires ConfigOk(c) && clock <= now && Tracks(c, s, k, ideal, clock)
    requires !TakeFrom(c, s, k, now).1.overflow
    ensures TakeFrom(c, s, k, now).1.answer == IdealDraw(c, ideal, now).1
    ensures Tracks(c, TakeFrom(c, s, k, now).0, k, Seen(IdealDraw(c, ideal, now).0), now)
  {
    if ideal.Seen? && FullAgain(c, ideal.bucket, clock) {
      FullStaysFull(c, ideal.bucket, clock, now);
    }
  }

  /** A fresh table: what `BuildShards` makes. */
  ghost predicate Unused(shards: seq<State>) {
    shards != [] && forall i :: 0 <= i < |shards| ==> shards[i].buckets == map[]
  }

  lemma {:induction false} RunTracks(c: Config, shards: seq<State>, calls: seq<Call>, k: nat, clock: real)
    requires ConfigOk(c) && Unused(shards) && Nondecreasing(calls)
    requires calls != [] ==> calls[|calls| - 1].now <= clock
    requires forall i :: 0 <= i < |calls| && calls[i].id == k ==> !ServedAt(c, shards, calls, i).overflow
    ensures Tracks(c, After(c, shards, calls)[k % |shards|], k, IdealAfter(c, calls, k), clock)
  {
    if calls != [] {
      var n := |calls| - 1;
      var before, last := calls[..n], calls[n];
      forall i | 0 <= i < n && before[i].id == k
        ensures !ServedAt(c, shards, before, i).overflow
      {
        assert before[..i] == calls[..i];
        assert !ServedAt(c, shards, calls, i).overflow;
      }
      RunTracks(c, shards, before, k, last.now);
      var s, ideal := After(c, shards, before)[k % |shards|], IdealAfter(c, before, k);
      if last.id == k {
        assert !ServedAt(c, shards, calls, n).overflow;
        OwnKeyTracks(c, s, k, ideal, last.now, last.now);
      } else {
        OtherKeyTracks(c, s, k, ideal, last.now, last.id, last.now);
      }
      LaterTracks(c, After(c, shards, calls)[k % |shards|], k, IdealAfter(c, calls, k), last.now, clock);
    }
  }

  lemma LaterTracks(c: Config, s: State, k: nat, ideal: Ideal, clock: real, now: real)
    requires ConfigOk(c) && clock <= now && Tracks(c, s, k, ideal, clock)
    ensures Tracks(c, s, k, ideal, now)
  {
  }

  /**
    With a nondecreasing clock, a key that has never been sent to the overflow
    bucket gets exactly the answers of the ideal limiter: sharding, the cap and
    the sweep are invisible to it.
   */
  lemma IdealForTrackedKeys(c: Config, maxKeys: nat, clock: nat -> real, calls: seq<Call>, i: nat)
    requires ConfigOk(c) && Nondecreasing(calls) && i < |calls|
    requires forall j :: 0 <= j <= i && calls[j].id == calls[i].id ==>
      !ServedAt(c, BuildShards(maxKeys, c.burst, clock), calls, j).overflow
    ensures ServedAt(c, BuildShards(maxKeys, c.burst, clock), calls, i).answer
         == IdealDraw(c, IdealAfter(c, calls[..i], calls[i].id), calls[i].now).1
  {
    var shards := BuildShards(maxKeys, c.burst, clock);
    var k, now, before := calls[i].id, calls[i].now, calls[..i];
    forall j | 0 <= j < i && before[j].id == k
      ensures !ServedAt(c, shards, before, j).overflow
    {
      assert before[..j] == calls[..j];
      assert !ServedAt(c, shards, calls, j).overflow;
    }
    RunTracks(c, shards, before, k, now);
    OwnKeyTracks(c, After(c, shards, before)[k % |shards|], k, IdealAfter(c, before, k), now, now);
  }

  // ---- A burst ----

  ghost function CallsOf(calls: seq<Call>, k: nat): nat {
    if calls == [] then 0 else CallsOf(calls[..|calls| - 1], k) + if calls[|calls| - 1].id == k then 1 else 0
  }

  ghost function AdmittedTo(c: Config, shards: seq<State>, calls: seq<Call>, k: nat): nat
    requires ConfigOk(c) && shards != []
  {
    if calls == [] then 0
    else
      var n := |calls| - 1;
      var admitted := calls[n].id == k && ServedAt(c, shards, calls, n).answer.Admitted?;
      AdmittedTo(c, shards, calls[..n], k) + if admitted then 1 else 0
  }

  /** How many of `n` calls at one instant a full bucket admits. */
  ghost function OfBurst(c: Config, n: nat): int {
    if n <= c.burst.Floor then n else c.burst.Floor
  }

  lemma {:induction false} IdealAtOnce(c: Config, calls: seq<Call>, k: nat, now: real)
    requires ConfigOk(c) && forall i :: 0 <= i < |calls| && calls[i].id == k ==> calls[i].now == now
    ensures var n := CallsOf(calls, k);
      IdealAfter(c, calls, k) == if n == 0 then Unseen else Seen(Bucket(c.burst - OfBurst(c, n) as real, now))
  {
    if calls != [] {
      IdealAtOnce(c, calls[..|calls| - 1], k, now);
    }
  }

  /**
    Of the calls for one new key at one instant, however many other calls come
    between, exactly as many are admitted as the burst has whole tokens, as long
    as none is sent to the overflow bucket.
   */
  lemma {:induction false} BurstExactly(c: Config, maxKeys: nat, clock: nat -> real, calls: seq<Call>, k: nat,
                                        now: real)
    requires ConfigOk(c) && Nondecreasing(calls)
    requires forall i :: 0 <= i < |calls| && calls[i].id == k ==>
      calls[i].now == now && !ServedAt(c, BuildShards(maxKeys, c.burst, clock), calls, i).overflow
    ensures AdmittedTo(c, BuildShards(maxKeys, c.burst, clock), calls, k) == OfBurst(c, CallsOf(calls, k))
  {
    hide BuildShards, IdealDraw, IdealAfter, OfBurst, ServedAt;
    var shards := BuildShards(maxKeys, c.burst, clock);
    if calls == [] {
      NoneOfTheBurst(c);
    } else {
      var n := |calls| - 1;
      var before := calls[..n];
      EarlierServed(c, shards, calls);
      OneCallMore(c, shards, calls, k);
      hide AdmittedTo, CallsOf, Nondecreasing;
      BurstExactly(c, maxKeys, clock, before, k, now);
      if calls[n].id == k {
        IdealAtOnce(c, before, k, now);
        IdealForTrackedKeys(c, maxKeys, clock, calls, n);
        OneOfTheBurst(c, before, k, now);
      }
    }
  }

  lemma EarlierServed(c: Config, shards: seq<State>, calls: seq<Call>)
    requires ConfigOk(c) && shards != [] && calls != []
    ensures forall i :: 0 <= i < |calls| - 1 ==>
      ServedAt(c, shards, calls[..|calls| - 1], i) == ServedAt(c, shards, calls, i)
  {
    forall i | 0 <= i < |calls| - 1
      ensures ServedAt(c, shards, calls[..|calls| - 1], i) == ServedAt(c, shards, calls, i)
    {
      assert calls[..|calls| - 1][..i] == calls[..i];
    }
  }

  lemma OneCallMore(c: Config, shards: seq<State>, calls: seq<Call>, k: nat)
    requires ConfigOk(c) && shards != [] && calls != []
    ensures var n := |calls| - 1;
      && (Nondecreasing(calls) ==> Nondecreasing(calls[..n]))
      && CallsOf(calls, k) == CallsOf(calls[..n], k) + (if calls[n].id == k then 1 else 0)
      && AdmittedTo(c, shards, calls, k) == AdmittedTo(c, shards, calls[..n], k)
           + (if calls[n].id == k && ServedAt(c, shards, calls, n).answer.Admitted? then 1 else 0)
  {
    hide ServedAt;
  }

  lemma NoneOfTheBurst(c: Config)
    requires ConfigOk(c)
    ensures OfBurst(c, 0) == 0
  {
  }

  lemma OneOfTheBurst(c: Config, before: seq<Call>, k: nat, now: real)
    requires ConfigOk(c)
    requires var n := CallsOf(before, k);
      IdealAfter(c, before, k) == if n == 0 then Unseen else Seen(Bucket(c.burst - OfBurst(c, n) as real, now))
    ensures var n := CallsOf(before, k);
      OfBurst(c, n + 1) == OfBurst(c, n) + if IdealDraw(c, IdealAfter(c, before, k), now).1.Admitted? then 1 else 0
  {
  }

  // ---- The cap ----

  function SumCaps(shards: seq<State>): nat {
    if shards == [] then 0 else shards[0].cap + SumCaps(shards[1..])
  }

  lemma {:induction false} SumOfCaps(shards: seq<State>, from: nat, base: nat, extra: nat)
    requires forall i :: 0 <= i < |shards| ==> shards[i].cap == base + if from + i < extra then 1 else 0
    requires extra <= from + |shards|
    ensures SumCaps(shards) == base * |shards| + if from < extra then extra - from else 0
  {
    if shards != [] {
      SumOfCaps(shards[1..], from + 1, base, extra);
      var n := |shards| - 1;
      assert base * |shards| == base * n + base;
    }
  }

  /** No key slot is lost or gained by sharding. */
  lemma CapsAddUp(maxKeys: nat, burst: real, clock: nat -> real)
    ensures SumCaps(BuildShards(maxKeys, burst, clock)) == maxKeys
  {
    var count := ShardCount(maxKeys);
    SumOfCaps(BuildShards(maxKeys, burst, clock), 0, maxKeys / count, maxKeys % count);
  }

  ghost predicate WithinCap(shards: seq<State>) {
    forall i :: 0 <= i < |shards| ==> |shards[i].buckets| <= shards[i].cap
  }

  lemma SweptIsSmaller(c: Config, s: State, now: real)
    ensures |Swept(c, s, now).buckets| <= |s.buckets|
  {
    SubsetCardinality(Swept(c, s, now).buckets.Keys, s.buckets.Keys);
  }

  /** Over any run, with the clock in any order, every shard keeps within its cap. */
  lemma {:induction false} CapIsKept(c: Config, shards: seq<State>, calls: seq<Call>)
    requires ConfigOk(c) && shards != [] && WithinCap(shards)
    ensures WithinCap(After(c, shards, calls))
    ensures forall j :: 0 <= j < |shards| ==> After(c, shards, calls)[j].cap == shards[j].cap
  {
    if calls != [] {
      var n := |calls| - 1;
      CapIsKept(c, shards, calls[..n]);
      var before := After(c, shards, calls[..n]);
      SweptIsSmaller(c, before[calls[n].id % |shards|], calls[n].now);
    }
  }

  // ---- Sweeps are rare ----

  ghost predicate SweepsAt(c: Config, shards: seq<State>, calls: seq<Call>, i: nat)
    requires ConfigOk(c) && shards != [] && i < |calls|
  {
    Sweeps(c, After(c, shards, calls[..i])[calls[i].id % |shards|], calls[i].id, calls[i].now)
  }

  lemma {:induction false} LastSweepGrows(c: Config, shards: seq<State>, calls: seq<Call>, i: nat, j: nat, shard: nat)
    requires ConfigOk(c) && shards != [] && i <= j <= |calls| && shard < |shards|
    ensures After(c, shards, calls[..i])[shard].lastSweep <= After(c, shards, calls[..j])[shard].lastSweep
  {
    if i < j {
      LastSweepGrows(c, shards, calls, i, j - 1, shard);
      assert calls[..j][..j - 1] == calls[..j - 1];
    }
  }

  /** Two sweeps of a shard are an interval apart, whatever the order of the clock readings. */
  lemma SweepsAreApart(c: Config, shards: seq<State>, calls: seq<Call>, i: nat, j: nat)
    requires ConfigOk(c) && shards != [] && i < j < |calls|
    requires calls[i].id % |shards| == calls[j].id % |shards|
    requires SweepsAt(c, shards, calls, i) && SweepsAt(c, shards, calls, j)
    ensures calls[j].now >= calls[i].now + Max(1.0, 1.0 / c.rate)
  {
    var shard := calls[i].id % |shards|;
    assert calls[..i + 1][..i] == calls[..i];
    assert After(c, shards, calls[..i + 1])[shard].lastSweep == calls[i].now;
    LastSweepGrows(c, shards, calls, i + 1, j, shard);
  }

  // ---- One bucket ----

  ghost function BucketAfter(c: Config, b: Bucket, times: seq<real>): Bucket
    requires ConfigOk(c)
  {
    if times == [] then b
    else Draw(c, BucketAfter(c, b, times[..|times| - 1]), times[|times| - 1]).0
  }

  ghost function BucketAdmits(c: Config, b: Bucket, times: seq<real>): nat
    requires ConfigOk(c)
  {
    if times == [] then 0
    else
      var n := |times| - 1;
      BucketAdmits(c, b, times[..n])
        + if Draw(c, BucketAfter(c, b, times[..n]), times[n]).1.Admitted? then 1 else 0
  }

  lemma DrawBound(c: Config, b: Bucket, now: real)
    requires ConfigOk(c) && b.tokens >= 0.0
    ensures var (b', answer) := Draw(c, b, now);
      && b'.tokens >= 0.0 && b'.last == b.last + Elapsed(b.last, now) && Elapsed(b.last, now) >= 0.0
      && (if answer.Admitted? then 1.0 else 0.0) + b'.tokens <= b.tokens + Times(Elapsed(b.last, now), c.rate)
  {
  }

  lemma {:induction false} BucketRun(c: Config, b: Bucket, times: seq<real>)
    requires ConfigOk(c) && b.tokens >= 0.0
    ensures BucketAfter(c, b, times).tokens >= 0.0 && BucketAfter(c, b, times).last >= b.last
    ensures BucketAdmits(c, b, times) as real + BucketAfter(c, b, times).tokens
         <= b.tokens + Times(BucketAfter(c, b, times).last - b.last, c.rate)
  {
    hide Times, Draw, Elapsed;
    TimesSigns(0.0, c.rate);
    if times != [] {
      var n := |times| - 1;
      BucketRun(c, b, times[..n]);
      var before := BucketAfter(c, b, times[..n]);
      var elapsed := Elapsed(before.last, times[n]);
      DrawBound(c, before, times[n]);
      Distribute(before.last - b.last, elapsed, c.rate);
      assert BucketAfter(c, b, times).last - b.last == before.last - b.last + elapsed;
    }
  }

  /**
    One bucket admits at most its tokens plus the rate times the advance of `last`, for clock readings
    in any order.
   */
  lemma BucketBound(c: Config, b: Bucket, times: seq<real>)
    requires ConfigOk(c) && b.tokens >= 0.0
    ensures BucketAdmits(c, b, times) as real <= b.tokens + (BucketAfter(c, b, times).last - b.last) * c.rate
  {
    hide *;
    BucketRun(c, b, times);
    TimesIs(BucketAfter(c, b, times).last - b.last, c.rate);
  }

  // ---- The wait is exact ----

  /** `Retry-After`, in whole seconds: never less than the wait, and never zero. */
  function RetryAfter(wait: real): int {
    var up := if wait.Floor as real == wait then wait.Floor else wait.Floor + 1;
    if up < 1 then 1 else up
  }

  /** It is the least such number. */
  lemma RetryAfterIsLeast(wait: real, seconds: int)
    ensures RetryAfter(wait) >= 1 && RetryAfter(wait) as real >= wait
    ensures seconds >= 1 && seconds as real >= wait ==> RetryAfter(wait) <= seconds
  {
    assert wait.Floor as real <= wait < wait.Floor as real + 1.0;
    assert seconds as real >= wait && wait.Floor as real != wait ==> seconds > wait.Floor;
  }

  /**
    After a refusal not given by the overflow bucket, with no call between, the
    key is admitted at a later time exactly when the returned wait has passed;
    hence also after the rounded `Retry-After`.
   */
  lemma WaitIsExact(c: Config, s: State, id: nat, now: real, later: real)
    requires ConfigOk(c)
    requires var served := TakeFrom(c, s, id, now).1; served.answer.Refused? && !served.overflow
    requires id in s.buckets ==> s.buckets[id].last <= now <= later
    requires now <= later
    ensures var (s', served) := TakeFrom(c, s, id, now);
      && served.answer.wait > 0.0
      && (TakeFrom(c, s', id, later).1.answer.Admitted? <==> later >= now + served.answer.wait)
      && !TakeFrom(c, s', id, later).1.overflow
      && served.answer.wait <= RetryAfter(served.answer.wait) as real
  {
    var (s', served) := TakeFrom(c, s, id, now);
    var b := s'.buckets[id];
    DrawnAgain(c, b, now, later);
  }

  /** When tokens arrive at `rate`, the missing ones are there exactly after the wait. */
  lemma ArrivesExactly(tokens: real, rate: real, elapsed: real)
    requires rate > 0.0
    ensures tokens + elapsed * rate >= 1.0 <==> elapsed >= (1.0 - tokens) / rate
  {
    var wait := (1.0 - tokens) / rate;
    assert wait * rate == 1.0 - tokens;
    assert elapsed * rate - wait * rate == (elapsed - wait) * rate;
    if elapsed >= wait {
      assert (elapsed - wait) * rate >= 0.0;
    } else {
      assert (elapsed - wait) * rate < 0.0;
    }
  }

  lemma DrawnAgain(c: Config, b: Bucket, now: real, later: real)
    requires ConfigOk(c) && b.last == now <= later && b.tokens < 1.0
    ensures var wait := (1.0 - b.tokens) / c.rate;
      wait > 0.0 && (Draw(c, b, later).1.Admitted? <==> later >= now + wait)
  {
    ArrivesExactly(b.tokens, c.rate, later - now);
  }

  // ---- The total over all keys ----

  ghost predicate BucketOk(c: Config, b: Bucket, clock: real) {
    0.0 <= b.tokens <= c.burst && b.last <= clock
  }

  ghost predicate ShardOk(c: Config, s: State, clock: real) {
    && BucketOk(c, s.overflow, clock)
    && |s.buckets| <= s.cap
    && forall k :: k in s.buckets ==> BucketOk(c, s.buckets[k], clock)
  }

  /** What a bucket is short of being full. */
  ghost function Debt(c: Config, b: Bucket, now: real): real {
    c.burst - Refill(c, b, now).tokens
  }

  ghost function SumDebt(c: Config, m: map<nat, Bucket>, now: real): real
    decreases |m|
  {
    if m == map[] then 0.0
    else
      var k :| k in m;
      Debt(c, m[k], now) + SumDebt(c, m - {k}, now)
  }

  lemma {:induction false} SumDebtAt(c: Config, m: map<nat, Bucket>, now: real, k: nat)
    requires k in m
    ensures SumDebt(c, m, now) == Debt(c, m[k], now) + SumDebt(c, m - {k}, now)
    decreases |m|
  {
    var j :| j in m && SumDebt(c, m, now) == Debt(c, m[j], now) + SumDebt(c, m - {j}, now);
    if j != k {
      SumDebtAt(c, m - {j}, now, k);
      SumDebtAt(c, m - {k}, now, j);
      assert m - {j} - {k} == m - {k} - {j};
    }
  }

  /** Buckets without debt can be dropped. */
  lemma {:induction false} SumDebtKept(c: Config, m: map<nat, Bucket>, kept: map<nat, Bucket>, now: real)
    requires kept.Keys <= m.Keys && forall k :: k in kept ==> kept[k] == m[k]
    requires forall k :: k in m && k !in kept ==> Debt(c, m[k], now) == 0.0
    ensures SumDebt(c, kept, now) == SumDebt(c, m, now)
    decreases |m|
  {
    if m != map[] {
      var k :| k in m;
      SumDebtAt(c, m, now, k);
      if k in kept {
        SumDebtAt(c, kept, now, k);
        SumDebtKept(c, m - {k}, kept - {k}, now);
      } else {
        SumDebtKept(c, m - {k}, kept, now);
      }
    } else {
      assert kept == map[];
    }
  }

  lemma {:induction false} SumDebtBounds(c: Config, m: map<nat, Bucket>, clock: real, now: real)
    requires ConfigOk(c) && clock <= now
    requires forall k :: k in m ==> BucketOk(c, m[k], clock)
    ensures 0.0 <= SumDebt(c, m, now) <= Times(|m| as real, c.burst)
    ensures SumDebt(c, m, clock) - Times(|m| as real, Times(now - clock, c.rate)) <= SumDebt(c, m, now)
    decreases |m|
  {
    hide Times, Debt;
    TimesSigns(0.0, c.burst);
    TimesSigns(0.0, Times(now - clock, c.rate));
    if m != map[] {
      var k :| k in m;
      SumDebtAt(c, m, now, k);
      SumDebtAt(c, m, clock, k);
      DebtBounds(c, m[k], clock, now);
      SumDebtBounds(c, m - {k}, clock, now);
      var n := |m - {k}| as real;
      assert |m| as real == n + 1.0;
      Distribute(n, 1.0, c.burst);
      Distribute(n, 1.0, Times(now - clock, c.rate));
    }
  }

  lemma DebtBounds(c: Config, b: Bucket, clock: real, now: real)
    requires ConfigOk(c) && clock <= now && BucketOk(c, b, clock)
    ensures 0.0 <= Debt(c, b, now) <= c.burst
    ensures Debt(c, b, clock) - Times(now - clock, c.rate) <= Debt(c, b, now)
  {
    assert Elapsed(b.last, now) == Elapsed(b.last, clock) + (now - clock);
    Distribute(Elapsed(b.last, clock), now - clock, c.rate);
    MulMonotone(0.0, Elapsed(b.last, now), c.rate);
    MulMonotone(0.0, now - clock, c.rate);
  }

  ghost function ShardDebt(c: Config, s: State, now: real): real {
    SumDebt(c, s.buckets, now) + Debt(c, s.overflow, now)
  }

  /** Drawing from a bucket adds exactly what was admitted to its debt. */
  lemma DrawAddsDebt(c: Config, b: Bucket, now: real)
    requires ConfigOk(c) && BucketOk(c, b, now)
    ensures BucketOk(c, Draw(c, b, now).0, now)
    ensures Debt(c, Draw(c, b, now).0, now) == Debt(c, b, now) + if Draw(c, b, now).1.Admitted? then 1.0 else 0.0
  {
  }

  lemma NewBucketOk(c: Config, now: real)
    requires ConfigOk(c)
    ensures BucketOk(c, Bucket(c.burst, now), now) && Debt(c, Bucket(c.burst, now), now) == 0.0
  {
  }

  lemma SweepKeepsDebt(c: Config, s: State, now: real)
    requires ConfigOk(c) && ShardOk(c, s, now)
    ensures ShardOk(c, Swept(c, s, now), now)
    ensures Swept(c, s, now).overflow == s.overflow && Swept(c, s, now).cap == s.cap
    ensures ShardDebt(c, Swept(c, s, now), now) == ShardDebt(c, s, now)
  {
    SweptIsSmaller(c, s, now);
    SumDebtKept(c, s.buckets, Swept(c, s, now).buckets, now);
  }

  lemma UpdateSumDebt(c: Config, m: map<nat, Bucket>, id: nat, b: Bucket, now: real)
    ensures SumDebt(c, m[id := b], now)
      == SumDebt(c, m, now) + Debt(c, b, now) - if id in m then Debt(c, m[id], now) else 0.0
  {
    hide Debt;
    var after := m[id := b];
    SumDebtAt(c, after, now, id);
    assert after - {id} == m - {id};
    if id in m {
      SumDebtAt(c, m, now, id);
    } else {
      assert m - {id} == m;
    }
  }

  /** The call once the shard has been swept if it had to be. */
  lemma ServeAddsDebt(c: Config, s: State, id: nat, now: real)
    requires ConfigOk(c) && ShardOk(c, s, now) && !Sweeps(c, s, id, now)
    ensures var (s', served) := TakeFrom(c, s, id, now);
      && ShardOk(c, s', now) && s'.cap == s.cap
      && ShardDebt(c, s', now) == ShardDebt(c, s, now) + if served.answer.Admitted? then 1.0 else 0.0
  {
    hide Debt, Draw, SumDebt, BucketOk, Interval;
    if Overflows(s, id) {
      DrawAddsDebt(c, s.overflow, now);
    } else {
      var b := if id in s.buckets then s.buckets[id] else Bucket(c.burst, now);
      NewBucketOk(c, now);
      DrawAddsDebt(c, b, now);
      UpdateSumDebt(c, s.buckets, id, Draw(c, b, now).0, now);
    }
  }

  /** A call adds exactly what it admits to the debt of its shard: sweeping, re-creation and overflow add nothing. */
  lemma TakeAddsDebt(c: Config, s: State, id: nat, now: real)
    requires ConfigOk(c) && ShardOk(c, s, now)
    ensures var (s', served) := TakeFrom(c, s, id, now);
      && ShardOk(c, s', now) && s'.cap == s.cap
      && ShardDebt(c, s', now) == ShardDebt(c, s, now) + if served.answer.Admitted? then 1.0 else 0.0
  {
    if Sweeps(c, s, id, now) {
      SweepKeepsDebt(c, s, now);
      SweptOnce(c, s, id, now);
      ServeAddsDebt(c, Swept(c, s, now), id, now);
    } else {
      ServeAddsDebt(c, s, id, now);
    }
  }

  /** A shard just swept is not swept again at once. */
  lemma SweptOnce(c: Config, s: State, id: nat, now: real)
    requires ConfigOk(c) && Sweeps(c, s, id, now)
    ensures !Sweeps(c, Swept(c, s, now), id, now)
    ensures TakeFrom(c, s, id, now) == TakeFrom(c, Swept(c, s, now), id, now)
  {
  }

  ghost predicate TableOk(c: Config, shards: seq<State>, clock: real) {
    forall i :: 0 <= i < |shards| ==> ShardOk(c, shards[i], clock)
  }

  ghost function TableDebt(c: Config, shards: seq<State>, now: real): real {
    if shards == [] then 0.0 else ShardDebt(c, shards[0], now) + TableDebt(c, shards[1..], now)
  }

  lemma {:induction false} TableDebtUpdate(c: Config, shards: seq<State>, i: nat, s: State, now: real)
    requires i < |shards|
    ensures TableDebt(c, shards[i := s], now)
      == TableDebt(c, shards, now) - ShardDebt(c, shards[i], now) + ShardDebt(c, s, now)
  {
    if i == 0 {
      assert shards[i := s][1..] == shards[1..];
    } else {
      TableDebtUpdate(c, shards[1..], i - 1, s, now);
      assert shards[i := s][1..] == shards[1..][i - 1 := s];
    }
  }

  /** All the buckets there can be: one per key kept and one overflow bucket per shard. */
  function Slots(shards: seq<State>): nat {
    SumCaps(shards) + |shards|
  }

  lemma SlotShare(n: real, m: real, k: real, x: real)
    requires m <= k && x >= 0.0
    ensures Times(n, x) + Times(m, x) + x <= Times(n + (k + 1.0), x)
  {
  }

  lemma {:induction false} TableDebtBounds(c: Config, shards: seq<State>, clock: real, now: real)
    requires ConfigOk(c) && clock <= now && TableOk(c, shards, clock)
    ensures 0.0 <= TableDebt(c, shards, now) <= Times(Slots(shards) as real, c.burst)
    ensures TableDebt(c, shards, clock) - Times(Slots(shards) as real, Times(now - clock, c.rate))
      <= TableDebt(c, shards, now)
  {
    hide Times, SumDebt, Debt, BucketOk;
    TimesSigns(0.0, c.burst);
    TimesSigns(now - clock, c.rate);
    TimesSigns(0.0, Times(now - clock, c.rate));
    if shards != [] {
      var s, rest := shards[0], shards[1..];
      assert forall i :: 0 <= i < |rest| ==> rest[i] == shards[i + 1];
      TableDebtBounds(c, rest, clock, now);
      SumDebtBounds(c, s.buckets, clock, now);
      DebtBounds(c, s.overflow, clock, now);
      var n, k := Slots(rest) as real, s.cap as real;
      assert Slots(shards) as real == n + (k + 1.0);
      SlotShare(n, |s.buckets| as real, k, c.burst);
      SlotShare(n, |s.buckets| as real, k, Times(now - clock, c.rate));
    }
  }

  ghost function Admits(c: Config, shards: seq<State>, calls: seq<Call>): nat
    requires ConfigOk(c) && shards != []
  {
    if calls == [] then 0
    else
      var n := |calls| - 1;
      Admits(c, shards, calls[..n])
        + if Step(c, After(c, shards, calls[..n]), calls[n].id, calls[n].now).1.answer.Admitted? then 1 else 0
  }

  ghost predicate Within(calls: seq<Call>, start: real, end: real) {
    Nondecreasing(calls) && forall i :: 0 <= i < |calls| ==> start <= calls[i].now <= end
  }

  lemma StepAddsDebt(c: Config, shards: seq<State>, id: nat, now: real)
    requires ConfigOk(c) && shards != [] && TableOk(c, shards, now)
    ensures var (after, served) := Step(c, shards, id, now);
      && TableOk(c, after, now) && Slots(after) == Slots(shards)
      && TableDebt(c, after, now) == TableDebt(c, shards, now) + if served.answer.Admitted? then 1.0 else 0.0
  {
    hide TakeFrom, ShardDebt, TableDebt, Slots, ShardOk;
    var i := id % |shards|;
    TakeAddsDebt(c, shards[i], id, now);
    var s := TakeFrom(c, shards[i], id, now).0;
    TableDebtUpdate(c, shards, i, s, now);
    SameCapsSameSlots(shards, i, s);
  }

  lemma TableOkLater(c: Config, shards: seq<State>, clock: real, now: real)
    requires clock <= now && TableOk(c, shards, clock)
    ensures TableOk(c, shards, now)
  {
  }

  /** What is admitted is paid for by debt, which time reduces by `rate` per slot. */
  lemma {:induction false} AdmitsAreDebt(c: Config, shards: seq<State>, calls: seq<Call>, start: real, end: real)
    requires ConfigOk(c) && shards != [] && start <= end
    requires TableOk(c, shards, start) && Within(calls, start, end)
    ensures TableOk(c, After(c, shards, calls), end)
    ensures Slots(After(c, shards, calls)) == Slots(shards)
    ensures TableDebt(c, shards, start) + Admits(c, shards, calls) as real
         <= TableDebt(c, After(c, shards, calls), end) + Times(Slots(shards) as real, Times(end - start, c.rate))
  {
    hide Times, Step, TableDebt, Slots, TableOk;
    if calls == [] {
      TableOkLater(c, shards, start, end);
      TableDebtBounds(c, shards, start, end);
    } else {
      var n := |calls| - 1;
      var now := calls[n].now;
      AdmitsAreDebt(c, shards, calls[..n], start, now);
      StepAddsDebt(c, After(c, shards, calls[..n]), calls[n].id, now);
      var after := After(c, shards, calls);
      TableOkLater(c, after, now, end);
      TableDebtBounds(c, after, now, end);
      TimeSplits(Slots(shards) as real, start, now, end, c.rate);
    }
  }

  lemma TimeSplits(m: real, start: real, now: real, end: real, rate: real)
    ensures Times(m, Times(end - start, rate)) == Times(m, Times(now - start, rate)) + Times(m, Times(end - now, rate))
  {
  }

  lemma {:induction false} SameCapsSameSlots(shards: seq<State>, i: nat, s: State)
    requires i < |shards| && s.cap == shards[i].cap
    ensures Slots(shards[i := s]) == Slots(shards)
  {
    if i == 0 {
      assert shards[i := s][1..] == shards[1..];
    } else {
      SameCapsSameSlots(shards[1..], i - 1, s);
      assert shards[i := s][1..] == shards[1..][i - 1 := s];
    }
  }

  lemma FreshTableOk(c: Config, maxKeys: nat, clock: nat -> real, created: real)
    requires ConfigOk(c) && forall k :: clock(k) <= created
    ensures TableOk(c, BuildShards(maxKeys, c.burst, clock), created)
  {
  }

  lemma WindowArithmetic(m: real, burst: real, length: real, rate: real)
    ensures Times(m, burst) + Times(m, Times(length, rate)) == m * (burst + rate * length)
  {
  }

  /**
    However the keys are varied, the calls of any window, made from any state the
    limiter can be in, admit at most `(max_keys + shards) * (burst + rate * length)`.
   */
  lemma WindowBound(c: Config, maxKeys: nat, clock: nat -> real, created: real,
                    history: seq<Call>, window: seq<Call>, start: real, length: real)
    requires ConfigOk(c) && length >= 0.0 && created <= start && forall k :: clock(k) <= created
    requires Within(history, created, start) && Within(window, start, start + length)
    ensures var shards := BuildShards(maxKeys, c.burst, clock);
      Admits(c, After(c, shards, history), window) as real
      <= (maxKeys + ShardCount(maxKeys)) as real * (c.burst + c.rate * length)
  {
    hide Times, TableDebt, Step, TableOk, SumCaps, BuildShards, ShardCount, Admits, After, Within;
    var shards := BuildShards(maxKeys, c.burst, clock);
    CapsAddUp(maxKeys, c.burst, clock);
    FreshTableOk(c, maxKeys, clock, created);
    AdmitsAreDebt(c, shards, history, created, start);
    var s0 := After(c, shards, history);
    AdmitsAreDebt(c, s0, window, start, start + length);
    TableDebtBounds(c, s0, start, start);
    TableDebtBounds(c, After(c, s0, window), start + length, start + length);
    assert start + length - start == length;
    WindowArithmetic(Slots(shards) as real, c.burst, length, c.rate);
  }
}
