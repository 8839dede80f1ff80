/** The per-client token bucket with its lazy eviction sweep. Times are seconds on a clock that never runs back. */
module RateLimiter {
  import opened Wrappers

  const SWEEP_INTERVAL: real := 60.0

  datatype Bucket = Bucket(tokens: real, last: real)

  datatype Call = Call(key: string, at: real)

  /** A bucket holds `capacity` tokens; `total(t)` have been refilled by time `t`, counted from any origin. */
  datatype Config = Config(capacity: real, total: real -> real)

  /** Refilled continuously at a rate, in tokens per second. */
  function PerSecond(capacity: real, refill: real): Config {
    Config(capacity, (t: real) => t * refill)
  }

  function Refilled(c: Config, from: real, to: real): real {
    c.total(to) - c.total(from)
  }

  ghost predicate NeverDrains(c: Config) {
    forall t, u | t <= u :: c.total(t) <= c.total(u)
  }

  lemma {:induction false} PerSecondRefills(capacity: real, refill: real)
    requires refill >= 0.0
    ensures NeverDrains(PerSecond(capacity, refill))
    ensures forall t, u :: Refilled(PerSecond(capacity, refill), t, u) == (u - t) * refill
  {
  }

  type Buckets = map<string, Bucket>

  function Min(a: real, b: real): real {
    if a <= b then a else b
  }

  /** The level of a bucket brought forward to a time. */
  function Level(c: Config, b: Bucket, at: real): real {
    Min(c.capacity, b.tokens + Refilled(c, b.last, at))
  }

  /** What the key has to spend at a time; a key without a bucket starts full. */
  function Available(c: Config, buckets: Buckets, call: Call): real {
    if call.key in buckets then Level(c, buckets[call.key], call.at) else c.capacity
  }

  /** The bucket after a call: refilled, and one token lighter if the call is allowed. */
  function Spent(c: Config, buckets: Buckets, call: Call): Bucket {
    var level := Available(c, buckets, call);
    Bucket(if level < 1.0 then level else level - 1.0, call.at)
  }

  // ----- the limiter that never evicts -----

  function Answer(c: Config, buckets: Buckets, call: Call): bool {
    Available(c, buckets, call) >= 1.0
  }

  function Remember(c: Config, buckets: Buckets, call: Call): Buckets {
    buckets[call.key := Spent(c, buckets, call)]
  }

  function RememberAll(c: Config, buckets: Buckets, calls: seq<Call>): Buckets {
    if calls == [] then buckets
    else Remember(c, RememberAll(c, buckets, calls[..|calls| - 1]), calls[|calls| - 1])
  }

  // ----- the limiter that sweeps -----

  /** Idle for more than a minute and refilled by now: nothing worth keeping. */
  predicate Evictable(c: Config, b: Bucket, now: real) {
    now - b.last > SWEEP_INTERVAL && b.tokens + Refilled(c, b.last, now) >= c.capacity
  }

  predicate SweepDue(lastSweep: Option<real>, now: real) {
    lastSweep.None? || now - lastSweep.value >= SWEEP_INTERVAL
  }

  /** What one sweep leaves. */
  function SweptBuckets(c: Config, buckets: Buckets, lastSweep: Option<real>, now: real): Buckets {
    if SweepDue(lastSweep, now)
    then map k | k in buckets && !Evictable(c, buckets[k], now) :: buckets[k]
    else buckets
  }

  /** The buckets after one call on the limiter that sweeps. */
  function AfterCall(c: Config, buckets: Buckets, lastSweep: Option<real>, call: Call): Buckets {
    var touched := buckets[call.key := Bucket(Available(c, buckets, call), call.at)];
    SweptBuckets(c, touched, lastSweep, call.at)[call.key := Spent(c, buckets, call)]
  }

  class Limiter {
    const config: Config
    var buckets: Buckets
    var lastSweep: Option<real>

    /** Every call answered so far, in order. */
    ghost var history: seq<Call>

    /** The buckets a limiter without a sweep would hold are these, plus some that are full again. */
    ghost predicate Valid()
      reads this
    {
      && NeverDrains(config)
      && Ordered(history)
      && Refines(config, buckets, RememberAll(config, map[], history), Now(history))
      && (history == [] ==> lastSweep.None?)
      && Swept(config, buckets, lastSweep, Now(history))
    }

    constructor (capacity: real, refill: real)
      requires refill >= 0.0
      ensures Valid() && config == PerSecond(capacity, refill) && history == []
    {
      PerSecondRefills(capacity, refill);
      config := PerSecond(capacity, refill);
      buckets, lastSweep, history := map[], None, [];
    }

    /** Evict idle buckets, at most once a minute. */
    method Sweep(now: real)
      modifies this`buckets, this`lastSweep
      ensures buckets == SweptBuckets(config, old(buckets), old(lastSweep), now)
      ensures lastSweep == if SweepDue(old(lastSweep), now) then Some(now) else old(lastSweep)
    {
      if !SweepDue(lastSweep, now) {
        return;
      }
      lastSweep := Some(now);
      var rest := buckets.Keys;
      while rest != {}
        invariant rest <= old(buckets).Keys && lastSweep == Some(now)
        invariant buckets == map k | k in old(buckets) && (k in rest || !Evictable(config, old(buckets)[k], now)) ::
                  old(buckets)[k]
        decreases rest
      {
        var k :| k in rest;
        rest := rest - {k};
        if Evictable(config, buckets[k], now) {
          buckets := buckets - {k};
        }
      }
    }

    /** Bring the bucket forward to now, sweep, and take a token if there is one. */
    method Take(call: Call) returns (ok: bool)
      modifies this`buckets, this`lastSweep
      ensures buckets == AfterCall(config, old(buckets), old(lastSweep), call)
      ensures lastSweep == if SweepDue(old(lastSweep), call.at) then Some(call.at) else old(lastSweep)
      ensures ok == Answer(config, old(buckets), call)
    {
      var b: Bucket;
      if call.key !in buckets {
        b := Bucket(config.capacity, call.at);
      } else {
        var was := buckets[call.key];
        b := Bucket(Min(config.capacity, was.tokens + Refilled(config, was.last, call.at)), call.at);
      }
      buckets := buckets[call.key := b];
      Sweep(call.at);
      assert call.key in buckets && buckets[call.key] == b;
      if b.tokens < 1.0 {
        return false;
      }
      buckets := buckets[call.key := b.(tokens := b.tokens - 1.0)];
      return true;
    }

    /**
     * The sweep never changes an answer: it is what the limiter that keeps every bucket says. What
     * stays in memory was used within two minutes, or was not full again a minute ago.
     */
    method Allow(call: Call) returns (ok: bool)
      requires Valid() && (history != [] ==> Now(history) <= call.at)
      modifies this
      ensures Valid() && history == old(history) + [call]
      ensures ok == Answer(config, RememberAll(config, map[], old(history)), call)
      ensures forall k | k in buckets :: WorthKeeping(config, buckets[k], call.at)
    {
      ghost var reference := RememberAll(config, map[], history);
      SameAvailable(config, buckets, reference, Now(history), call);
      AllowRefines(config, buckets, reference, lastSweep, Now(history), call);
      AllowSweeps(config, buckets, lastSweep, Now(history), call);
      HistoryGrows(config, history, call);
      ok := Take(call);
      history := history + [call];
    }
  }

  /** The time of the latest call, 0 before any. */
  function Now(calls: seq<Call>): real {
    if calls == [] then 0.0 else calls[|calls| - 1].at
  }

  ghost predicate Ordered(calls: seq<Call>) {
    forall i, j | 0 <= i < j < |calls| :: calls[i].at <= calls[j].at
  }

  lemma {:induction false} HistoryGrows(c: Config, history: seq<Call>, call: Call)
    requires Ordered(history) && (history != [] ==> Now(history) <= call.at)
    ensures Ordered(history + [call]) && Now(history + [call]) == call.at
    ensures RememberAll(c, map[], history + [call]) == Remember(c, RememberAll(c, map[], history), call)
  {
  }

  /** Same buckets, but for reference buckets that are full from `now` on. */
  ghost predicate Refines(c: Config, buckets: Buckets, reference: Buckets, now: real) {
    && buckets.Keys <= reference.Keys
    && (forall k | k in buckets :: buckets[k] == reference[k])
    && (forall k | k in reference :: reference[k].last <= now)
    && (forall k | k in reference && k !in buckets :: Level(c, reference[k], now) == c.capacity)
  }

  lemma {:induction false} FullStaysFull(c: Config, b: Bucket, now: real, later: real)
    requires NeverDrains(c) && now <= later && Level(c, b, now) == c.capacity
    ensures Level(c, b, later) == c.capacity
  {
  }

  lemma {:induction false} SameAvailable(c: Config, buckets: Buckets, reference: Buckets, now: real, call: Call)
    requires NeverDrains(c) && Refines(c, buckets, reference, now) && (reference.Keys != {} ==> now <= call.at)
    ensures Available(c, buckets, call) == Available(c, reference, call)
  {
  }

  /** No bucket was evictable at the last sweep, unless it was used since. */
  ghost predicate Swept(c: Config, buckets: Buckets, lastSweep: Option<real>, now: real) {
    match lastSweep
    case None => buckets == map[]
    case Some(at) => at <= now && forall k | k in buckets :: buckets[k].last >= at || !Evictable(c, buckets[k], at)
  }

  ghost predicate WorthKeeping(c: Config, b: Bucket, now: real) {
    now - b.last < 2.0 * SWEEP_INTERVAL || b.tokens + Refilled(c, b.last, now - SWEEP_INTERVAL) < c.capacity
  }

  lemma {:induction false} AllowRefines(c: Config, buckets: Buckets, reference: Buckets, lastSweep: Option<real>,
                                        now: real, call: Call)
    requires NeverDrains(c) && Refines(c, buckets, reference, now) && (reference.Keys != {} ==> now <= call.at)
    ensures Refines(c, AfterCall(c, buckets, lastSweep, call), Remember(c, reference, call), call.at)
  {
    SameAvailable(c, buckets, reference, now, call);
    var after := AfterCall(c, buckets, lastSweep, call);
    forall k | k in reference && k !in after ensures Level(c, reference[k], call.at) == c.capacity {
      if k !in buckets {
        FullStaysFull(c, reference[k], now, call.at);
      }
    }
  }

  lemma {:induction false} AllowSweeps(c: Config, buckets: Buckets, lastSweep: Option<real>, now: real, call: Call)
    requires NeverDrains(c) && Swept(c, buckets, lastSweep, now) && (lastSweep.Some? ==> now <= call.at)
    ensures
      var swept := if SweepDue(lastSweep, call.at) then Some(call.at) else lastSweep;
      var after := AfterCall(c, buckets, lastSweep, call);
      Swept(c, after, swept, call.at) && forall k | k in after :: WorthKeeping(c, after[k], call.at)
  {
  }

  // ----- how many calls get through -----

  /** Calls of the key that a limiter holding `buckets` allows, out of `calls`. */
  function Allowed(c: Config, buckets: Buckets, calls: seq<Call>, key: string): nat {
    if calls == [] then 0
    else
      var before := calls[..|calls| - 1];
      var call := calls[|calls| - 1];
      var n := Allowed(c, buckets, before, key);
      if call.key == key && Answer(c, RememberAll(c, buckets, before), call) then n + 1 else n
  }

  ghost predicate InRange(c: Config, buckets: Buckets, now: real) {
    forall k | k in buckets :: 0.0 <= buckets[k].tokens <= c.capacity && buckets[k].last <= now
  }

  lemma {:induction false} RememberInRange(c: Config, buckets: Buckets, now: real, call: Call)
    requires NeverDrains(c) && c.capacity >= 0.0 && InRange(c, buckets, now) && now <= call.at
    ensures InRange(c, Remember(c, buckets, call), call.at)
    ensures 0.0 <= Available(c, buckets, call) <= c.capacity
  {
  }

  lemma {:induction false} RememberAllInRange(c: Config, buckets: Buckets, start: real, calls: seq<Call>)
    requires NeverDrains(c) && c.capacity >= 0.0 && InRange(c, buckets, start)
    requires Ordered(calls) && (calls != [] ==> start <= calls[0].at)
    ensures InRange(c, RememberAll(c, buckets, calls), if calls == [] then start else Now(calls))
  {
    if calls != [] {
      var before := calls[..|calls| - 1];
      RememberAllInRange(c, buckets, start, before);
      var since := if before == [] then start else Now(before);
      RememberInRange(c, RememberAll(c, buckets, before), since, calls[|calls| - 1]);
    }
  }

  /** Allowed calls, and the tokens left after the latest of them, are paid for by the capacity and the refill. */
  ghost predicate Paid(c: Config, buckets: Buckets, key: string, n: nat, since: real) {
    n == 0 || (
      && key in buckets
      && since <= buckets[key].last
      && n as real + buckets[key].tokens <= c.capacity + Refilled(c, since, buckets[key].last))
  }

  lemma {:induction false} CallKeepsPaid(c: Config, buckets: Buckets, call: Call, key: string, n: nat, since: real)
    requires NeverDrains(c) && since <= call.at && Paid(c, buckets, key, n, since)
    ensures var more := if call.key == key && Answer(c, buckets, call) then n + 1 else n;
            Paid(c, Remember(c, buckets, call), key, more, since)
  {
  }

  lemma {:induction false} WindowIsPaid(c: Config, buckets: Buckets, calls: seq<Call>, key: string)
    requires NeverDrains(c) && calls != [] && Ordered(calls)
    ensures Paid(c, RememberAll(c, buckets, calls), key, Allowed(c, buckets, calls, key), calls[0].at)
  {
    var before := calls[..|calls| - 1];
    var call := calls[|calls| - 1];
    if before != [] {
      WindowIsPaid(c, buckets, before, key);
    }
    CallKeepsPaid(c, RememberAll(c, buckets, before), call, key, Allowed(c, buckets, before, key), calls[0].at);
  }

  lemma {:induction false} HistoryInRange(c: Config, past: seq<Call>, now: real)
    requires NeverDrains(c) && c.capacity >= 0.0 && Ordered(past) && (past != [] ==> Now(past) <= now)
    ensures InRange(c, RememberAll(c, map[], past), now)
  {
    if past != [] {
      RememberAllInRange(c, map[], past[0].at, past);
    }
  }

  lemma {:induction false} OrderedParts(past: seq<Call>, window: seq<Call>)
    requires window != [] && Ordered(past + window)
    ensures Ordered(past) && Ordered(window) && (past != [] ==> Now(past) <= window[0].at) &&
            window[0].at <= Now(window)
  {
    var all := past + window;
    assert forall i | 0 <= i < |past| :: all[i] == past[i];
    assert forall i | 0 <= i < |window| :: window[i] == all[|past| + i];
  }

  /**
   * Over any stretch of any history, whatever other clients do in between, one client gets through
   * at most a full bucket plus what the stretch refills.
   */
  lemma {:induction false} AllowedInWindow(c: Config, past: seq<Call>, window: seq<Call>, key: string)
    requires NeverDrains(c) && c.capacity >= 0.0 && window != [] && Ordered(past + window)
    ensures Allowed(c, RememberAll(c, map[], past), window, key) as real
         <= c.capacity + Refilled(c, window[0].at, Now(window))
  {
    OrderedParts(past, window);
    HistoryInRange(c, past, window[0].at);
    var start := RememberAll(c, map[], past);
    WindowIsPaid(c, start, window, key);
    RememberAllInRange(c, start, window[0].at, window);
    assert Refilled(c, window[0].at, Now(window)) >= 0.0;
  }

  /** The same in numbers: in D seconds, at most `capacity + D * refill` calls of one client get through. */
  lemma {:induction false} AllowedPerSecond(capacity: real, refill: real, past: seq<Call>, window: seq<Call>,
                                            key: string)
    requires capacity >= 0.0 && refill >= 0.0 && window != [] && Ordered(past + window)
    ensures var c := PerSecond(capacity, refill);
      Allowed(c, RememberAll(c, map[], past), window, key) as real <= capacity + (Now(window) - window[0].at) * refill
  {
    PerSecondRefills(capacity, refill);
    AllowedInWindow(PerSecond(capacity, refill), past, window, key);
  }

  // ----- which calls get through -----

  /** Where the bound of a stretch is tight: what the bucket holds is what the stretch left of it. */
  ghost predicate Tight(c: Config, calls: seq<Call>, key: string, j: nat) {
    var buckets := RememberAll(c, map[], calls);
    && j < |calls| && key in buckets
    && Allowed(c, RememberAll(c, map[], calls[..j]), calls[j..], key) as real + buckets[key].tokens
       == c.capacity + Refilled(c, calls[j].at, buckets[key].last)
  }

  lemma {:induction false} RememberAllSplit(c: Config, buckets: Buckets, calls: seq<Call>, j: nat)
    requires j <= |calls|
    ensures RememberAll(c, RememberAll(c, buckets, calls[..j]), calls[j..]) == RememberAll(c, buckets, calls)
    decreases |calls|
  {
    if j == |calls| {
      assert calls[..j] == calls;
    } else {
      var before := calls[..|calls| - 1];
      RememberAllSplit(c, buckets, before, j);
      assert before[..j] == calls[..j] && before[j..] == calls[j..][..|calls| - j - 1];
    }
  }

  /** One more call at the end of a stretch. */
  lemma {:induction false} AllowedPush(c: Config, calls: seq<Call>, call: Call, key: string, j: nat)
    requires j <= |calls|
    ensures var start := RememberAll(c, map[], calls[..j]);
            Allowed(c, start, (calls + [call])[j..], key)
            == Allowed(c, start, calls[j..], key)
               + if call.key == key && Answer(c, RememberAll(c, map[], calls), call) then 1 else 0
  {
    RememberAllSplit(c, map[], calls, j);
    var stretch := (calls + [call])[j..];
    assert stretch[..|stretch| - 1] == calls[j..] && stretch[|stretch| - 1] == call;
  }

  /** The stretch since the bucket was last full is tight. */
  lemma {:induction false} SomeStretchIsTight(c: Config, calls: seq<Call>, key: string) returns (j: nat)
    requires key in RememberAll(c, map[], calls)
    ensures Tight(c, calls, key, j)
  {
    var before, call := calls[..|calls| - 1], calls[|calls| - 1];
    assert calls == before + [call];
    var buckets := RememberAll(c, map[], before);
    if key != call.key {
      j := SomeStretchIsTight(c, before, key);
      AllowedPush(c, before, call, key, j);
      assert calls[..j] == before[..j];
    } else if Available(c, buckets, call) == c.capacity {
      j := |before|;
      AllowedPush(c, before, call, key, j);
      assert before[j..] == [] && calls[..j] == before;
    } else {
      j := SomeStretchIsTight(c, before, key);
      AllowedPush(c, before, call, key, j);
      assert calls[..j] == before[..j];
    }
  }

  /** Letting one more call through keeps a stretch within a full bucket plus what the stretch refills. */
  ghost predicate HasRoom(c: Config, past: seq<Call>, call: Call, j: nat)
    requires j <= |past|
  {
    Allowed(c, RememberAll(c, map[], past[..j]), past[j..], call.key) as real + 1.0
      <= c.capacity + Refilled(c, (past + [call])[j].at, call.at)
  }

  lemma {:induction false} RefusedForAStretch(c: Config, past: seq<Call>, call: Call) returns (j: nat)
    requires !Answer(c, RememberAll(c, map[], past), call)
    ensures j <= |past| && !HasRoom(c, past, call, j)
  {
    var buckets := RememberAll(c, map[], past);
    if call.key in buckets && Available(c, buckets, call) < c.capacity {
      j := SomeStretchIsTight(c, past, call.key);
    } else {
      j := |past|;
      assert past[j..] == [];
    }
  }

  lemma {:induction false} AllowedHasRoom(c: Config, past: seq<Call>, call: Call, j: nat)
    requires NeverDrains(c) && Ordered(past + [call]) && j <= |past|
    requires Answer(c, RememberAll(c, map[], past), call)
    ensures HasRoom(c, past, call, j)
  {
    if j == |past| {
      assert past[j..] == [];
    } else {
      assert Ordered(past[j..]) by {
        assert forall i | 0 <= i < |past| :: past[i] == (past + [call])[i];
      }
      assert past[j].at <= call.at by {
        assert (past + [call])[j] == past[j] && (past + [call])[|past|] == call;
      }
      WindowIsPaid(c, RememberAll(c, map[], past[..j]), past[j..], call.key);
      RememberAllSplit(c, map[], past, j);
      assert past[j..][0] == past[j];
    }
  }

  /**
   * Exactly which calls get through: a call is allowed if and only if letting it through keeps every
   * stretch that ends with it within a full bucket plus what the stretch refills.
   */
  lemma {:induction false} AllowedIffRoom(c: Config, past: seq<Call>, call: Call)
    requires NeverDrains(c) && Ordered(past + [call])
    ensures Answer(c, RememberAll(c, map[], past), call) <==> forall j: nat | j <= |past| :: HasRoom(c, past, call, j)
  {
    if Answer(c, RememberAll(c, map[], past), call) {
      forall j: nat | j <= |past| ensures HasRoom(c, past, call, j) {
        AllowedHasRoom(c, past, call, j);
      }
    } else {
      var j := RefusedForAStretch(c, past, call);
    }
  }

  function CallsOf(calls: seq<Call>, key: string): nat {
    if calls == [] then 0
    else CallsOf(calls[..|calls| - 1], key) + if calls[|calls| - 1].key == key then 1 else 0
  }

  lemma {:induction false} BurstLeaves(c: Config, buckets: Buckets, calls: seq<Call>, key: string)
    requires NeverDrains(c) && calls != [] && Ordered(calls) && CallsOf(calls, key) as real <= c.capacity
    requires Available(c, buckets, Call(key, calls[0].at)) == c.capacity
    ensures Allowed(c, buckets, calls, key) == CallsOf(calls, key)
    ensures forall t | t >= Now(calls) ::
              Available(c, RememberAll(c, buckets, calls), Call(key, t)) >= c.capacity - CallsOf(calls, key) as real
  {
    var before, call := calls[..|calls| - 1], calls[|calls| - 1];
    if before != [] {
      BurstLeaves(c, buckets, before, key);
      assert Now(before) <= call.at;
    }
    assert Available(c, RememberAll(c, buckets, before), Call(key, call.at))
        >= c.capacity - CallsOf(before, key) as real;
  }

  /**
   * A client with a full bucket, or none, gets as many calls through as the bucket holds tokens, however
   * close together and whatever other clients do in between.
   */
  lemma {:induction false} BurstIsAllowed(c: Config, past: seq<Call>, burst: seq<Call>, key: string)
    requires NeverDrains(c) && burst != [] && Ordered(past + burst) && CallsOf(burst, key) as real <= c.capacity
    requires Available(c, RememberAll(c, map[], past), Call(key, burst[0].at)) == c.capacity
    ensures Allowed(c, RememberAll(c, map[], past), burst, key) == CallsOf(burst, key)
  {
    OrderedParts(past, burst);
    BurstLeaves(c, RememberAll(c, map[], past), burst, key);
  }

  lemma {:induction false} LastIsACall(c: Config, calls: seq<Call>, key: string) returns (i: nat)
    requires key in RememberAll(c, map[], calls)
    ensures i < |calls| && calls[i].key == key && calls[i].at == RememberAll(c, map[], calls)[key].last
  {
    i := |calls| - 1;
    if calls[i].key != key {
      i := LastIsACall(c, calls[..i], key);
    }
  }

  /** A client that never called has a full bucket. */
  lemma {:induction false} NewClientIsFull(c: Config, past: seq<Call>, key: string, at: real)
    requires forall i | 0 <= i < |past| :: past[i].key != key
    ensures Available(c, RememberAll(c, map[], past), Call(key, at)) == c.capacity
  {
    if key in RememberAll(c, map[], past) {
      var i := LastIsACall(c, past, key);
    }
  }

  /** From a time on, every key has the same to spend under both. */
  ghost predicate SameFrom(c: Config, a: Buckets, b: Buckets, now: real) {
    forall key, t | t >= now :: Available(c, a, Call(key, t)) == Available(c, b, Call(key, t))
  }

  lemma {:induction false} RefusalKeepsAvailable(c: Config, buckets: Buckets, call: Call)
    requires NeverDrains(c) && !Answer(c, buckets, call)
    ensures SameFrom(c, Remember(c, buckets, call), buckets, call.at)
  {
  }

  lemma {:induction false} RememberKeepsSame(c: Config, a: Buckets, b: Buckets, now: real, call: Call)
    requires SameFrom(c, a, b, now) && now <= call.at
    ensures SameFrom(c, Remember(c, a, call), Remember(c, b, call), call.at)
    ensures Answer(c, a, call) == Answer(c, b, call)
  {
    assert Available(c, a, Call(call.key, call.at)) == Available(c, b, Call(call.key, call.at));
  }

  lemma {:induction false} SameAfterAll(c: Config, a: Buckets, b: Buckets, now: real, calls: seq<Call>)
    requires SameFrom(c, a, b, now) && Ordered(calls) && (calls != [] ==> now <= calls[0].at)
    ensures SameFrom(c, RememberAll(c, a, calls), RememberAll(c, b, calls), if calls == [] then now else Now(calls))
  {
    if calls != [] {
      var before := calls[..|calls| - 1];
      SameAfterAll(c, a, b, now, before);
      RememberKeepsSame(c, RememberAll(c, a, before), RememberAll(c, b, before),
                        if before == [] then now else Now(before), calls[|calls| - 1]);
    }
  }

  lemma {:induction false} OrderedTail(call: Call, later: seq<Call>)
    requires Ordered([call] + later)
    ensures Ordered(later) && (later != [] ==> call.at <= later[0].at && Now([call] + later) == Now(later))
  {
    var all := [call] + later;
    assert all[0] == call && forall i | 0 <= i < |later| :: later[i] == all[i + 1];
    assert later != [] ==> all[|all| - 1] == later[|later| - 1];
  }

  /** A refused call costs nothing: every later answer is as if it had not been made. */
  lemma {:induction false} RefusedCallIsFree(c: Config, past: seq<Call>, refused: Call, later: seq<Call>, next: Call)
    requires NeverDrains(c) && Ordered([refused] + later + [next])
    requires !Answer(c, RememberAll(c, map[], past), refused)
    ensures Answer(c, RememberAll(c, RememberAll(c, map[], past + [refused]), later), next)
         == Answer(c, RememberAll(c, RememberAll(c, map[], past), later), next)
  {
    var a, b := RememberAll(c, map[], past + [refused]), RememberAll(c, map[], past);
    RefusalKeepsAvailable(c, b, refused);
    assert (past + [refused])[..|past|] == past;
    OrderedParts([refused] + later, [next]);
    OrderedTail(refused, later);
    SameAfterAll(c, a, b, refused.at, later);
    RememberKeepsSame(c, RememberAll(c, a, later), RememberAll(c, b, later),
                      if later == [] then refused.at else Now(later), next);
  }

  /** A client that leaves one token's refill time between its calls is never refused. */
  lemma {:induction false} PacedClientIsAllowed(c: Config, past: seq<Call>, call: Call)
    requires NeverDrains(c) && c.capacity >= 1.0 && Ordered(past + [call])
    requires forall i | 0 <= i < |past| && past[i].key == call.key :: Refilled(c, past[i].at, call.at) >= 1.0
    ensures Answer(c, RememberAll(c, map[], past), call)
  {
    OrderedParts(past, [call]);
    HistoryInRange(c, past, call.at);
    var buckets := RememberAll(c, map[], past);
    if call.key in buckets {
      var i := LastIsACall(c, past, call.key);
      assert buckets[call.key].tokens >= 0.0;
    }
  }
}
