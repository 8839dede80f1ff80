/** The cache of federation responses: bounded, first in first out, with a time to live. The clock never runs back. */
module ResponseCache {
  import opened Collections
  import opened Wrappers

  type Payload = seq<int>

  datatype Entry = Entry(at: int, payload: Payload)

  /** Contents of a cache: the entries, and their keys in the order they were inserted. */
  datatype Cache = Cache(entries: map<string, Entry>, keys: seq<string>)

  datatype Call = Get(key: string, now: int) | Put(key: string, payload: Payload, now: int) | Reset(now: int)

  const EMPTY: Cache := Cache(map[], [])

  /** The keys are those of the entries, each once, and no more than the capacity. */
  ghost predicate Valid(c: Cache, capacity: nat) {
    && Distinct(c.keys)
    && (forall k :: k in c.keys <==> k in c.entries)
    && |c.keys| <= capacity
  }

  predicate Expired(e: Entry, ttl: int, now: int) { now - e.at > ttl }

  function Remove(keys: seq<string>, k: string): seq<string> {
    if keys == [] then [] else if keys[0] == k then keys[1..] else [keys[0]] + Remove(keys[1..], k)
  }

  /** A lookup drops an entry it finds expired. */
  function AfterGet(c: Cache, ttl: int, k: string, now: int): Cache {
    if k in c.entries && Expired(c.entries[k], ttl, now)
    then Cache(c.entries - {k}, Remove(c.keys, k))
    else c
  }

  function Answer(c: Cache, ttl: int, k: string, now: int): Option<Payload> {
    if k in c.entries && !Expired(c.entries[k], ttl, now) then Some(c.entries[k].payload) else None
  }

  /** A new key takes the last place, and the oldest key leaves if there are too many. */
  function AfterPut(c: Cache, capacity: nat, k: string, p: Payload, now: int): Cache {
    if k in c.entries then c.(entries := c.entries[k := Entry(now, p)])
    else if |c.keys| < capacity || c.keys == [] then Cache(c.entries[k := Entry(now, p)], c.keys + [k])
    else Cache((c.entries - {c.keys[0]})[k := Entry(now, p)], c.keys[1..] + [k])
  }

  function After(c: Cache, capacity: nat, ttl: int, call: Call): Cache {
    match call
    case Get(k, now) => AfterGet(c, ttl, k, now)
    case Put(k, p, now) => AfterPut(c, capacity, k, p, now)
    case Reset(_) => EMPTY
  }

  function AfterAll(c: Cache, capacity: nat, ttl: int, calls: seq<Call>): Cache {
    if calls == [] then c
    else After(AfterAll(c, capacity, ttl, calls[..|calls| - 1]), capacity, ttl, calls[|calls| - 1])
  }

  lemma {:induction false} RemoveAt(keys: seq<string>, k: string, i: nat)
    requires i < |keys| && keys[i] == k && forall j | 0 <= j < i :: keys[j] != k
    ensures Remove(keys, k) == keys[..i] + keys[i + 1..]
  {
    if i > 0 {
      assert keys[0] != k;
      RemoveAt(keys[1..], k, i - 1);
      assert [keys[0]] + (keys[1..][..i - 1] + keys[1..][i..]) == keys[..i] + keys[i + 1..];
    }
  }

  class Store {
    const capacity: nat
    const ttl: int
    var entries: map<string, Entry>
    var keys: seq<string>

    function Contents(): Cache
      reads this
    {
      Cache(entries, keys)
    }

    constructor (capacity: int, ttl: int, defaultTtl: int)
      requires defaultTtl > 0
      ensures Contents() == EMPTY && Valid(EMPTY, this.capacity) && this.capacity > 0 && this.ttl > 0
      ensures this.capacity == (if capacity <= 0 then 256 else capacity)
      ensures this.ttl == (if ttl <= 0 then defaultTtl else ttl)
    {
      this.capacity := if capacity <= 0 then 256 else capacity;
      this.ttl := if ttl <= 0 then defaultTtl else ttl;
      entries, keys := map[], [];
    }

    method Get(key: string, now: int) returns (r: Option<Payload>)
      requires Valid(Contents(), capacity)
      modifies this
      ensures Contents() == AfterGet(old(Contents()), ttl, key, now)
      ensures r == Answer(old(Contents()), ttl, key, now)
    {
      if key !in entries {
        return None;
      }
      var e := entries[key];
      if Expired(e, ttl, now) {
        entries := entries - {key};
        ghost var at :| 0 <= at < |keys| && keys[at] == key;
        var i := 0;
        while keys[i] != key
          invariant 0 <= i <= at && forall j | 0 <= j < i :: keys[j] != key
          decreases at - i
        {
          i := i + 1;
        }
        RemoveAt(keys, key, i);
        keys := keys[..i] + keys[i + 1..];
        return None;
      }
      return Some(e.payload);
    }

    method Put(key: string, payload: Payload, now: int)
      requires Valid(Contents(), capacity) && capacity > 0
      modifies this
      ensures Contents() == AfterPut(old(Contents()), capacity, key, payload, now)
    {
      if key !in entries {
        keys := keys + [key];
        if |keys| > capacity {
          assert (old(keys) + [key])[1..] == old(keys)[1..] + [key];
        }
        while |keys| > capacity
          invariant |old(keys)| < capacity ==> entries == old(entries) && keys == old(keys) + [key]
          invariant |old(keys)| >= capacity && |keys| <= capacity ==>
                      entries == old(entries) - {old(keys)[0]} && keys == old(keys)[1..] + [key]
          invariant |keys| > capacity ==> entries == old(entries) && keys == old(keys) + [key]
          decreases |keys|
        {
          var oldest := keys[0];
          keys := keys[1..];
          entries := entries - {oldest};
        }
      }
      entries := entries[key := Entry(now, payload)];
    }

    method Reset()
      modifies this
      ensures Contents() == EMPTY
    {
      entries, keys := map[], [];
    }
  }

  // ----- what every call keeps -----

  lemma {:induction false} RemoveMembers(keys: seq<string>, k: string)
    requires Distinct(keys) && k in keys
    ensures |Remove(keys, k)| == |keys| - 1 && Distinct(Remove(keys, k))
    ensures forall x :: x in Remove(keys, k) <==> x in keys && x != k
  {
    var i :| 0 <= i < |keys| && keys[i] == k;
    RemoveAt(keys, k, i);
    CutDistinct(keys, i);
    forall x ensures x in Cut(keys, i) <==> x in keys && x != k {
      CutMembers(keys, i, x);
    }
  }

  lemma {:induction false} RemoveDrops(c: Cache, capacity: nat, k: string)
    requires Valid(c, capacity) && k in c.entries
    ensures Valid(Cache(c.entries - {k}, Remove(c.keys, k)), capacity)
  {
    assert k in c.keys;
    RemoveMembers(c.keys, k);
  }

  lemma {:induction false} CallKeepsValid(c: Cache, capacity: nat, ttl: int, call: Call)
    requires Valid(c, capacity) && capacity > 0
    ensures Valid(After(c, capacity, ttl, call), capacity)
  {
    match call
    case Get(k, now) =>
      if k in c.entries {
        RemoveDrops(c, capacity, k);
      }
    case Put(k, p, now) =>
      if k !in c.entries {
        PutKeepsValid(c, capacity, k, p, now);
      }
    case Reset(_) =>
  }

  lemma {:induction false} PutKeepsValid(c: Cache, capacity: nat, k: string, p: Payload, now: int)
    requires Valid(c, capacity) && capacity > 0 && k !in c.entries
    ensures Valid(AfterPut(c, capacity, k, p, now), capacity)
  {
  }

  lemma {:induction false} RunKeepsValid(c: Cache, capacity: nat, ttl: int, calls: seq<Call>)
    requires Valid(c, capacity) && capacity > 0
    ensures Valid(AfterAll(c, capacity, ttl, calls), capacity)
  {
    if calls != [] {
      RunKeepsValid(c, capacity, ttl, calls[..|calls| - 1]);
      CallKeepsValid(AfterAll(c, capacity, ttl, calls[..|calls| - 1]), capacity, ttl, calls[|calls| - 1]);
    }
  }

  // ----- hits -----

  /** The latest Put of the key since the last Reset. */
  function LatestPut(calls: seq<Call>, k: string): Option<Entry> {
    if calls == [] then None
    else
      match calls[|calls| - 1]
      case Put(x, p, now) => if x == k then Some(Entry(now, p)) else LatestPut(calls[..|calls| - 1], k)
      case Get(_, _) => LatestPut(calls[..|calls| - 1], k)
      case Reset(_) => None
  }

  lemma {:induction false} EntriesAreLatest(capacity: nat, ttl: int, calls: seq<Call>, k: string)
    requires capacity > 0
    ensures var c := AfterAll(EMPTY, capacity, ttl, calls); k in c.entries ==> LatestPut(calls, k) == Some(c.entries[k])
  {
    if calls != [] {
      EntriesAreLatest(capacity, ttl, calls[..|calls| - 1], k);
      RunKeepsValid(EMPTY, capacity, ttl, calls[..|calls| - 1]);
    }
  }

  /** After any calls, a hit is the latest payload put under the key, no older than the time to live. */
  lemma {:induction false} HitIsLatestPut(capacity: nat, ttl: int, calls: seq<Call>, k: string, now: int)
    requires capacity > 0
    ensures var r := Answer(AfterAll(EMPTY, capacity, ttl, calls), ttl, k, now);
      r.Some? ==>
        && LatestPut(calls, k).Some? && LatestPut(calls, k).value.payload == r.value
        && now - LatestPut(calls, k).value.at <= ttl
  {
    EntriesAreLatest(capacity, ttl, calls, k);
  }

  // ----- evictions -----

  /** The keys put while they were absent, in a run of calls. */
  function Inserted(c: Cache, capacity: nat, ttl: int, calls: seq<Call>): set<string> {
    if calls == [] then {}
    else
      var before, call := calls[..|calls| - 1], calls[|calls| - 1];
      var rest := Inserted(c, capacity, ttl, before);
      if call.Put? && call.key !in AfterAll(c, capacity, ttl, before).entries then rest + {call.key} else rest
  }

  ghost predicate BehindAt(keys: seq<string>, k: string, s: set<string>, i: nat) {
    i < |keys| && keys[i] == k && forall j | i < j < |keys| :: keys[j] in s
  }

  /** Every key inserted after `k` is in the set. */
  ghost predicate Behind(keys: seq<string>, k: string, s: set<string>) {
    exists i: nat :: BehindAt(keys, k, s, i)
  }

  lemma {:induction false} BehindMore(keys: seq<string>, k: string, s: set<string>, t: set<string>)
    requires Behind(keys, k, s) && s <= t
    ensures Behind(keys, k, t)
  {
    var i: nat :| BehindAt(keys, k, s, i);
    assert BehindAt(keys, k, t, i);
  }

  lemma {:induction false} RemoveIsCut(keys: seq<string>, x: string) returns (j: nat)
    requires Distinct(keys) && x in keys
    ensures j < |keys| && keys[j] == x && Remove(keys, x) == Cut(keys, j)
  {
    j :| 0 <= j < |keys| && keys[j] == x;
    RemoveAt(keys, x, j);
  }

  lemma {:induction false} CutKeepsBehind(keys: seq<string>, k: string, s: set<string>, j: nat, i: nat)
    requires BehindAt(keys, k, s, i) && j < |keys| && i != j
    ensures Behind(Cut(keys, j), k, s)
  {
    assert BehindAt(Cut(keys, j), k, s, if i < j then i else i - 1);
  }

  lemma {:induction false} RemoveKeepsBehind(keys: seq<string>, k: string, s: set<string>, x: string)
    requires Distinct(keys) && Behind(keys, k, s) && x in keys && x != k
    ensures Behind(Remove(keys, x), k, s)
  {
    var i: nat :| BehindAt(keys, k, s, i);
    var j := RemoveIsCut(keys, x);
    CutKeepsBehind(keys, k, s, j, i);
  }

  /** A new key goes behind `k`, unless `k` is the oldest of a full cache. */
  lemma {:induction false} PutKeepsBehind(c: Cache, capacity: nat, k: string, s: set<string>, x: string, p: Payload,
                                          now: int)
    requires Valid(c, capacity) && Behind(c.keys, k, s) && x !in c.entries && x in s
    requires |c.keys| < capacity || c.keys[0] != k
    ensures Behind(AfterPut(c, capacity, x, p, now).keys, k, s)
  {
    var i: nat :| BehindAt(c.keys, k, s, i);
    var keys := AfterPut(c, capacity, x, p, now).keys;
    assert BehindAt(keys, k, s, if |c.keys| < capacity then i else i - 1);
  }

  /** When `k` is the oldest of a full cache, all that a new key leaves was inserted after `k`. */
  lemma {:induction false} OldestIsAlone(c: Cache, capacity: nat, k: string, s: set<string>, x: string)
    requires Valid(c, capacity) && Behind(c.keys, k, s) && |c.keys| >= capacity > 0 && c.keys[0] == k
    ensures |c.keys[1..] + [x]| == capacity && forall y | y in c.keys[1..] + [x] :: y in s + {x}
  {
    var i: nat :| BehindAt(c.keys, k, s, i);
    assert i == 0;
  }

  /** The key is in from the start of the calls to their end. */
  predicate KeptThroughout(c: Cache, capacity: nat, ttl: int, calls: seq<Call>, k: string) {
    && k in AfterAll(c, capacity, ttl, calls).entries
    && (calls != [] ==> KeptThroughout(c, capacity, ttl, calls[..|calls| - 1], k))
  }

  lemma {:induction false} CallKeepsBehind(c: Cache, capacity: nat, ttl: int, k: string, s: set<string>, call: Call)
    requires Valid(c, capacity) && capacity > 0 && Behind(c.keys, k, s)
    requires k in c.entries && k in After(c, capacity, ttl, call).entries
    requires call.Put? && call.key !in c.entries ==> call.key in s
    ensures Behind(After(c, capacity, ttl, call).keys, k, s)
  {
    match call
    case Get(x, now) =>
      if x != k && x in c.entries && Expired(c.entries[x], ttl, now) {
        RemoveKeepsBehind(c.keys, k, s, x);
      }
    case Put(x, p, now) =>
      if x !in c.entries {
        PutKeepsBehind(c, capacity, k, s, x, p, now);
      }
    case Reset(_) =>
  }

  /** While `k` stays in, the keys after it in the list were inserted after it. */
  lemma {:induction false} LaterKeysAreBehind(c: Cache, capacity: nat, ttl: int, k: string, calls: seq<Call>)
    requires Valid(c, capacity) && capacity > 0 && Behind(c.keys, k, {}) && KeptThroughout(c, capacity, ttl, calls, k)
    ensures Behind(AfterAll(c, capacity, ttl, calls).keys, k, Inserted(c, capacity, ttl, calls))
  {
    if calls != [] {
      var before, call := calls[..|calls| - 1], calls[|calls| - 1];
      LaterKeysAreBehind(c, capacity, ttl, k, before);
      RunKeepsValid(c, capacity, ttl, before);
      var b, s := AfterAll(c, capacity, ttl, before), Inserted(c, capacity, ttl, calls);
      BehindMore(b.keys, k, Inserted(c, capacity, ttl, before), s);
      CallKeepsBehind(b, capacity, ttl, k, s, call);
    }
  }

  /**
   * A Put drops an entry only from a full cache all of whose other keys came later: after it,
   * `capacity` distinct keys are present, each of them put while absent after the entry came in.
   */
  lemma {:induction false} EvictionNeedsLaterKeys(c: Cache, capacity: nat, ttl: int, k: string, p: Payload, at: int,
                                                  calls: seq<Call>, x: string, q: Payload, now: int)
    requires Valid(c, capacity) && capacity > 0 && k !in c.entries
    requires KeptThroughout(AfterPut(c, capacity, k, p, at), capacity, ttl, calls, k)
    requires k !in AfterAll(AfterPut(c, capacity, k, p, at), capacity, ttl, calls + [Put(x, q, now)]).entries
    ensures var d := AfterPut(c, capacity, k, p, at);
            var t := AfterAll(d, capacity, ttl, calls + [Put(x, q, now)]);
            && Distinct(t.keys) && |t.keys| == capacity
            && forall y | y in t.keys :: y in Inserted(d, capacity, ttl, calls + [Put(x, q, now)])
  {
    var d := AfterPut(c, capacity, k, p, at);
    PutKeepsValid(c, capacity, k, p, at);
    assert BehindAt(d.keys, k, {}, |d.keys| - 1);
    LaterKeysAreBehind(d, capacity, ttl, k, calls);
    RunKeepsValid(d, capacity, ttl, calls);
    RunKeepsValid(d, capacity, ttl, calls + [Put(x, q, now)]);
    assert (calls + [Put(x, q, now)])[..|calls|] == calls;
    OldestIsAlone(AfterAll(d, capacity, ttl, calls), capacity, k, Inserted(d, capacity, ttl, calls), x);
  }

  // ----- entries found again -----

  /** The entry after a call; only a Put of the key renews it. */
  function Renew(e: Entry, call: Call, k: string): Entry {
    if call.Put? && call.key == k then Entry(call.now, call.payload) else e
  }

  /** The entry of the latest Put of the key, or the one it had before. */
  function Latest(e: Entry, calls: seq<Call>, k: string): Entry {
    if calls == [] then e else Renew(Latest(e, calls[..|calls| - 1], k), calls[|calls| - 1], k)
  }

  ghost predicate Clocked(calls: seq<Call>, start: int) {
    && (forall i | 0 <= i < |calls| :: start <= calls[i].now)
    && (forall i, j | 0 <= i < j < |calls| :: calls[i].now <= calls[j].now)
  }

  function Last(calls: seq<Call>, start: int): int {
    if calls == [] then start else calls[|calls| - 1].now
  }

  /** The key has its latest entry, with only keys of the set inserted after it, or has none and that entry expired. */
  ghost predicate Tracks(c: Cache, ttl: int, k: string, e: Entry, s: set<string>, now: int) {
    if k in c.entries then c.entries[k] == e && Behind(c.keys, k, s) else Expired(e, ttl, now)
  }

  lemma {:induction false} DistinctFit(keys: seq<string>, s: set<string>)
    requires Distinct(keys) && forall y | y in keys :: y in s
    ensures |keys| <= |s|
  {
    if keys != [] {
      var last := keys[|keys| - 1];
      DistinctFit(keys[..|keys| - 1], s - {last});
    }
  }

  lemma {:induction false} PutTracks(c: Cache, capacity: nat, ttl: int, k: string, e: Entry, s: set<string>,
                                     x: string, p: Payload, now: int)
    requires Valid(c, capacity) && capacity > 0 && x != k && x !in c.entries && x in s && |s| < capacity
    requires k in c.entries && c.entries[k] == e && Behind(c.keys, k, s)
    ensures Tracks(AfterPut(c, capacity, x, p, now), ttl, k, e, s, now)
  {
    if |c.keys| >= capacity && c.keys[0] == k {
      OldestIsAlone(c, capacity, k, s, x);
      assert Distinct(c.keys[1..] + [x]);
      DistinctFit(c.keys[1..] + [x], s);
    }
    PutKeepsBehind(c, capacity, k, s, x, p, now);
  }

  lemma {:induction false} CallTracks(c: Cache, capacity: nat, ttl: int, k: string, e: Entry, s: set<string>,
                                      time: int, call: Call)
    requires Valid(c, capacity) && capacity > 0 && Tracks(c, ttl, k, e, s, time)
    requires !call.Reset? && time <= call.now && |s| < capacity
    requires call.Put? && call.key !in c.entries && call.key != k ==> call.key in s
    ensures Tracks(After(c, capacity, ttl, call), ttl, k, Renew(e, call, k), s, call.now)
  {
    match call
    case Get(x, now) =>
      if x != k && k in c.entries && x in c.entries && Expired(c.entries[x], ttl, now) {
        RemoveKeepsBehind(c.keys, k, s, x);
      }
    case Put(x, p, now) =>
      if x == k && k !in c.entries {
        var keys := AfterPut(c, capacity, x, p, now).keys;
        assert BehindAt(keys, k, s, |keys| - 1);
      } else if x != k && x !in c.entries && k in c.entries {
        PutTracks(c, capacity, ttl, k, e, s, x, p, now);
      }
  }

  lemma {:induction false} RunTracks(c: Cache, capacity: nat, ttl: int, k: string, e: Entry, s: set<string>,
                                     calls: seq<Call>)
    requires Valid(c, capacity) && capacity > 0 && k in c.entries && c.entries[k] == e && Behind(c.keys, k, {})
    requires Clocked(calls, e.at) && (forall i | 0 <= i < |calls| :: !calls[i].Reset?)
    requires Inserted(c, capacity, ttl, calls) - {k} <= s && |s| < capacity
    ensures Tracks(AfterAll(c, capacity, ttl, calls), ttl, k, Latest(e, calls, k), s, Last(calls, e.at))
  {
    if calls == [] {
      BehindMore(c.keys, k, {}, s);
    } else {
      var before, call := calls[..|calls| - 1], calls[|calls| - 1];
      assert Last(before, e.at) <= call.now;
      RunTracks(c, capacity, ttl, k, e, s, before);
      RunKeepsValid(c, capacity, ttl, before);
      CallTracks(AfterAll(c, capacity, ttl, before), capacity, ttl, k, Latest(e, before, k), s,
                 Last(before, e.at), call);
    }
  }

  /**
   * After a key comes in, and until `capacity` other keys have been put while absent, the latest payload
   * put under it is found exactly while it lives. Puts of keys already present do not count.
   */
  lemma {:induction false} PutIsFound(c: Cache, capacity: nat, ttl: int, k: string, p: Payload, at: int,
                                      calls: seq<Call>, now: int)
    requires Valid(c, capacity) && capacity > 0 && k !in c.entries
    requires Clocked(calls, at) && Last(calls, at) <= now && forall i | 0 <= i < |calls| :: !calls[i].Reset?
    requires |Inserted(AfterPut(c, capacity, k, p, at), capacity, ttl, calls) - {k}| < capacity
    ensures var e := Latest(Entry(at, p), calls, k);
            Answer(AfterAll(AfterPut(c, capacity, k, p, at), capacity, ttl, calls), ttl, k, now)
              == if now - e.at <= ttl then Some(e.payload) else None
  {
    var d := AfterPut(c, capacity, k, p, at);
    PutKeepsValid(c, capacity, k, p, at);
    assert BehindAt(d.keys, k, {}, |d.keys| - 1);
    RunTracks(d, capacity, ttl, k, Entry(at, p), Inserted(d, capacity, ttl, calls) - {k}, calls);
  }
}
