/**
 The process-local fallback of the Redis service: counters with a window and locks with a TTL, cleaned up
 lazily. The clock is read twice by most calls, once by the clean-up and once by the call itself; both
 readings are parameters. The class is proved against step functions on its two maps; over every sequence
 of calls those refine one TTL map that never cleans up.
 */
module Redis {
  import opened Base

  datatype Counter = Counter(count: nat, expiresAt: Time)
  datatype LockState = LockState(value: nat, expiresAt: Time)
  datatype Memory<!K> = Memory(counters: map<K, Counter>, locks: map<K, LockState>)

  datatype Stored = Tally(count: nat) | Held(value: nat)

  // ---------------------------------------------------------------- step functions of the service

  function LiveCounters<K>(m: map<K, Counter>, now: Time): map<K, Counter> {
    map k | k in m && m[k].expiresAt > now :: m[k]
  }

  function LiveLocks<K>(m: map<K, LockState>, now: Time): map<K, LockState> {
    map k | k in m && m[k].expiresAt > now :: m[k]
  }

  function Cleaned<K>(m: Memory<K>, now: Time): Memory<K> {
    Memory(LiveCounters(m.counters, now), LiveLocks(m.locks, now))
  }

  function Incremented<K>(m: Memory<K>, key: K, windowSeconds: nat, first: Time, now: Time): (Memory<K>, nat) {
    var c := Cleaned(m, first);
    if key !in c.counters || c.counters[key].expiresAt <= now then
      (c.(counters := c.counters[key := Counter(1, now + windowSeconds * 1000)]), 1)
    else
      var n := c.counters[key].count + 1;
      (c.(counters := c.counters[key := Counter(n, c.counters[key].expiresAt)]), n)
  }

  function Got<K>(m: Memory<K>, key: K, first: Time): (Memory<K>, Option<Stored>) {
    var c := Cleaned(m, first);
    (c, if key in c.counters then Some(Tally(c.counters[key].count))
        else if key in c.locks then Some(Held(c.locks[key].value))
        else None)
  }

  function Deleted<K>(m: Memory<K>, key: K): Memory<K> {
    Memory(m.counters - {key}, m.locks - {key})
  }

  function Acquired<K>(m: Memory<K>, key: K, value: nat, ttlSeconds: nat, first: Time, now: Time): (Memory<K>, bool) {
    var c := Cleaned(m, first);
    if key in c.locks && c.locks[key].expiresAt > now then (c, false)
    else (c.(locks := c.locks[key := LockState(value, now + ttlSeconds * 1000)]), true)
  }

  function Released<K>(m: Memory<K>, key: K, value: nat, first: Time): (Memory<K>, bool) {
    var c := Cleaned(m, first);
    if key !in c.locks || c.locks[key].value != value then (c, false)
    else (c.(locks := c.locks - {key}), true)
  }

  // ---------------------------------------------------------------- the service object

  class MemoryRedis<K(==)> {
    var memoryCounters: map<K, Counter>
    var memoryLocks: map<K, LockState>

    constructor ()
      ensures View() == Memory(map[], map[])
    {
      memoryCounters, memoryLocks := map[], map[];
    }

    ghost function View(): Memory<K>
      reads this
    {
      Memory(memoryCounters, memoryLocks)
    }

    ghost predicate LiveLock(key: K, at: Time)
      reads this
    {
      key in memoryLocks && memoryLocks[key].expiresAt > at
    }

    ghost predicate LiveCounter(key: K, at: Time)
      reads this
    {
      key in memoryCounters && memoryCounters[key].expiresAt > at
    }

    method CleanupMemory(now: Time)
      modifies this
      ensures View() == Cleaned(old(View()), now)
      ensures forall k :: k in memoryCounters <==> k in old(memoryCounters) && old(memoryCounters)[k].expiresAt > now
      ensures forall k :: k in memoryCounters ==> memoryCounters[k] == old(memoryCounters)[k]
      ensures forall k :: k in memoryLocks <==> k in old(memoryLocks) && old(memoryLocks)[k].expiresAt > now
      ensures forall k :: k in memoryLocks ==> memoryLocks[k] == old(memoryLocks)[k]
    {
      var todo := memoryCounters.Keys;
      while todo != {}
        invariant todo <= old(memoryCounters).Keys
        invariant memoryLocks == old(memoryLocks)
        invariant memoryCounters ==
          map k | k in old(memoryCounters) && (k in todo || old(memoryCounters)[k].expiresAt > now) :: old(memoryCounters)[k]
        decreases todo
      {
        var key :| key in todo;
        if memoryCounters[key].expiresAt <= now {
          memoryCounters := memoryCounters - {key};
        }
        todo := todo - {key};
      }
      todo := memoryLocks.Keys;
      while todo != {}
        invariant todo <= old(memoryLocks).Keys
        invariant memoryCounters == LiveCounters(old(memoryCounters), now)
        invariant memoryLocks ==
          map k | k in old(memoryLocks) && (k in todo || old(memoryLocks)[k].expiresAt > now) :: old(memoryLocks)[k]
        decreases todo
      {
        var key :| key in todo;
        if memoryLocks[key].expiresAt <= now {
          memoryLocks := memoryLocks - {key};
        }
        todo := todo - {key};
      }
    }

    method IncrementWithWindow(key: K, windowSeconds: nat, first: Time, now: Time) returns (count: nat)
      modifies this
      ensures (View(), count) == Incremented(old(View()), key, windowSeconds, first, now)
      ensures key in memoryCounters && memoryCounters[key].count == count
      ensures old(LiveCounter(key, Max(first, now))) ==>
                count == old(memoryCounters)[key].count + 1 && memoryCounters[key].expiresAt == old(memoryCounters)[key].expiresAt
      ensures !old(LiveCounter(key, Max(first, now))) ==>
                count == 1 && memoryCounters[key].expiresAt == now + windowSeconds * 1000
    {
      CleanupMemory(first);
      if key !in memoryCounters || memoryCounters[key].expiresAt <= now {
        memoryCounters := memoryCounters[key := Counter(1, now + windowSeconds * 1000)];
        return 1;
      }
      count := memoryCounters[key].count + 1;
      memoryCounters := memoryCounters[key := Counter(count, memoryCounters[key].expiresAt)];
    }

    method Get(key: K, first: Time) returns (found: Option<Stored>)
      modifies this
      ensures (View(), found) == Got(old(View()), key, first)
      ensures found == if old(LiveCounter(key, first)) then Some(Tally(old(memoryCounters)[key].count))
                       else if old(LiveLock(key, first)) then Some(Held(old(memoryLocks)[key].value))
                       else None
    {
      CleanupMemory(first);
      if key in memoryCounters {
        return Some(Tally(memoryCounters[key].count));
      }
      if key in memoryLocks {
        return Some(Held(memoryLocks[key].value));
      }
      return None;
    }

    method Delete(key: K)
      modifies this
      ensures View() == Deleted(old(View()), key)
      ensures key !in memoryCounters && key !in memoryLocks
    {
      memoryCounters := memoryCounters - {key};
      memoryLocks := memoryLocks - {key};
    }

    method AcquireLock(key: K, value: nat, ttlSeconds: nat, first: Time, now: Time) returns (ok: bool)
      modifies this
      ensures (View(), ok) == Acquired(old(View()), key, value, ttlSeconds, first, now)
      ensures ok <==> !old(LiveLock(key, Max(first, now)))
      ensures ok ==> key in memoryLocks && memoryLocks[key] == LockState(value, now + ttlSeconds * 1000)
    {
      CleanupMemory(first);
      if key in memoryLocks && memoryLocks[key].expiresAt > now {
        return false;
      }
      memoryLocks := memoryLocks[key := LockState(value, now + ttlSeconds * 1000)];
      return true;
    }

    method ReleaseLock(key: K, value: nat, first: Time) returns (ok: bool)
      modifies this
      ensures (View(), ok) == Released(old(View()), key, value, first)
      ensures ok <==> old(LiveLock(key, first)) && old(memoryLocks)[key].value == value
      ensures key in memoryLocks <==> old(LiveLock(key, first)) && !ok
    {
      CleanupMemory(first);
      if key !in memoryLocks || memoryLocks[key].value != value {
        return false;
      }
      memoryLocks := memoryLocks - {key};
      return true;
    }
  }

  // ---------------------------------------------------------------- one TTL map, expired lazily

  datatype Entry = Entry(stored: Stored, expiresAt: Time)
  type Ttl<!K> = map<K, Entry>

  predicate Live<K>(a: Ttl<K>, key: K, now: Time) {
    key in a && a[key].expiresAt > now
  }

  datatype Op<K> =
    | Increment(key: K, windowSeconds: nat)
    | Get(key: K)
    | Delete(key: K)
    | Acquire(key: K, value: nat, ttlSeconds: nat)
    | Release(key: K, value: nat)

  /** A call with the two clock readings it makes. */
  datatype Call<K> = Call(op: Op<K>, first: Time, now: Time)

  datatype Reply = Number(n: nat) | Found(what: Option<Stored>) | Flag(ok: bool) | Unit

  function TtlStep<K>(a: Ttl<K>, c: Call<K>): (Ttl<K>, Reply) {
    match c.op
    case Increment(key, windowSeconds) =>
      if Live(a, key, c.now) && a[key].stored.Tally? then
        var n := a[key].stored.count + 1;
        (a[key := Entry(Tally(n), a[key].expiresAt)], Number(n))
      else
        (a[key := Entry(Tally(1), c.now + windowSeconds * 1000)], Number(1))
    case Get(key) => (a, Found(if Live(a, key, c.first) then Some(a[key].stored) else None))
    case Delete(key) => (a - {key}, Unit)
    case Acquire(key, value, ttlSeconds) =>
      if Live(a, key, c.now) then (a, Flag(false))
      else (a[key := Entry(Held(value), c.now + ttlSeconds * 1000)], Flag(true))
    case Release(key, value) =>
      if Live(a, key, c.first) && a[key].stored == Held(value) then (a - {key}, Flag(true))
      else (a, Flag(false))
  }

  function MemoryStep<K>(m: Memory<K>, c: Call<K>): (Memory<K>, Reply) {
    match c.op
    case Increment(key, w) => var r := Incremented(m, key, w, c.first, c.now); (r.0, Number(r.1))
    case Get(key) => var r := Got(m, key, c.first); (r.0, Found(r.1))
    case Delete(key) => (Deleted(m, key), Unit)
    case Acquire(key, v, ttl) => var r := Acquired(m, key, v, ttl, c.first, c.now); (r.0, Flag(r.1))
    case Release(key, v) => var r := Released(m, key, v, c.first); (r.0, Flag(r.1))
  }

  function MemoryTrace<K>(m: Memory<K>, calls: seq<Call<K>>): seq<Reply>
    decreases |calls|
  {
    if calls == [] then []
    else [MemoryStep(m, calls[0]).1] + MemoryTrace(MemoryStep(m, calls[0]).0, calls[1..])
  }

  function TtlTrace<K>(a: Ttl<K>, calls: seq<Call<K>>): seq<Reply>
    decreases |calls|
  {
    if calls == [] then []
    else [TtlStep(a, calls[0]).1] + TtlTrace(TtlStep(a, calls[0]).0, calls[1..])
  }

  /** The clock never runs backwards, from `start` on. */
  predicate Monotone<K>(calls: seq<Call<K>>, start: Time) {
    calls == [] || (start <= calls[0].first <= calls[0].now && Monotone(calls[1..], calls[0].now))
  }

  /** Counters are only kept under counter keys and locks only under the other keys. */
  predicate Kinded<K>(calls: seq<Call<K>>, counterKeys: set<K>) {
    forall c :: c in calls ==>
      && (c.op.Increment? ==> c.op.key in counterKeys)
      && (c.op.Acquire? ==> c.op.key !in counterKeys)
      && (c.op.Release? ==> c.op.key !in counterKeys)
  }

  /** The two maps and the TTL map agree on one key, as far as it is still alive at `now`. */
  ghost predicate AgreeOn<K>(m: Memory<K>, a: Ttl<K>, counterKeys: set<K>, now: Time, k: K) {
    && (k in m.counters ==> k in counterKeys)
    && (k in m.locks ==> k !in counterKeys)
    && (Live(a, k, now) <==>
          (k in m.counters && m.counters[k].expiresAt > now) || (k in m.locks && m.locks[k].expiresAt > now))
    && (Live(a, k, now) && k in m.counters ==> a[k] == Entry(Tally(m.counters[k].count), m.counters[k].expiresAt))
    && (Live(a, k, now) && k in m.locks ==> a[k] == Entry(Held(m.locks[k].value), m.locks[k].expiresAt))
  }

  ghost predicate Agree<K(!new)>(m: Memory<K>, a: Ttl<K>, counterKeys: set<K>, now: Time) {
    forall k: K :: AgreeOn(m, a, counterKeys, now, k)
  }

  lemma AgreeLater<K>(m: Memory<K>, a: Ttl<K>, keys: set<K>, now: Time, later: Time, k: K)
    requires AgreeOn(m, a, keys, now, k) && now <= later
    ensures AgreeOn(m, a, keys, later, k) && AgreeOn(Cleaned(m, later), a, keys, later, k)
    ensures AgreeOn(Cleaned(m, now), a, keys, later, k)
  {
  }

  /** A call on key `c.op.key`, seen at that key. */
  lemma OwnKeyAgrees<K>(m: Memory<K>, a: Ttl<K>, keys: set<K>, c: Call<K>, start: Time)
    requires AgreeOn(m, a, keys, start, c.op.key) && start <= c.first <= c.now
    requires c.op.Increment? ==> c.op.key in keys
    requires c.op.Acquire? || c.op.Release? ==> c.op.key !in keys
    ensures MemoryStep(m, c).1 == TtlStep(a, c).1
    ensures AgreeOn(MemoryStep(m, c).0, TtlStep(a, c).0, keys, c.now, c.op.key)
  {
    AgreeLater(m, a, keys, start, c.first, c.op.key);
    AgreeLater(Cleaned(m, c.first), a, keys, c.first, c.now, c.op.key);
    AgreeLater(m, a, keys, start, c.now, c.op.key);
  }

  /** The two memories say the same of a key. */
  predicate SameAt<K>(x: Memory<K>, y: Memory<K>, k: K) {
    && (k in x.counters <==> k in y.counters) && (k in x.counters && k in y.counters ==> x.counters[k] == y.counters[k])
    && (k in x.locks <==> k in y.locks) && (k in x.locks && k in y.locks ==> x.locks[k] == y.locks[k])
  }

  /** Away from its own key a call at most cleans up. */
  lemma ElsewhereCleaned<K>(m: Memory<K>, c: Call<K>, k: K)
    requires k != c.op.key
    ensures SameAt(MemoryStep(m, c).0, if c.op.Delete? then m else Cleaned(m, c.first), k)
  {
  }

  lemma ElsewhereUntouched<K>(a: Ttl<K>, c: Call<K>, k: K)
    requires k != c.op.key
    ensures k in TtlStep(a, c).0 <==> k in a
    ensures k in a ==> TtlStep(a, c).0[k] == a[k]
  {
  }

  lemma SameAgrees<K>(x: Memory<K>, y: Memory<K>, a: Ttl<K>, b: Ttl<K>, keys: set<K>, now: Time, k: K)
    requires SameAt(x, y, k) && AgreeOn(y, b, keys, now, k)
    requires (k in a <==> k in b) && (k in b ==> a[k] == b[k])
    ensures AgreeOn(x, a, keys, now, k)
  {
  }

  /** The same call, seen at any other key. */
  lemma OtherKeyAgrees<K>(m: Memory<K>, a: Ttl<K>, keys: set<K>, c: Call<K>, start: Time, k: K)
    requires AgreeOn(m, a, keys, start, k) && start <= c.first <= c.now && k != c.op.key
    ensures AgreeOn(MemoryStep(m, c).0, TtlStep(a, c).0, keys, c.now, k)
  {
    AgreeLater(m, a, keys, start, c.first, k);
    AgreeLater(Cleaned(m, c.first), a, keys, c.first, c.now, k);
    AgreeLater(m, a, keys, start, c.now, k);
    ElsewhereCleaned(m, c, k);
    ElsewhereUntouched(a, c, k);
    SameAgrees(MemoryStep(m, c).0, if c.op.Delete? then m else Cleaned(m, c.first), TtlStep(a, c).0, a, keys, c.now, k);
  }

  lemma StepAgrees<K(!new)>(m: Memory<K>, a: Ttl<K>, keys: set<K>, c: Call<K>, start: Time)
    requires Agree(m, a, keys, start) && start <= c.first <= c.now
    requires c.op.Increment? ==> c.op.key in keys
    requires c.op.Acquire? || c.op.Release? ==> c.op.key !in keys
    ensures MemoryStep(m, c).1 == TtlStep(a, c).1
    ensures Agree(MemoryStep(m, c).0, TtlStep(a, c).0, keys, c.now)
  {
    assert AgreeOn(m, a, keys, start, c.op.key);
    OwnKeyAgrees(m, a, keys, c, start);
    forall k: K
      ensures AgreeOn(MemoryStep(m, c).0, TtlStep(a, c).0, keys, c.now, k)
    {
      assert AgreeOn(m, a, keys, start, k);
      if k != c.op.key { OtherKeyAgrees(m, a, keys, c, start, k); }
    }
  }

  /**
   For every sequence of calls over a clock that never runs backwards, the two cleaned-up maps answer
   exactly like one TTL map that never cleans up: the clean-up cannot be observed.
   */
  lemma {:induction false} CleanupIsUnobservable<K(!new)>(m: Memory<K>, a: Ttl<K>, keys: set<K>, calls: seq<Call<K>>, start: Time)
    requires Agree(m, a, keys, start) && Monotone(calls, start) && Kinded(calls, keys)
    ensures MemoryTrace(m, calls) == TtlTrace(a, calls)
    decreases |calls|
  {
    if calls == [] {
    } else {
      StepAgrees(m, a, keys, calls[0], start);
      CleanupIsUnobservable(MemoryStep(m, calls[0]).0, TtlStep(a, calls[0]).0, keys, calls[1..], calls[0].now);
    }
  }

  // ---------------------------------------------------------------- one holder per lock

  function MemoryAfter<K>(m: Memory<K>, calls: seq<Call<K>>, n: nat): Memory<K>
    requires n <= |calls|
  {
    if n == 0 then m else MemoryStep(MemoryAfter(m, calls, n - 1), calls[n - 1]).0
  }

  predicate Ordered<K>(calls: seq<Call<K>>) {
    forall i, j :: 0 <= i <= j < |calls| ==> calls[i].first <= calls[i].now && (i < j ==> calls[i].now <= calls[j].first)
  }

  predicate AcquiresAt<K>(m: Memory<K>, calls: seq<Call<K>>, i: nat, key: K)
    requires i < |calls|
  {
    calls[i].op.Acquire? && calls[i].op.key == key && MemoryStep(MemoryAfter(m, calls, i), calls[i]).1 == Flag(true)
  }

  /** A live lock survives any call but a delete and its holder's own release. */
  lemma LockSurvives<K>(m: Memory<K>, c: Call<K>, key: K, lock: LockState)
    requires key in m.locks && m.locks[key] == lock && c.first <= c.now < lock.expiresAt
    requires c.op != Delete(key) && c.op != Release(key, lock.value)
    ensures key in MemoryStep(m, c).0.locks && MemoryStep(m, c).0.locks[key] == lock
  {
  }

  lemma LockTaken<K>(m: Memory<K>, c: Call<K>, key: K)
    requires c.op.Acquire? && c.op.key == key && MemoryStep(m, c).1 == Flag(true)
    ensures key in MemoryStep(m, c).0.locks
    ensures MemoryStep(m, c).0.locks[key] == LockState(c.op.value, c.now + c.op.ttlSeconds * 1000)
  {
  }

  lemma {:induction false} LockStays<K>(m: Memory<K>, calls: seq<Call<K>>, i: nat, j: nat, key: K)
    requires Ordered(calls) && i < j < |calls| && AcquiresAt(m, calls, i, key)
    requires calls[j].now < calls[i].now + calls[i].op.ttlSeconds * 1000
    requires forall h :: i < h < j ==> calls[h].op != Delete(key) && calls[h].op != Release(key, calls[i].op.value)
    ensures key in MemoryAfter(m, calls, j).locks
    ensures MemoryAfter(m, calls, j).locks[key] == LockState(calls[i].op.value, calls[i].now + calls[i].op.ttlSeconds * 1000)
    decreases j
  {
    if i + 1 == j {
      LockTaken(MemoryAfter(m, calls, i), calls[i], key);
    } else {
      LockStays(m, calls, i, j - 1, key);
      LockSurvives(MemoryAfter(m, calls, j - 1), calls[j - 1], key, MemoryAfter(m, calls, j - 1).locks[key]);
    }
  }

  /**
   A lock has at most one live holder: after a successful acquire, no other acquire of the key succeeds
   before the TTL is over, unless the key was deleted or released with the holder's own value.
   */
  lemma OneLiveHolder<K>(m: Memory<K>, calls: seq<Call<K>>, i: nat, j: nat, key: K)
    requires Ordered(calls) && i < j < |calls| && AcquiresAt(m, calls, i, key) && AcquiresAt(m, calls, j, key)
    requires forall h :: i < h < j ==> calls[h].op != Delete(key) && calls[h].op != Release(key, calls[i].op.value)
    ensures calls[i].now + calls[i].op.ttlSeconds * 1000 <= calls[j].now
  {
    if calls[j].now < calls[i].now + calls[i].op.ttlSeconds * 1000 {
      LockStays(m, calls, i, j, key);
    }
  }

  /** A lock that is stored comes from an acquire since which nobody deleted the key or released it with that value. */
  lemma {:induction false} HeldSince<K>(calls: seq<Call<K>>, j: nat, key: K) returns (i: nat)
    requires j <= |calls| && key in MemoryAfter(Memory(map[], map[]), calls, j).locks
    ensures i < j && AcquiresAt(Memory(map[], map[]), calls, i, key)
    ensures MemoryAfter(Memory(map[], map[]), calls, j).locks[key] ==
              LockState(calls[i].op.value, calls[i].now + calls[i].op.ttlSeconds * 1000)
    ensures forall h :: i < h < j ==> calls[h].op != Delete(key) && calls[h].op != Release(key, calls[i].op.value)
  {
    var m: Memory<K> := Memory(map[], map[]);
    if AcquiresAt(m, calls, j - 1, key) {
      i := j - 1;
    } else {
      LockComesFrom(MemoryAfter(m, calls, j - 1), calls[j - 1], key);
      i := HeldSince(calls, j - 1, key);
    }
  }

  /** A call that does not acquire the lock can only keep it. */
  lemma LockComesFrom<K>(m: Memory<K>, c: Call<K>, key: K)
    requires key in MemoryStep(m, c).0.locks
    requires !(c.op.Acquire? && c.op.key == key && MemoryStep(m, c).1 == Flag(true))
    ensures key in m.locks && MemoryStep(m, c).0.locks[key] == m.locks[key]
    ensures c.op != Delete(key) && c.op != Release(key, m.locks[key].value)
  {
  }

  /**
   The other half: an acquire is refused only while somebody holds the lock. Some earlier acquire succeeded whose TTL is not
   over, and since then nobody deleted the key or released it with its holder's value.
   */
  lemma RefusedMeansHeld<K>(calls: seq<Call<K>>, j: nat, key: K) returns (i: nat)
    requires j < |calls| && calls[j].op.Acquire? && calls[j].op.key == key
    requires MemoryStep(MemoryAfter(Memory(map[], map[]), calls, j), calls[j]).1 == Flag(false)
    ensures i < j && AcquiresAt(Memory(map[], map[]), calls, i, key)
    ensures calls[j].now < calls[i].now + calls[i].op.ttlSeconds * 1000
    ensures forall h :: i < h < j ==> calls[h].op != Delete(key) && calls[h].op != Release(key, calls[i].op.value)
  {
    i := HeldSince(calls, j, key);
  }

  // ---------------------------------------------------------------- fixed windows

  /** How many of the calls `from`..`to` count on the key. */
  function Increments<K(==)>(calls: seq<Call<K>>, from: nat, to: nat, key: K): nat
    requires from <= to <= |calls|
  {
    if from == to then 0
    else Increments(calls, from, to - 1, key)
         + if calls[to - 1].op.Increment? && calls[to - 1].op.key == key then 1 else 0
  }

  /** The call starts a window on the key. */
  ghost predicate Opens<K>(m: Memory<K>, calls: seq<Call<K>>, i: nat, key: K)
    requires i < |calls|
  {
    && calls[i].op.Increment? && calls[i].op.key == key
    && var before := MemoryAfter(m, calls, i).counters;
       key in before ==> before[key].expiresAt <= calls[i].now
  }

  lemma CounterSurvives<K>(m: Memory<K>, c: Call<K>, key: K, counter: Counter)
    requires key in m.counters && m.counters[key] == counter && c.first <= c.now < counter.expiresAt && c.op != Delete(key)
    ensures key in MemoryStep(m, c).0.counters
    ensures MemoryStep(m, c).0.counters[key] ==
              counter.(count := counter.count + if c.op.Increment? && c.op.key == key then 1 else 0)
    ensures c.op.Increment? && c.op.key == key ==> MemoryStep(m, c).1 == Number(counter.count + 1)
  {
  }

  lemma CounterStarts<K>(m: Memory<K>, c: Call<K>, key: K)
    requires c.op.Increment? && c.op.key == key && c.first <= c.now
    requires key in m.counters ==> m.counters[key].expiresAt <= c.now
    ensures key in MemoryStep(m, c).0.counters && MemoryStep(m, c).1 == Number(1)
    ensures MemoryStep(m, c).0.counters[key] == Counter(1, c.now + c.op.windowSeconds * 1000)
  {
  }

  lemma {:induction false} WindowCounts<K>(m: Memory<K>, calls: seq<Call<K>>, i: nat, j: nat, key: K)
    requires Ordered(calls) && i < j <= |calls| && Opens(m, calls, i, key)
    requires i + 1 < j ==> calls[j - 1].now < calls[i].now + calls[i].op.windowSeconds * 1000
    requires forall h :: i < h < j ==> calls[h].op != Delete(key)
    ensures key in MemoryAfter(m, calls, j).counters
    ensures MemoryAfter(m, calls, j).counters[key] ==
              Counter(Increments(calls, i, j, key), calls[i].now + calls[i].op.windowSeconds * 1000)
    decreases j
  {
    if i + 1 == j {
      CounterStarts(MemoryAfter(m, calls, i), calls[i], key);
      assert Increments(calls, i, i, key) == 0;
    } else {
      assert calls[j - 2].now <= calls[j - 1].first <= calls[j - 1].now;
      WindowCounts(m, calls, i, j - 1, key);
      CounterSurvives(MemoryAfter(m, calls, j - 1), calls[j - 1], key, MemoryAfter(m, calls, j - 1).counters[key]);
    }
  }

  /**
   Counters keep fixed windows: once a call has opened a window, each further count in it answers how many counts the window
   has seen, whatever happens to other keys, and the first count after its end answers one. Only a delete cuts it short.
   */
  lemma FixedWindow<K>(m: Memory<K>, calls: seq<Call<K>>, i: nat, j: nat, key: K)
    requires Ordered(calls) && i < j < |calls| && Opens(m, calls, i, key)
    requires calls[j].op.Increment? && calls[j].op.key == key
    requires forall h :: i < h < j ==> calls[h].op != Delete(key) && calls[h].now < calls[i].now + calls[i].op.windowSeconds * 1000
    ensures MemoryStep(MemoryAfter(m, calls, i), calls[i]).1 == Number(1)
    ensures MemoryStep(MemoryAfter(m, calls, j), calls[j]).1 ==
              Number(if calls[j].now < calls[i].now + calls[i].op.windowSeconds * 1000 then Increments(calls, i, j + 1, key) else 1)
  {
    CounterStarts(MemoryAfter(m, calls, i), calls[i], key);
    WindowCounts(m, calls, i, j, key);
    assert calls[j].first <= calls[j].now;
    if calls[j].now < calls[i].now + calls[i].op.windowSeconds * 1000 {
      CounterSurvives(MemoryAfter(m, calls, j), calls[j], key, MemoryAfter(m, calls, j).counters[key]);
    } else {
      CounterStarts(MemoryAfter(m, calls, j), calls[j], key);
    }
  }
}
