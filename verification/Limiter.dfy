/**
 The login limiter on one key: any number of logins between their check and their clear or registered failure, over
 the counters of the Redis service. Calls on other keys, expiring windows and dying requests interleave freely.
 */
module Limiter {
  import opened Base
  import opened Redis

  datatype Config = Config(maxAttempts: int, windowSeconds: nat)

  /** What `check` decides from the value it reads; a lock's value is not a number, and no comparison with it holds. */
  predicate Admits(c: Config, read: Option<Stored>) {
    match read
    case Some(Tally(n)) => n < c.maxAttempts
    case _ => true
  }

  /** The stored failure count of a key, expired or not. */
  function Failures(m: Memory<RedisKey>, who: string): nat {
    if Login(who) in m.counters then m.counters[Login(who)].count else 0
  }

  /** Logins that have passed the check and have not cleared (`trying`), or have cleared and not answered (`cleared`). */
  datatype State = State(memory: Memory<RedisKey>, clock: Time, trying: nat, cleared: nat)
  {
    function InFlight(): nat {
      trying + cleared
    }
  }

  /**
   A login may fail before it clears, or after it (the audit record of a success may throw); `Vanish` is a request
   that dies on the way.
   */
  datatype Step =
    | Check(first: Time)
    | Clear(at: Time)
    | Answer(at: Time)
    | Fail(afterClear: bool, first: Time, now: Time)
    | Vanish(afterClear: bool, at: Time)
    | Other(call: Call<RedisKey>)

  predicate Enabled(s: State, who: string, a: Step) {
    match a
    case Check(first) => s.clock <= first
    case Clear(at) => s.clock <= at && s.trying > 0
    case Answer(at) => s.clock <= at && s.cleared > 0
    case Fail(afterClear, first, now) => s.clock <= first <= now && (if afterClear then s.cleared else s.trying) > 0
    case Vanish(afterClear, at) => s.clock <= at && (if afterClear then s.cleared else s.trying) > 0
    case Other(call) => s.clock <= call.first <= call.now && call.op.key != Login(who)
  }

  function Gone(s: State, afterClear: bool): State
    requires (if afterClear then s.cleared else s.trying) > 0
  {
    if afterClear then s.(cleared := s.cleared - 1) else s.(trying := s.trying - 1)
  }

  function Apply(c: Config, s: State, who: string, a: Step): State
    requires Enabled(s, who, a)
  {
    match a
    case Check(first) =>
      var (memory, read) := Got(s.memory, Login(who), first);
      s.(memory := memory, clock := first, trying := if Admits(c, read) then s.trying + 1 else s.trying)
    case Clear(at) =>
      s.(memory := Deleted(s.memory, Login(who)), clock := at, trying := s.trying - 1, cleared := s.cleared + 1)
    case Answer(at) => s.(clock := at, cleared := s.cleared - 1)
    case Fail(afterClear, first, now) =>
      Gone(s, afterClear).(memory := Incremented(s.memory, Login(who), c.windowSeconds, first, now).0, clock := now)
    case Vanish(afterClear, at) => Gone(s, afterClear).(clock := at)
    case Other(call) => s.(memory := MemoryStep(s.memory, call).0, clock := call.now)
  }

  /** The steps can be taken from `s`, and never more than `k` logins are in flight. */
  predicate Runs(c: Config, who: string, k: nat, s: State, steps: seq<Step>)
    decreases |steps|
  {
    && s.InFlight() <= k
    && (steps == [] || (Enabled(s, who, steps[0]) && Runs(c, who, k, Apply(c, s, who, steps[0]), steps[1..])))
  }

  function After(c: Config, who: string, k: nat, s: State, steps: seq<Step>): State
    requires Runs(c, who, k, s, steps)
    decreases |steps|
  {
    if steps == [] then s else After(c, who, k, Apply(c, s, who, steps[0]), steps[1..])
  }

  function Fresh(memory: Memory<RedisKey>, clock: Time): State {
    State(memory, clock, 0, 0)
  }

  // ---------------------------------------------------------------- the bound

  /** Failures stored plus failures that may still come. */
  ghost predicate Bounded(c: Config, who: string, k: nat, s: State) {
    && Login(who) !in s.memory.locks
    && Failures(s.memory, who) + s.InFlight() <= Max(c.maxAttempts, 1) + k - 1
  }

  lemma CleaningKeepsOthers(m: Memory<RedisKey>, call: Call<RedisKey>, who: string)
    requires call.op.key != Login(who) && Login(who) !in m.locks
    ensures Login(who) !in MemoryStep(m, call).0.locks
    ensures Failures(MemoryStep(m, call).0, who) <= Failures(m, who)
  {
  }

  lemma BoundedStep(c: Config, who: string, k: nat, s: State, a: Step)
    requires Enabled(s, who, a) && Bounded(c, who, k, s) && k >= 1
    requires Apply(c, s, who, a).InFlight() <= k
    ensures Bounded(c, who, k, Apply(c, s, who, a))
  {
    if a.Other? {
      CleaningKeepsOthers(s.memory, a.call, who);
    }
  }

  lemma {:induction false} BoundedAfter(c: Config, who: string, k: nat, s: State, steps: seq<Step>)
    requires k >= 1 && Bounded(c, who, k, s) && Runs(c, who, k, s, steps)
    ensures Bounded(c, who, k, After(c, who, k, s, steps))
    decreases |steps|
  {
    if steps == [] {
    } else {
      BoundedStep(c, who, k, s, steps[0]);
      BoundedAfter(c, who, k, Apply(c, s, who, steps[0]), steps[1..]);
    }
  }

  /**
   With at most k logins of a key in flight, the stored failure count never exceeds maxAttempts + k - 1, whatever
   expires, clears, fails after clearing or dies; logins one at a time never push it past maxAttempts.
   */
  lemma FailureBound(c: Config, who: string, k: nat, memory: Memory<RedisKey>, clock: Time, steps: seq<Step>)
    requires c.maxAttempts >= 1 && k >= 1
    requires Login(who) !in memory.locks && Login(who) !in memory.counters
    requires Runs(c, who, k, Fresh(memory, clock), steps)
    ensures
      var s := After(c, who, k, Fresh(memory, clock), steps);
      && Failures(s.memory, who) + s.InFlight() <= c.maxAttempts + k - 1
      && (k == 1 ==> Failures(s.memory, who) <= c.maxAttempts)
  {
    BoundedAfter(c, who, k, Fresh(memory, clock), steps);
  }

  // ---------------------------------------------------------------- the limit refuses

  /** The key has used up its attempts, in a window that ends at `end`. */
  ghost predicate Exhausted(c: Config, who: string, s: State, end: Time) {
    && Login(who) in s.memory.counters
    && s.memory.counters[Login(who)].count >= c.maxAttempts && s.memory.counters[Login(who)].expiresAt == end
  }

  /** A check lets a login through exactly if the key has no live window whose count has reached the limit. */
  lemma CheckAdmitsIff(c: Config, who: string, s: State, first: Time)
    requires s.clock <= first
    ensures Apply(c, s, who, Check(first)).trying == s.trying + 1 <==>
              !(exists end :: end > first && Exhausted(c, who, s, end))
    ensures Apply(c, s, who, Check(first)).trying in {s.trying, s.trying + 1}
  {
    if Login(who) in s.memory.counters {
      var counter := s.memory.counters[Login(who)];
      assert Exhausted(c, who, s, counter.expiresAt) <==> counter.count >= c.maxAttempts;
    }
  }

  lemma {:induction false} ClockForward(c: Config, who: string, k: nat, s: State, steps: seq<Step>)
    requires Runs(c, who, k, s, steps)
    ensures s.clock <= After(c, who, k, s, steps).clock
    decreases |steps|
  {
    if steps == [] {
    } else {
      ClockForward(c, who, k, Apply(c, s, who, steps[0]), steps[1..]);
    }
  }

  lemma ExhaustedStep(c: Config, who: string, s: State, a: Step, end: Time)
    requires Enabled(s, who, a) && Exhausted(c, who, s, end) && s.trying == 0 && Apply(c, s, who, a).clock < end
    ensures Exhausted(c, who, Apply(c, s, who, a), end) && Apply(c, s, who, a).trying == 0
  {
  }

  /**
   The limiter shuts out: once a key has used up its attempts and no login of it is between its check and its end, every
   further run keeps it so until the window ends. No check is passed, so no login succeeds and nothing clears the count.
   */
  lemma {:induction false} ShutOutUntilWindowEnds(c: Config, who: string, k: nat, s: State, steps: seq<Step>, end: Time)
    requires Runs(c, who, k, s, steps) && Exhausted(c, who, s, end) && s.trying == 0
    requires After(c, who, k, s, steps).clock < end
    ensures Exhausted(c, who, After(c, who, k, s, steps), end) && After(c, who, k, s, steps).trying == 0
    ensures forall i :: 0 <= i < |steps| ==> !steps[i].Clear?
    decreases |steps|
  {
    if steps == [] {
    } else {
      var t := Apply(c, s, who, steps[0]);
      ClockForward(c, who, k, t, steps[1..]);
      ExhaustedStep(c, who, s, steps[0], end);
      ShutOutUntilWindowEnds(c, who, k, t, steps[1..], end);
      forall i | 0 <= i < |steps|
        ensures !steps[i].Clear?
      {
        assert i > 0 ==> steps[i] == steps[1..][i - 1];
      }
    }
  }

  // ---------------------------------------------------------------- the bound is reached

  /** At one moment: `n` logins that check and fail one after the other. */
  function OneByOne(n: nat): seq<Step> {
    if n == 0 then [] else [Check(0), Fail(false, 0, 0)] + OneByOne(n - 1)
  }

  function Checks(n: nat): seq<Step> {
    if n == 0 then [] else [Check(0)] + Checks(n - 1)
  }

  function Fails(n: nat): seq<Step> {
    if n == 0 then [] else [Fail(false, 0, 0)] + Fails(n - 1)
  }

  /** `n` failures stored at time 0, and `t` logins trying. */
  ghost predicate At(c: Config, who: string, s: State, n: nat, t: nat) {
    && s.clock == 0 && s.trying == t && s.cleared == 0 && Login(who) !in s.memory.locks
    && Failures(s.memory, who) == n
    && (Login(who) in s.memory.counters ==> s.memory.counters[Login(who)].expiresAt == c.windowSeconds * 1000)
    && (n == 0 ==> Login(who) !in s.memory.counters)
  }

  lemma CheckAt(c: Config, who: string, s: State, n: nat, t: nat)
    requires c.windowSeconds > 0 && At(c, who, s, n, t) && n < c.maxAttempts
    ensures At(c, who, Apply(c, s, who, Check(0)), n, t + 1)
  {
  }

  lemma FailAt(c: Config, who: string, s: State, n: nat, t: nat)
    requires c.windowSeconds > 0 && At(c, who, s, n, t) && t > 0
    ensures At(c, who, Apply(c, s, who, Fail(false, 0, 0)), n + 1, t - 1)
  {
  }

  lemma {:induction false} RunOn(c: Config, who: string, k: nat, s: State, first: seq<Step>, second: seq<Step>)
    requires Runs(c, who, k, s, first) && Runs(c, who, k, After(c, who, k, s, first), second)
    ensures Runs(c, who, k, s, first + second)
    ensures After(c, who, k, s, first + second) == After(c, who, k, After(c, who, k, s, first), second)
    decreases |first|
  {
    if first == [] {
      assert first + second == second;
    } else {
      assert (first + second)[1..] == first[1..] + second;
      RunOn(c, who, k, Apply(c, s, who, first[0]), first[1..], second);
    }
  }

  lemma {:induction false} OneByOneRuns(c: Config, who: string, k: nat, s: State, n: nat, more: nat)
    requires c.windowSeconds > 0 && k >= 1 && At(c, who, s, n, 0) && n + more <= c.maxAttempts
    ensures Runs(c, who, k, s, OneByOne(more))
    ensures At(c, who, After(c, who, k, s, OneByOne(more)), n + more, 0)
    decreases more
  {
    if more == 0 {
    } else {
      CheckAt(c, who, s, n, 0);
      var s1 := Apply(c, s, who, Check(0));
      FailAt(c, who, s1, n, 1);
      var s2 := Apply(c, s1, who, Fail(false, 0, 0));
      OneByOneRuns(c, who, k, s2, n + 1, more - 1);
      assert OneByOne(more)[1..] == [Fail(false, 0, 0)] + OneByOne(more - 1);
      assert OneByOne(more)[1..][1..] == OneByOne(more - 1);
      assert Runs(c, who, k, s1, OneByOne(more)[1..]);
      assert After(c, who, k, s1, OneByOne(more)[1..]) == After(c, who, k, s2, OneByOne(more - 1));
    }
  }

  lemma {:induction false} ChecksRun(c: Config, who: string, k: nat, s: State, n: nat, t: nat, more: nat)
    requires c.windowSeconds > 0 && At(c, who, s, n, t) && n < c.maxAttempts && t + more <= k
    ensures Runs(c, who, k, s, Checks(more))
    ensures At(c, who, After(c, who, k, s, Checks(more)), n, t + more)
    decreases more
  {
    if more == 0 {
    } else {
      CheckAt(c, who, s, n, t);
      ChecksRun(c, who, k, Apply(c, s, who, Check(0)), n, t + 1, more - 1);
      assert Checks(more)[1..] == Checks(more - 1);
    }
  }

  lemma {:induction false} FailsRun(c: Config, who: string, k: nat, s: State, n: nat, t: nat)
    requires c.windowSeconds > 0 && At(c, who, s, n, t) && t <= k
    ensures Runs(c, who, k, s, Fails(t))
    ensures At(c, who, After(c, who, k, s, Fails(t)), n + t, 0)
    decreases t
  {
    if t == 0 {
    } else {
      FailAt(c, who, s, n, t);
      FailsRun(c, who, k, Apply(c, s, who, Fail(false, 0, 0)), n + 1, t - 1);
      assert Fails(t)[1..] == Fails(t - 1);
    }
  }

  lemma ChecksThenFails(c: Config, who: string, k: nat, s: State, n: nat)
    requires c.windowSeconds > 0 && At(c, who, s, n, 0) && n < c.maxAttempts
    ensures Runs(c, who, k, s, Checks(k) + Fails(k))
    ensures At(c, who, After(c, who, k, s, Checks(k) + Fails(k)), n + k, 0)
  {
    ChecksRun(c, who, k, s, n, 0, k);
    var t := After(c, who, k, s, Checks(k));
    FailsRun(c, who, k, t, n, k);
    RunOn(c, who, k, s, Checks(k), Fails(k));
  }

  lemma BoundIsReachedFrom(c: Config, who: string, k: nat, s: State, steps: seq<Step>)
    requires c.maxAttempts >= 1 && c.windowSeconds > 0 && k >= 1 && At(c, who, s, 0, 0)
    requires steps == OneByOne(c.maxAttempts - 1) + (Checks(k) + Fails(k))
    ensures Runs(c, who, k, s, steps)
    ensures Failures(After(c, who, k, s, steps).memory, who) == c.maxAttempts + k - 1
  {
    OneByOneRuns(c, who, k, s, 0, c.maxAttempts - 1);
    var t := After(c, who, k, s, OneByOne(c.maxAttempts - 1));
    ChecksThenFails(c, who, k, t, c.maxAttempts - 1);
    RunOn(c, who, k, s, OneByOne(c.maxAttempts - 1), Checks(k) + Fails(k));
  }

  /** The bound is exact: for every limit and every k some run with k logins in flight stores maxAttempts + k - 1. */
  lemma BoundIsReached(c: Config, who: string, k: nat) returns (steps: seq<Step>)
    requires c.maxAttempts >= 1 && c.windowSeconds > 0 && k >= 1
    ensures
      var s := Fresh(Memory(map[], map[]), 0);
      && Runs(c, who, k, s, steps)
      && Failures(After(c, who, k, s, steps).memory, who) == c.maxAttempts + k - 1
  {
    steps := OneByOne(c.maxAttempts - 1) + (Checks(k) + Fails(k));
    BoundIsReachedFrom(c, who, k, Fresh(Memory(map[], map[]), 0), steps);
  }

  // ---------------------------------------------------------------- the services

  class LoginRateLimiter {
    const config: Config
    const redis: MemoryRedis<RedisKey>

    constructor (config: Config, redis: MemoryRedis<RedisKey>)
      ensures this.config == config && this.redis == redis
    {
      this.config, this.redis := config, redis;
    }

    /** The key has a live window whose count has reached the limit. */
    ghost predicate Blocked(who: string, at: Time)
      reads redis
    {
      redis.LiveCounter(Login(who), at) && redis.memoryCounters[Login(who)].count >= config.maxAttempts
    }

    /** False if the call throws "too many attempts". */
    method Check(who: string, first: Time) returns (admitted: bool)
      modifies redis
      ensures admitted <==> !old(Blocked(who, first))
      ensures redis.LiveCounter(Login(who), first) <==> old(redis.LiveCounter(Login(who), first))
      ensures redis.LiveCounter(Login(who), first) ==> redis.memoryCounters[Login(who)] == old(redis.memoryCounters)[Login(who)]
      ensures (redis.View(), admitted) ==
                (Got(old(redis.View()), Login(who), first).0, Admits(config, Got(old(redis.View()), Login(who), first).1))
    {
      var read := redis.Get(Login(who), first);
      if read.None? {
        return true;
      }
      return !(read.value.Tally? && read.value.count >= config.maxAttempts);
    }

    method RegisterFailure(who: string, first: Time, now: Time)
      modifies redis
      ensures Login(who) in redis.memoryCounters
      ensures redis.memoryCounters[Login(who)] ==
                if old(redis.LiveCounter(Login(who), Max(first, now)))
                then old(redis.memoryCounters)[Login(who)].(count := old(redis.memoryCounters)[Login(who)].count + 1)
                else Counter(1, now + config.windowSeconds * 1000)
      ensures redis.View() == Incremented(old(redis.View()), Login(who), config.windowSeconds, first, now).0
    {
      var _ := redis.IncrementWithWindow(Login(who), config.windowSeconds, first, now);
    }

    method Clear(who: string)
      modifies redis
      ensures redis.View() == Deleted(old(redis.View()), Login(who))
      ensures Login(who) !in redis.memoryCounters && Login(who) !in redis.memoryLocks
    {
      redis.Delete(Login(who));
    }
  }

  /** How the login's own work ends: wrong credentials (or no session), all well, or an error after the clear. */
  datatype Work = Rejected | Succeeded | FailedAfterClear
  datatype Reply = TooManyAttempts | Refused | LoggedIn

  datatype LoginClock = LoginClock(check: Time, clear: Time, first: Time, now: Time)

  /** The steps of one login that nothing interleaves. */
  function LoginSteps(c: Config, s: State, who: string, work: Work, t: LoginClock): seq<Step> {
    if !Admits(c, Got(s.memory, Login(who), t.check).1) then [Check(t.check)]
    else match work
         case Rejected => [Check(t.check), Fail(false, t.first, t.now)]
         case Succeeded => [Check(t.check), Clear(t.clear), Answer(t.clear)]
         case FailedAfterClear => [Check(t.check), Clear(t.clear), Fail(true, t.first, t.now)]
  }

  /** The state after taking the steps one by one. */
  function Taken(c: Config, s: State, who: string, steps: seq<Step>): (t: Option<State>)
    decreases |steps|
  {
    if steps == [] then Some(s)
    else if Enabled(s, who, steps[0]) then Taken(c, Apply(c, s, who, steps[0]), who, steps[1..])
    else None
  }

  lemma TakenFirst(c: Config, s: State, who: string, a: Step, rest: seq<Step>)
    requires Enabled(s, who, a)
    ensures Taken(c, s, who, [a] + rest) == Taken(c, Apply(c, s, who, a), who, rest)
  {
    assert ([a] + rest)[1..] == rest;
  }

  class AuthController {
    const limiter: LoginRateLimiter

    constructor (limiter: LoginRateLimiter)
      ensures this.limiter == limiter
    {
      this.limiter := limiter;
    }

    /**
     One login is the protocol's steps, and it leaves the memory as they do. It is turned away exactly while the limit is
     reached. Otherwise a refused login counts as one more failure of the live window or opens one, a success leaves
     no count, and an error after that leaves the count at one.
     */
    method Login(who: string, work: Work, t: LoginClock) returns (reply: Reply)
      requires t.check <= t.clear <= t.first <= t.now
      modifies limiter.redis
      ensures
        var start := Fresh(old(limiter.redis.View()), t.check);
        var end := Taken(limiter.config, start, who, LoginSteps(limiter.config, start, who, work, t));
        && end.Some? && end.value.InFlight() == 0
        && end.value.memory == limiter.redis.View()
      ensures reply.TooManyAttempts? <==> old(limiter.Blocked(who, t.check))
      ensures
        var key := RedisKey.Login(who);
        var now, before := limiter.redis.memoryCounters, old(limiter.redis.memoryCounters);
        var first := Counter(1, t.now + limiter.config.windowSeconds * 1000);
        match reply
        case TooManyAttempts => key in now && now[key] == before[key]
        case LoggedIn => work.Succeeded? && key !in now
        case Refused =>
          && !work.Succeeded? && key in now
          && now[key] == if work.Rejected? && old(limiter.redis.LiveCounter(key, t.now))
                         then Counter(before[key].count + 1, before[key].expiresAt) else first
      ensures reply.TooManyAttempts? <==> !Admits(limiter.config, Got(old(limiter.redis.View()), RedisKey.Login(who), t.check).1)
      ensures reply.LoggedIn? <==> !reply.TooManyAttempts? && work.Succeeded?
    {
      ghost var s0 := Fresh(limiter.redis.View(), t.check);
      var admitted := limiter.Check(who, t.check);
      ghost var s1 := Apply(limiter.config, s0, who, Check(t.check));
      if !admitted {
        TakenFirst(limiter.config, s0, who, Check(t.check), []);
        return TooManyAttempts;
      }
      if work.Rejected? {
        limiter.RegisterFailure(who, t.first, t.now);
        ghost var end := [Fail(false, t.first, t.now)];
        TakenFirst(limiter.config, s0, who, Check(t.check), end);
        TakenFirst(limiter.config, s1, who, end[0], []);
        return Refused;
      }
      limiter.Clear(who);
      ghost var s2 := Apply(limiter.config, s1, who, Clear(t.clear));
      if work.FailedAfterClear? {
        limiter.RegisterFailure(who, t.first, t.now);
        ghost var end := [Fail(true, t.first, t.now)];
        TakenFirst(limiter.config, s0, who, Check(t.check), [Clear(t.clear)] + end);
        TakenFirst(limiter.config, s1, who, Clear(t.clear), end);
        TakenFirst(limiter.config, s2, who, end[0], []);
        return Refused;
      }
      ghost var end := [Answer(t.clear)];
      TakenFirst(limiter.config, s0, who, Check(t.check), [Clear(t.clear)] + end);
      TakenFirst(limiter.config, s1, who, Clear(t.clear), end);
      TakenFirst(limiter.config, s2, who, end[0], []);
      return LoggedIn;
    }
  }
}
