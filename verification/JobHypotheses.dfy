/**
 Why the hypotheses are there. Nothing in a finishing call checks that the row still belongs to the
 caller, so without H1 a worker that outlives its lock overwrites a terminal status and a second terminal
 event is written. And a reclaim ignores `maxAttempts`, so `attemptCount` may exceed it even under H1.
 */
module JobHypotheses {
  import opened Base
  import opened Jobs
  import opened JobQueue
  import opened JobSafety
  import opened JobTimeline

  ghost function Last(r: Run): State
    requires r.states != []
  {
    r.states[|r.states| - 1]
  }

  /** The run continued by one action. */
  lemma Extend(c: Config, h1: bool, r: Run, a: Action) returns (q: Run)
    requires r.Valid(c, h1) && Enabled(c, Last(r), a) && (h1 ==> Timely(c, Last(r), a))
    ensures q.Valid(c, h1) && q.acts == r.acts + [a] && q.states == r.states + [Apply(c, Last(r), a)]
    ensures Last(q) == Apply(c, Last(r), a)
  {
    q := Run(r.states + [Apply(c, Last(r), a)], r.acts + [a]);
    forall i | 0 <= i < |q.acts|
      ensures Step(c, h1, q.states[i], q.acts[i], q.states[i + 1])
    {
      if i < |r.acts| {
        assert Step(c, h1, r.states[i], r.acts[i], r.states[i + 1]);
      }
    }
  }

  const JOB: JobId := 7

  /** Only the job of the example exists. */
  ghost predicate Alone(s: State, row: Job) {
    s.jobs == map[JOB := row]
  }

  /** A fresh system in which a folder rename is queued and worker 1 has its lock. */
  lemma FirstLock(c: Config) returns (r: Run)
    requires c.Valid()
    ensures r.Valid(c, true)
    ensures
      var s := Last(r);
      && s.clock == 0 && s.At(1) == Locked(JOB, 0, 0, None, false, 0) && s.At(2) == Idle
      && Alone(s, NewJob(c, FolderRename, 0))
      && s.locks == map[JOB := Lease(0, c.Ttl())]
      && s.nextToken == 1 && s.log == map[]
  {
    var s := State(0, map[], map[], map[], map[], 0, {});
    r := Run([s], []);
    r := Extend(c, true, r, Enqueue(0, JOB, FolderRename));
    r := Extend(c, true, r, BeginClaim(1, 0));
    r := Extend(c, true, r, Pick(1, JOB));
    r := Extend(c, true, r, Acquire(1));
  }

  /** Worker 1 has claimed the job and is about to write the claim's events. */
  lemma FirstUpdate(c: Config) returns (r: Run)
    requires c.Valid()
    ensures r.Valid(c, true)
    ensures
      var s := Last(r);
      && s.clock == 0 && s.At(1) == Starting(JOB, 0, 0, [Claimed, Started]) && s.At(2) == Idle
      && Alone(s, ClaimRow(NewJob(c, FolderRename, 0), None, 0, 0))
      && s.locks == map[JOB := Lease(0, c.Ttl())]
      && s.nextToken == 1 && s.log == map[]
  {
    r := FirstLock(c);
    r := Extend(c, true, r, ClaimUpdate(1));
  }

  /** Worker 1 has written them. */
  lemma FirstEvents(c: Config) returns (r: Run)
    requires c.Valid()
    ensures r.Valid(c, true)
    ensures
      var s := Last(r);
      && s.clock == 0 && s.At(1) == Starting(JOB, 0, 0, []) && s.At(2) == Idle
      && Alone(s, ClaimRow(NewJob(c, FolderRename, 0), None, 0, 0))
      && s.locks == map[JOB := Lease(0, c.Ttl())]
      && s.nextToken == 1 && s.Logged(JOB) == [Claimed, Started]
  {
    r := FirstUpdate(c);
    r := Extend(c, true, r, Emit(1));
    assert Last(r).At(1) == Starting(JOB, 0, 0, [Started]) && Last(r).Logged(JOB) == [Claimed];
    r := Extend(c, true, r, Emit(1));
  }

  /** A fresh system in which worker 1 is working on a folder rename that it claimed at time 0. */
  lemma FirstClaim(c: Config) returns (r: Run)
    requires c.Valid()
    ensures r.Valid(c, true)
    ensures
      var s := Last(r);
      && s.clock == 0 && s.At(1) == Working(JOB, 0, 0) && s.At(2) == Idle
      && Alone(s, ClaimRow(NewJob(c, FolderRename, 0), None, 0, 0))
      && s.locks == map[JOB := Lease(0, c.Ttl())]
      && s.nextToken == 1 && s.Logged(JOB) == [Claimed, Started]
  {
    r := FirstEvents(c);
    r := Extend(c, true, r, CheckStart(1));
  }

  /** Past the TTL, worker 2 finds the running job stale. */
  lemma SecondPick(c: Config) returns (r: Run)
    requires c.Valid()
    ensures r.Valid(c, true)
    ensures
      var s := Last(r);
      var now := c.Ttl() + 1;
      && s.clock == now && s.At(1) == Working(JOB, 0, 0) && s.At(2) == Picked(JOB, now, now, Some(0), true)
      && Alone(s, ClaimRow(NewJob(c, FolderRename, 0), None, 0, 0))
      && s.locks == map[JOB := Lease(0, c.Ttl())] && s.nextToken == 1 && s.Logged(JOB) == [Claimed, Started]
  {
    r := FirstClaim(c);
    r := Extend(c, true, r, Tick(c.Ttl() + 1));
    r := Extend(c, true, r, BeginClaim(2, c.Ttl() + 1));
    r := Extend(c, true, r, Pick(2, JOB));
  }

  /** Past the TTL, worker 2 takes the expired lock of the running job. */
  lemma SecondLock(c: Config) returns (r: Run)
    requires c.Valid()
    ensures r.Valid(c, true)
    ensures
      var s := Last(r);
      var now := c.Ttl() + 1;
      && s.clock == now && s.At(1) == Working(JOB, 0, 0) && s.At(2) == Locked(JOB, now, now, Some(0), true, 1)
      && Alone(s, ClaimRow(NewJob(c, FolderRename, 0), None, 0, 0))
      && s.Logged(JOB) == [Claimed, Started]
  {
    r := SecondPick(c);
    r := Extend(c, true, r, Acquire(2));
  }

  /** Past the TTL, worker 2 reclaims the job that worker 1 has neither finished nor abandoned. */
  lemma SecondClaim(c: Config) returns (r: Run)
    requires c.Valid()
    ensures r.Valid(c, true)
    ensures
      var s := Last(r);
      var now := c.Ttl() + 1;
      && s.clock == now && s.At(1) == Working(JOB, 0, 0)
      && s.At(2) == Starting(JOB, 1, now, [Claimed, Reclaimed, RetryStarted, Started])
      && Alone(s, ClaimRow(ClaimRow(NewJob(c, FolderRename, 0), None, 0, 0), Some(0), now, 1))
      && s.Logged(JOB) == [Claimed, Started]
  {
    r := SecondLock(c);
    r := Extend(c, true, r, ClaimUpdate(2));
  }

  /** Even under H1, one reclaim takes `attemptCount` past `maxAttempts`. */
  lemma AttemptsCanExceedMax(c: Config) returns (r: Run)
    requires c.Valid()
    ensures r.Valid(c, true) && JOB in Last(r).jobs
    ensures Last(r).jobs[JOB].attemptCount > Last(r).jobs[JOB].maxAttempts
  {
    r := SecondClaim(c);
  }

  /** Worker 2 holds the job, with the claim's events still to write. */
  ghost predicate SecondHolds(c: Config, s: State, pc: Pc, log: seq<Event>) {
    && s.clock == c.Ttl() + 1 && s.At(1) == Working(JOB, 0, 0) && s.At(2) == pc
    && Alone(s, ClaimRow(ClaimRow(NewJob(c, FolderRename, 0), None, 0, 0), Some(0), c.Ttl() + 1, 1))
    && s.Logged(JOB) == log
  }

  lemma SecondWrites(c: Config, q: Run, e: Event, rest: seq<Event>, log: seq<Event>) returns (r: Run)
    requires c.Valid() && q.Valid(c, true)
    requires SecondHolds(c, Last(q), Starting(JOB, 1, c.Ttl() + 1, [e] + rest), log)
    ensures r.Valid(c, true) && SecondHolds(c, Last(r), Starting(JOB, 1, c.Ttl() + 1, rest), log + [e])
  {
    r := Extend(c, true, q, Emit(2));
    assert ([e] + rest)[1..] == rest;
  }

  /** Worker 2 starts on the job. */
  lemma SecondWorks(c: Config) returns (r: Run)
    requires c.Valid()
    ensures r.Valid(c, true)
    ensures
      SecondHolds(c, Last(r), Working(JOB, 1, c.Ttl() + 1), [Claimed, Started, Claimed, Reclaimed, RetryStarted, Started])
  {
    r := SecondClaim(c);
    var log := [Claimed, Started];
    assert [Claimed, Reclaimed, RetryStarted, Started] == [Claimed] + [Reclaimed, RetryStarted, Started];
    r := SecondWrites(c, r, Claimed, [Reclaimed, RetryStarted, Started], log);
    assert [Reclaimed, RetryStarted, Started] == [Reclaimed] + [RetryStarted, Started];
    r := SecondWrites(c, r, Reclaimed, [RetryStarted, Started], log + [Claimed]);
    assert [RetryStarted, Started] == [RetryStarted] + [Started];
    r := SecondWrites(c, r, RetryStarted, [Started], log + [Claimed, Reclaimed]);
    assert [Started] == [Started] + [];
    r := SecondWrites(c, r, Started, [], log + [Claimed, Reclaimed, RetryStarted]);
    r := SecondChecks(c, r);
  }

  lemma SecondChecks(c: Config, q: Run) returns (r: Run)
    requires c.Valid() && q.Valid(c, true)
    requires SecondHolds(c, Last(q), Starting(JOB, 1, c.Ttl() + 1, []), Last(q).Logged(JOB))
    ensures r.Valid(c, true) && SecondHolds(c, Last(r), Working(JOB, 1, c.Ttl() + 1), Last(q).Logged(JOB))
  {
    r := Extend(c, true, q, CheckStart(2));
  }

  /** Worker 2 completes the job. */
  lemma SecondCompletes(c: Config) returns (r: Run)
    requires c.Valid()
    ensures r.Valid(c, true)
    ensures
      var s := Last(r);
      && s.At(1) == Working(JOB, 0, 0) && s.At(2).Tail? && s.At(2).id == JOB && s.At(2).pending == []
      && JOB in s.jobs && s.jobs[JOB].status == Completed && !s.jobs[JOB].retryable
      && s.Logged(JOB) == [Claimed, Started, Claimed, Reclaimed, RetryStarted, Started, EvCompleted]
  {
    r := SecondWorks(c);
    r := Extend(c, true, r, Complete(2));
    r := Extend(c, true, r, Emit(2));
  }

  /** Worker 1, long past its deadline, fails the job that worker 2 completed. */
  lemma LateFailure(c: Config) returns (r: Run, m: nat)
    requires c.Valid()
    ensures r.Valid(c, false) && m < |r.acts|
    ensures JOB in r.states[m].jobs && r.states[m].jobs[JOB].status == Completed
    ensures
      var s := Last(r);
      && JOB in s.jobs && s.jobs[JOB].status == Failed
      && s.At(1).Tail? && s.At(1).id == JOB && s.At(1).pending == [RetrySkipped, EvFailed]
      && Ends(s.Logged(JOB)) == 1
  {
    var q := SecondCompletes(c);
    CompletedOnce(c, q);
    DropH1(c, true, q);
    r := Extend(c, false, q, Fail(1));
    m := |q.acts|;
    assert r.states[m] == Last(q);
  }

  /** Within H1 a completed job's timeline holds one terminal event. */
  lemma CompletedOnce(c: Config, r: Run)
    requires c.Valid() && r.Valid(c, true) && JOB in Last(r).jobs && EvCompleted in Last(r).Logged(JOB)
    ensures Ends(Last(r).Logged(JOB)) == 1
  {
    SingleTerminalEvent(c, r, |r.acts|, JOB);
    assert EvCompleted in multiset(Last(r).Logged(JOB));
  }

  /** Worker 1 writes the events of its late failure. */
  lemma LateEvents(c: Config, q: Run, log: seq<Event>) returns (r: Run)
    requires q.Valid(c, false) && Last(q).At(1).Tail? && Last(q).At(1).id == JOB && Last(q).Logged(JOB) == log
    requires Last(q).At(1).pending == [RetrySkipped, EvFailed]
    ensures r.Valid(c, false) && Last(r).jobs == Last(q).jobs && Last(r).Logged(JOB) == log + [RetrySkipped, EvFailed]
    ensures |r.states| > |q.states| && r.states[..|q.states|] == q.states && |r.acts| > |q.acts|
  {
    r := Extend(c, false, q, Emit(1));
    assert Last(r).At(1).pending == [EvFailed] && Last(r).Logged(JOB) == log + [RetrySkipped];
    r := Extend(c, false, r, Emit(1));
  }

  /**
   Without H1 a terminal status is not absorbing and the timeline can hold two terminal events: the late
   failure of worker 1 turns the COMPLETED job into a FAILED one.
   */
  lemma AbsorptionNeedsH1(c: Config) returns (r: Run, m: nat)
    requires c.Valid()
    ensures r.Valid(c, false) && m < |r.acts|
    ensures JOB in r.states[m].jobs && r.states[m].jobs[JOB].status == Completed
    ensures JOB in Last(r).jobs && Last(r).jobs[JOB].status == Failed
    ensures Ends(Last(r).Logged(JOB)) == 2
  {
    var q;
    q, m := LateFailure(c);
    var log := Last(q).Logged(JOB);
    r := LateEvents(c, q, log);
    assert r.states[m] == r.states[..|q.states|][m];
    EndsAppend(log, RetrySkipped);
    EndsAppend(log + [RetrySkipped], EvFailed);
    assert log + [RetrySkipped] + [EvFailed] == log + [RetrySkipped, EvFailed];
  }

  // ---------------------------------------------------------------- the guard that would replace H1

  /** The row still records this actor's attempt. No finishing call of the service checks this. */
  ghost predicate OwnRow(s: State, w: Actor) {
    && s.At(w).Owns() && s.At(w).id in s.jobs
    && s.jobs[s.At(w).id].status.Running? && s.jobs[s.At(w).id].lockKey == Some(s.At(w).token)
  }

  /** Under H1 every finish finds its own row. */
  lemma H1ImpliesOwnRow(c: Config, r: Run, n: nat, w: Actor)
    requires c.Valid() && r.Valid(c, true) && n < |r.acts|
    requires r.acts[n] in {Complete(w), Fail(w), Cancel(w)}
    ensures OwnRow(r.states[n], w)
  {
    Reachable(c, true, r, n);
    assert Step(c, true, r.states[n], r.acts[n], r.states[n + 1]) && OwnerOk(c, r.states[n], w);
  }

  /** Every finish of the run was made by an actor whose attempt the row still recorded. */
  ghost predicate Guarded(r: Run)
    requires |r.states| == |r.acts| + 1
  {
    forall i: nat :: i < |r.acts| && (r.acts[i].Complete? || r.acts[i].Fail? || r.acts[i].Cancel?)
      ==> OwnRow(r.states[i], r.acts[i].w)
  }

  lemma GuardedStep(c: Config, s: State, a: Action, t: State, id: JobId)
    requires Step(c, false, s, a, t) && id in s.jobs && Terminal(s.jobs[id].status)
    requires (a.Complete? || a.Fail? || a.Cancel?) ==> OwnRow(s, a.w)
    ensures id in t.jobs && t.jobs[id].status == s.jobs[id].status
  {
    RowFrame(c, false, s, a, t);
  }

  /** With that guard, terminal statuses are absorbing in every run, deadlines or not. */
  lemma {:induction false} GuardSuffices(c: Config, r: Run, m: nat, n: nat, id: JobId)
    requires c.Valid() && r.Valid(c, false) && m <= n <= |r.acts| && Guarded(r)
    requires id in r.states[m].jobs && Terminal(r.states[m].jobs[id].status)
    ensures id in r.states[n].jobs && r.states[n].jobs[id].status == r.states[m].jobs[id].status
    decreases n
  {
    if m < n {
      var i := n - 1;
      GuardSuffices(c, r, m, i, id);
      var s, a, t := r.states[i], r.acts[i], r.states[i + 1];
      assert (a.Complete? || a.Fail? || a.Cancel?) ==> OwnRow(s, a.w);
      GuardedStep(c, s, a, t, id);
    }
  }

  // ---------------------------------------------------------------- exactly when absorption holds

  ghost predicate Finishes(a: Action) {
    a.Complete? || a.Fail? || a.Cancel?
  }

  /** The finish leaves a terminal row alone: it finds none, or says again what the row says, with no retry left. */
  ghost predicate Harmless(s: State, a: Action)
    requires Finishes(a)
  {
    s.At(a.w).Owns() && s.At(a.w).id in s.jobs ==>
      var row := s.jobs[s.At(a.w).id];
      match row.status
      case Completed => a.Complete?
      case Canceled => a.Cancel?
      case Failed => a.Fail? && !ShouldRetry(row)
      case _ => true
  }

  ghost predicate KeepsTerminals(s: State, t: State) {
    forall id :: id in s.jobs && Terminal(s.jobs[id].status) ==> id in t.jobs && t.jobs[id].status == s.jobs[id].status
  }

  lemma OthersKeepTerminals(c: Config, s: State, a: Action, t: State)
    requires Step(c, false, s, a, t) && !Finishes(a)
    ensures KeepsTerminals(s, t)
  {
    RowFrame(c, false, s, a, t);
  }

  lemma FinishKeepsTerminalsIff(c: Config, s: State, a: Action, t: State)
    requires Step(c, false, s, a, t) && Finishes(a)
    ensures KeepsTerminals(s, t) <==> Harmless(s, a)
  {
    FinishApplies(c, s, a);
    var (row, events) := FinishEnd(c, a, s.jobs[s.At(a.w).id], s.clock);
    OneRowKept(s, Finish(s, a.w, row, events), s.At(a.w).id, row);
  }

  lemma OneRowKept(s: State, t: State, id: JobId, row: Job)
    requires id in s.jobs && t.jobs == s.jobs[id := row]
    ensures KeepsTerminals(s, t) <==> (Terminal(s.jobs[id].status) ==> row.status == s.jobs[id].status)
  {
  }

  lemma StepKeepsTerminalsIff(c: Config, s: State, a: Action, t: State)
    requires Step(c, false, s, a, t)
    ensures KeepsTerminals(s, t) <==> (Finishes(a) ==> Harmless(s, a))
  {
    if Finishes(a) {
      FinishKeepsTerminalsIff(c, s, a, t);
    } else {
      OthersKeepTerminals(c, s, a, t);
    }
  }

  /** Terminal statuses are absorbing throughout the run. */
  ghost predicate Absorbing(r: Run)
    requires |r.states| == |r.acts| + 1
  {
    forall m: nat, n: nat :: m <= n <= |r.acts| ==> KeepsTerminals(r.states[m], r.states[n])
  }

  ghost predicate HarmlessRun(r: Run)
    requires |r.states| == |r.acts| + 1
  {
    forall i: nat :: i < |r.acts| && Finishes(r.acts[i]) ==> Harmless(r.states[i], r.acts[i])
  }

  lemma KeepsAtStep(c: Config, r: Run, n: nat)
    requires r.Valid(c, false) && n < |r.acts|
    ensures KeepsTerminals(r.states[n], r.states[n + 1]) <==> (Finishes(r.acts[n]) ==> Harmless(r.states[n], r.acts[n]))
  {
    assert Step(c, false, r.states[n], r.acts[n], r.states[n + 1]);
    StepKeepsTerminalsIff(c, r.states[n], r.acts[n], r.states[n + 1]);
  }

  lemma HarmlessStepKeeps(c: Config, r: Run, n: nat)
    requires r.Valid(c, false) && HarmlessRun(r) && n < |r.acts|
    ensures KeepsTerminals(r.states[n], r.states[n + 1])
  {
    KeepsAtStep(c, r, n);
  }

  lemma KeepsCompose(x: State, y: State, z: State)
    requires KeepsTerminals(x, y) && KeepsTerminals(y, z)
    ensures KeepsTerminals(x, z)
  {
  }

  lemma {:induction false} KeepsThroughout(states: seq<State>, m: nat, n: nat)
    requires m <= n < |states|
    requires forall i: nat :: i < |states| - 1 ==> KeepsTerminals(states[i], states[i + 1])
    ensures KeepsTerminals(states[m], states[n])
    decreases n
  {
    if m == n {
    } else {
      KeepsThroughout(states, m, n - 1);
      assert KeepsTerminals(states[n - 1], states[n - 1 + 1]);
      KeepsCompose(states[m], states[n - 1], states[n]);
    }
  }

  lemma HarmlessKeeps(c: Config, r: Run, m: nat, n: nat)
    requires r.Valid(c, false) && HarmlessRun(r) && m <= n <= |r.acts|
    ensures KeepsTerminals(r.states[m], r.states[n])
  {
    forall i: nat | i < |r.states| - 1
      ensures KeepsTerminals(r.states[i], r.states[i + 1])
    {
      HarmlessStepKeeps(c, r, i);
    }
    KeepsThroughout(r.states, m, n);
  }

  /**
   In every run, deadlines or not: terminal statuses are absorbing exactly when no finishing call meets a terminal
   row that says something else. The guard a finish would have to evaluate is `Harmless`.
   */
  lemma AbsorbingIff(c: Config, r: Run)
    requires r.Valid(c, false)
    ensures Absorbing(r) <==> HarmlessRun(r)
  {
    if Absorbing(r) {
      forall i: nat | i < |r.acts| && Finishes(r.acts[i])
        ensures Harmless(r.states[i], r.acts[i])
      {
        assert KeepsTerminals(r.states[i], r.states[i + 1]);
        KeepsAtStep(c, r, i);
      }
    }
    if HarmlessRun(r) {
      forall m: nat, n: nat | m <= n <= |r.acts|
        ensures KeepsTerminals(r.states[m], r.states[n])
      {
        HarmlessKeeps(c, r, m, n);
      }
    }
  }

  // ---------------------------------------------------------------- exactly when attempts are bounded

  ghost predicate Bounded(s: State) {
    forall id :: id in s.jobs ==> s.jobs[id].attemptCount <= s.jobs[id].maxAttempts
  }

  /** A claim that succeeds finds attempts left. The candidate query does not ask for this when a job is stale. */
  ghost predicate FindsAttemptsLeft(c: Config, s: State, a: Action) {
    a.ClaimUpdate? && Enabled(c, s, a) && Touched(c, s, a).Some? ==>
      var row := s.jobs[s.At(a.w).id];
      row.attemptCount < row.maxAttempts
  }

  lemma BoundedStepIff(c: Config, s: State, a: Action, t: State)
    requires Inv(c, s) && Bounded(s) && c.Valid() && Step(c, false, s, a, t)
    ensures Bounded(t) <==> FindsAttemptsLeft(c, s, a)
  {
    RowFrame(c, false, s, a, t);
    if Touched(c, s, a).Some? {
      UpdatedBounded(c, s, a);
    }
  }

  /** Only a claim counts an attempt. */
  lemma UpdatedBounded(c: Config, s: State, a: Action)
    requires Bounded(s) && c.Valid() && Enabled(c, s, a) && Touched(c, s, a).Some?
    ensures Updated(c, s, a).attemptCount <= Updated(c, s, a).maxAttempts <==> FindsAttemptsLeft(c, s, a)
  {
  }

  /** The first `n` claims find attempts left. */
  ghost predicate ClaimsFindAttempts(c: Config, r: Run, n: nat)
    requires n <= |r.acts| && |r.states| == |r.acts| + 1
  {
    forall i: nat :: i < n ==> FindsAttemptsLeft(c, r.states[i], r.acts[i])
  }

  ghost predicate BoundedThrough(r: Run, n: nat)
    requires n <= |r.acts| && |r.states| == |r.acts| + 1
  {
    forall i: nat :: i <= n ==> Bounded(r.states[i])
  }

  lemma {:induction false} BoundedUpTo(c: Config, r: Run, n: nat)
    requires c.Valid() && r.Valid(c, false) && n <= |r.acts|
    ensures BoundedThrough(r, n) <==> ClaimsFindAttempts(c, r, n)
  {
    if n == 0 {
    } else {
      BoundedUpTo(c, r, n - 1);
      if BoundedThrough(r, n - 1) {
        BoundedNext(c, r, n - 1);
      }
    }
  }

  lemma BoundedNext(c: Config, r: Run, n: nat)
    requires c.Valid() && r.Valid(c, false) && n < |r.acts| && Bounded(r.states[n])
    ensures Bounded(r.states[n + 1]) <==> FindsAttemptsLeft(c, r.states[n], r.acts[n])
  {
    Reachable(c, false, r, n);
    assert Step(c, false, r.states[n], r.acts[n], r.states[n + 1]);
    BoundedStepIff(c, r.states[n], r.acts[n], r.states[n + 1]);
  }

  /** `attemptCount` stays within `maxAttempts` throughout a run exactly when every claim finds attempts left. */
  lemma AttemptsBoundedIff(c: Config, r: Run)
    requires c.Valid() && r.Valid(c, false)
    ensures (forall i: nat :: i <= |r.acts| ==> Bounded(r.states[i])) <==>
              (forall i: nat :: i < |r.acts| ==> FindsAttemptsLeft(c, r.states[i], r.acts[i]))
  {
    BoundedUpTo(c, r, |r.acts|);
  }
}
