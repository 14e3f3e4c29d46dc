/**
 The job service as an object: the job table, the event table and the Redis object it locks with. Each
 method is one uninterrupted call and is proved against a function of the old tables; `Uninterrupted...`
 says that the finishing calls are exactly the protocol's actions taken without interleaving.
 Every reading of the clock that a call makes is a parameter.
 */
module JobsServiceObject {
  import opened Base
  import opened Jobs
  import opened Redis

  datatype Tables = Tables(jobs: map<JobId, Job>, log: map<JobId, seq<Event>>, memory: Memory<RedisKey>)
  {
    function Logged(id: JobId): seq<Event> {
      if id in log then log[id] else []
    }
  }

  // ---------------------------------------------------------------- what each call does to the tables

  function Append(tb: Tables, id: JobId, events: seq<Event>): Tables {
    tb.(log := tb.log[id := tb.Logged(id) + events])
  }

  function ReleaseJobLock(tb: Tables, id: JobId, lockKey: Option<Token>, at: Time): Tables {
    if lockKey.None? then tb
    else tb.(memory := Released(tb.memory, JobLock(id), lockKey.value, at).0)
  }

  /** A finishing call: the updated row, its events, and the release of the lock the row named before. */
  function Finished(tb: Tables, id: JobId, row: Job, events: seq<Event>, at: Time): Tables
    requires id in tb.jobs
  {
    ReleaseJobLock(Append(tb.(jobs := tb.jobs[id := row]), id, events), id, tb.jobs[id].lockKey, at)
  }

  function Enqueued(c: Config, tb: Tables, id: JobId, kind: JobType, now: Time): Tables {
    Append(tb.(jobs := tb.jobs[id := NewJob(c, kind, now)]), id, [Created])
  }

  /** The clock readings of one `claimNext`. */
  datatype ClaimClock = ClaimClock(staleFrom: Time, now: Time, lockFirst: Time, lockNow: Time, undoAt: Time)

  predicate Candidate(c: Config, jobs: map<JobId, Job>, k: ClaimClock, id: JobId) {
    id in jobs && Claimable(jobs[id], k.now, k.staleFrom - c.Ttl())
  }

  /** The candidate query: some oldest claimable job, or none if nothing is claimable. */
  ghost predicate OldestCandidate(c: Config, jobs: map<JobId, Job>, k: ClaimClock, found: Option<JobId>) {
    match found
    case None => forall id :: id in jobs ==> !Candidate(c, jobs, k, id)
    case Some(best) =>
      && Candidate(c, jobs, k, best)
      && forall id :: id in jobs && Candidate(c, jobs, k, id) ==> jobs[best].createdAt <= jobs[id].createdAt
  }

  /**
   A `claimNext` that found `id` and drew `token`, while other processes wrote the rows `others` between the
   candidate query and the conditional update. A refused update gives the lock back.
   */
  function ClaimedTables(c: Config, tb: Tables, others: map<JobId, Job>, id: JobId, token: Token, k: ClaimClock): (Tables, bool)
    requires id in tb.jobs
  {
    var (memory, ok) := Acquired(tb.memory, JobLock(id), token, c.ttlSeconds, k.lockFirst, k.lockNow);
    var locked := tb.(memory := memory);
    if !ok then (locked, false)
    else
      var met := locked.(jobs := tb.jobs + others);
      if !Candidate(c, met.jobs, k, id) then (ReleaseJobLock(met, id, Some(token), k.undoAt), false)
      else
        var row := ClaimRow(met.jobs[id], tb.jobs[id].startedAt, k.now, token);
        (Append(met.(jobs := met.jobs[id := row]), id, ClaimEvents(row, tb.jobs[id].status.Running?)), true)
  }

  class JobsService {
    const config: Config
    const redis: MemoryRedis<RedisKey>
    var jobs: map<JobId, Job>
    var events: map<JobId, seq<Event>>

    constructor (config: Config, redis: MemoryRedis<RedisKey>)
      ensures this.config == config && this.redis == redis
      ensures View() == Tables(map[], map[], redis.View())
    {
      this.config, this.redis := config, redis;
      jobs, events := map[], map[];
    }

    ghost function View(): Tables
      reads this, redis
    {
      Tables(jobs, events, redis.View())
    }

    /** The job's lock is held with the given value. */
    ghost predicate HoldsLock(id: JobId, lockKey: Option<Token>)
      reads this, redis
    {
      && lockKey.Some? && JobLock(id) in redis.memoryLocks && redis.memoryLocks[JobLock(id)].value == lockKey.value
    }

    method CreateEvent(id: JobId, e: Event)
      modifies this`events
      ensures View() == Append(old(View()), id, [e])
    {
      events := events[id := (if id in events then events[id] else []) + [e]];
    }

    method CreateEvents(id: JobId, batch: seq<Event>)
      modifies this`events
      ensures batch == [] ==> View() == old(View())
      ensures batch != [] ==> View() == Append(old(View()), id, batch)
    {
      ghost var base := View().Logged(id);
      var i := 0;
      while i < |batch|
        invariant 0 <= i <= |batch|
        invariant jobs == old(jobs)
        invariant events == if i == 0 then old(events) else old(events)[id := base + batch[..i]]
      {
        ghost var before := View();
        CreateEvent(id, batch[i]);
        assert before.Logged(id) == base + batch[..i];
        assert base + batch[..i] + [batch[i]] == base + batch[..i + 1];
        i := i + 1;
      }
      assert batch[..i] == batch;
    }

    method ReleaseLock(id: JobId, lockKey: Option<Token>, at: Time)
      modifies redis
      ensures View() == ReleaseJobLock(old(View()), id, lockKey, at)
      ensures !HoldsLock(id, lockKey)
    {
      if lockKey.Some? {
        var _ := redis.ReleaseLock(JobLock(id), lockKey.value, at);
      }
    }

    /** False if writing the event throws; the row is there all the same. */
    method Enqueue(id: JobId, kind: JobType, now: Time, eventThrows: bool) returns (ok: bool)
      requires id !in jobs && id !in events
      modifies this
      ensures ok <==> !eventThrows
      ensures ok ==> View() == Enqueued(config, old(View()), id, kind, now)
      ensures !ok ==> View() == old(View()).(jobs := old(jobs)[id := NewJob(config, kind, now)])
      ensures id in jobs && jobs[id].kind == kind && jobs[id].status.Queued? && jobs[id].attemptCount == 0
      ensures jobs[id].createdAt == now && jobs[id].nextRetryAt.None? && jobs[id].lockKey.None?
      ensures jobs[id].startedAt.None? && jobs[id].completedAt.None? && jobs[id].cancelRequestedAt.None?
      ensures jobs[id].retryable <==> kind.BucketSync? || kind.UploadCleanup? || kind.RetentionCleanup?
      ensures jobs[id].maxAttempts ==
                match kind
                case BucketSync => config.syncAttempts
                case UploadCleanup => config.uploadAttempts
                case RetentionCleanup => config.retentionAttempts
                case _ => 1
      ensures events == if eventThrows then old(events) else old(events)[id := [Created]]
    {
      jobs := jobs[id := NewJob(config, kind, now)];
      if eventThrows {
        return false;
      }
      CreateEvent(id, Created);
      assert [] + [Created] == [Created];
      return true;
    }

    method MarkCompleted(id: JobId, now: Time, at: Time)
      modifies this, redis
      ensures id !in old(jobs) ==> View() == old(View())
      ensures id in old(jobs) ==>
                View() == Finished(old(View()), id, CompleteRow(old(jobs)[id], now), [EvCompleted], at)
      ensures id in old(jobs) ==>
                jobs == old(jobs)[id := old(jobs)[id].(status := Completed, completedAt := Some(now), nextRetryAt := None)]
      ensures id in old(jobs) ==> events == old(events)[id := old(View()).Logged(id) + [EvCompleted]]
      ensures id in old(jobs) ==> !HoldsLock(id, old(jobs)[id].lockKey)
    {
      if id !in jobs {
        return;
      }
      jobs := jobs[id := CompleteRow(jobs[id], now)];
      CreateEvents(id, [EvCompleted]);
      ReleaseLock(id, jobs[id].lockKey, at);
    }

    /**
     A failed attempt is queued again exactly when the job is retryable and has attempts left, to be due after the
     kind's base doubled with each attempt, up to the cap; otherwise the job has failed.
     */
    method MarkFailed(id: JobId, now: Time, at: Time)
      modifies this, redis
      ensures id !in old(jobs) ==> View() == old(View())
      ensures id in old(jobs) ==>
                View() == Finished(old(View()), id, FailRow(config, old(jobs)[id], now), FailEvents(old(jobs)[id]), at)
      ensures id in old(jobs) ==>
                && id in jobs && jobs == old(jobs)[id := jobs[id]]
                && (jobs[id].status.Queued? <==> old(jobs)[id].retryable && old(jobs)[id].attemptCount < old(jobs)[id].maxAttempts)
                && (jobs[id].status.Queued? || jobs[id].status.Failed?)
      ensures id in old(jobs) && jobs[id].status.Queued? ==>
                && jobs[id] == old(jobs)[id].(status := Queued, completedAt := None, lockKey := None, lockedAt := None,
                                              nextRetryAt := jobs[id].nextRetryAt)
                && (old(jobs)[id].attemptCount >= 1 ==>
                      jobs[id].nextRetryAt == Some(now + 1000 * Min(BaseOf(old(jobs)[id].kind) * Pow2(old(jobs)[id].attemptCount - 1),
                                                                    config.backoffCap)))
      ensures id in old(jobs) && jobs[id].status.Failed? ==>
                jobs[id] == old(jobs)[id].(status := Failed, completedAt := Some(now), nextRetryAt := None)
      ensures id in old(jobs) ==>
                events == old(events)[id := old(View()).Logged(id) +
                  if jobs[id].status.Queued? then [RetryScheduled]
                  else if old(jobs)[id].retryable then [RetryExhausted, EvFailed]
                  else [RetrySkipped, EvFailed]]
      ensures id in old(jobs) ==> !HoldsLock(id, old(jobs)[id].lockKey)
    {
      if id !in jobs {
        return;
      }
      var existing := jobs[id];
      if existing.retryable && existing.attemptCount < existing.maxAttempts {
        var delaySeconds := BackoffSeconds(config, existing.kind, existing.attemptCount);
        jobs := jobs[id := existing.(status := Queued, completedAt := None, lockKey := None, lockedAt := None,
                                     nextRetryAt := Some(now + delaySeconds * 1000))];
        CreateEvents(id, [RetryScheduled]);
        ReleaseLock(id, existing.lockKey, at);
        if existing.attemptCount >= 1 {
          BackoffIsCappedDoubling(config, existing.kind, existing.attemptCount);
        }
        return;
      }
      jobs := jobs[id := existing.(status := Failed, completedAt := Some(now), nextRetryAt := None)];
      CreateEvents(id, if existing.retryable then [RetryExhausted, EvFailed] else [RetrySkipped, EvFailed]);
      ReleaseLock(id, existing.lockKey, at);
    }

    /** The configured base wait of a kind. */
    function BaseOf(kind: JobType): nat {
      match kind
      case BucketSync => config.syncBackoff
      case UploadCleanup => config.uploadBackoff
      case RetentionCleanup => config.retentionBackoff
      case _ => 0
    }

    method MarkCanceled(id: JobId, now: Time, at: Time)
      modifies this, redis
      ensures id !in old(jobs) ==> View() == old(View())
      ensures id in old(jobs) ==>
                View() == Finished(old(View()), id, CancelRow(old(jobs)[id], now), [EvCanceled], at)
      ensures id in old(jobs) ==>
                jobs == old(jobs)[id := old(jobs)[id].(status := Canceled, completedAt := Some(now), nextRetryAt := None,
                  cancelRequestedAt := if old(jobs)[id].cancelRequestedAt.None? then Some(now) else old(jobs)[id].cancelRequestedAt)]
      ensures id in old(jobs) ==> events == old(events)[id := old(View()).Logged(id) + [EvCanceled]]
      ensures id in old(jobs) ==> !HoldsLock(id, old(jobs)[id].lockKey)
    {
      if id !in jobs {
        return;
      }
      var existing := jobs[id];
      jobs := jobs[id := CancelRow(existing, now)];
      CreateEvents(id, [EvCanceled]);
      ReleaseLock(id, existing.lockKey, at);
    }

    /** `found` is false when the job does not exist: the call answers 404. */
    method RequestCancel(id: JobId, now: Time, at: Time) returns (found: bool)
      modifies this, redis
      ensures found <==> id in old(jobs)
      ensures !found ==> View() == old(View())
      ensures found && old(jobs)[id].status.Queued? ==>
                View() == Finished(old(View()), id, RequestCancelRow(old(jobs)[id], now), [CancelRequested, EvCanceled], at)
      ensures found && !old(jobs)[id].status.Queued? ==>
                View() == Append(old(View()).(jobs := old(jobs)[id := RequestCancelRow(old(jobs)[id], now)]), id, [CancelRequested])
      ensures found && old(jobs)[id].status.Queued? ==>
                jobs == old(jobs)[id := old(jobs)[id].(status := Canceled, cancelRequestedAt := Some(now),
                                                       completedAt := Some(now), nextRetryAt := None)]
      ensures found && !old(jobs)[id].status.Queued? ==>
                jobs == old(jobs)[id := old(jobs)[id].(cancelRequestedAt := Some(now))]
      ensures found ==>
                events == old(events)[id := old(View()).Logged(id)
                                            + if old(jobs)[id].status.Queued? then [CancelRequested, EvCanceled] else [CancelRequested]]
      ensures found && old(jobs)[id].status.Queued? ==> !HoldsLock(id, old(jobs)[id].lockKey)
    {
      if id !in jobs {
        return false;
      }
      var item := jobs[id];
      jobs := jobs[id := RequestCancelRow(item, now)];
      if item.status.Queued? {
        CreateEvents(id, [CancelRequested, EvCanceled]);
        ReleaseLock(id, jobs[id].lockKey, at);
      } else {
        CreateEvents(id, [CancelRequested]);
      }
      return true;
    }

    /**
     The candidate query: an oldest job that is QUEUED with no wait or one that is over, or RUNNING with a claim older
     than the TTL; none only if there is no such job.
     */
    method FindCandidate(k: ClaimClock) returns (found: Option<JobId>)
      ensures OldestCandidate(config, jobs, k, found)
      ensures found.None? ==> forall id :: id in jobs ==>
                && !(jobs[id].status.Queued? && jobs[id].nextRetryAt.None?)
                && !(jobs[id].status.Queued? && jobs[id].nextRetryAt.Some? && jobs[id].nextRetryAt.value <= k.now)
                && !(jobs[id].status.Running? && jobs[id].lockedAt.Some?
                     && jobs[id].lockedAt.value < k.staleFrom - config.ttlSeconds * 1000)
      ensures found.Some? ==>
                && found.value in jobs
                && var row := jobs[found.value];
                   || (row.status.Queued? && row.nextRetryAt.None?)
                   || (row.status.Queued? && row.nextRetryAt.Some? && row.nextRetryAt.value <= k.now)
                   || (row.status.Running? && row.lockedAt.Some? && row.lockedAt.value < k.staleFrom - config.ttlSeconds * 1000)
      ensures found.Some? ==> forall id :: id in jobs && jobs[id].createdAt < jobs[found.value].createdAt ==>
                && !(jobs[id].status.Queued? && jobs[id].nextRetryAt.None?)
                && !(jobs[id].status.Queued? && jobs[id].nextRetryAt.Some? && jobs[id].nextRetryAt.value <= k.now)
                && !(jobs[id].status.Running? && jobs[id].lockedAt.Some?
                     && jobs[id].lockedAt.value < k.staleFrom - config.ttlSeconds * 1000)
    {
      found := None;
      var todo := jobs.Keys;
      while todo != {}
        invariant todo <= jobs.Keys
        invariant found.Some? ==> Candidate(config, jobs, k, found.value) && found.value !in todo
        invariant forall id :: id in jobs && id !in todo && Candidate(config, jobs, k, id) ==>
                    found.Some? && jobs[found.value].createdAt <= jobs[id].createdAt
        decreases todo
      {
        var id :| id in todo;
        if Candidate(config, jobs, k, id) && (found.None? || jobs[id].createdAt < jobs[found.value].createdAt) {
          found := Some(id);
        }
        todo := todo - {id};
      }
      assert forall id :: id in jobs ==> (Candidate(config, jobs, k, id) <==> Claimable(jobs[id], k.now, k.staleFrom - config.Ttl()));
    }

    /**
     Claims the candidate exactly when its lock is free and its row, as others may have left it meanwhile, is still to
     be had. The row then counts one more attempt and names the new lock.
     */
    method ClaimNext(token: Token, k: ClaimClock, others: map<JobId, Job>) returns (candidate: Option<JobId>, claimed: bool)
      modifies this, redis
      ensures OldestCandidate(config, old(jobs), k, candidate)
      ensures candidate.None? ==> !claimed && View() == old(View())
      ensures candidate.Some? ==>
                (View(), claimed) == ClaimedTables(config, old(View()), others, candidate.value, token, k)
      ensures candidate.None? ==> forall id :: id in old(jobs) ==>
                && !(old(jobs)[id].status.Queued? && old(jobs)[id].nextRetryAt.None?)
                && !(old(jobs)[id].status.Queued? && old(jobs)[id].nextRetryAt.Some? && old(jobs)[id].nextRetryAt.value <= k.now)
                && !(old(jobs)[id].status.Running? && old(jobs)[id].lockedAt.Some?
                     && old(jobs)[id].lockedAt.value < k.staleFrom - config.ttlSeconds * 1000)
      ensures candidate.Some? ==>
                && candidate.value in old(jobs)
                && var met := (old(jobs) + others)[candidate.value];
                   claimed <==>
                     && !(old(redis.LiveLock(JobLock(candidate.value), Max(k.lockFirst, k.lockNow))))
                     && (|| (met.status.Queued? && met.nextRetryAt.None?)
                         || (met.status.Queued? && met.nextRetryAt.Some? && met.nextRetryAt.value <= k.now)
                         || (met.status.Running? && met.lockedAt.Some? && met.lockedAt.value < k.staleFrom - config.ttlSeconds * 1000))
      ensures claimed ==>
                && candidate.Some? && candidate.value in old(jobs)
                && var id, seen, met := candidate.value, old(jobs)[candidate.value], (old(jobs) + others)[candidate.value];
                   && jobs == (old(jobs) + others)[id := met.(status := Running, lockedAt := Some(k.now), lockKey := Some(token),
                        nextRetryAt := None, attemptCount := met.attemptCount + 1,
                        startedAt := if seen.startedAt.None? then Some(k.now) else seen.startedAt)]
                   && events == old(events)[id := old(View()).Logged(id) + [Claimed]
                        + (if seen.status.Running? then [Reclaimed] else [])
                        + (if met.attemptCount >= 1 then [RetryStarted] else []) + [Started]]
    {
      candidate := FindCandidate(k);
      if candidate.None? {
        return candidate, false;
      }
      var id := candidate.value;
      var snapshot := jobs[id];
      var ok := redis.AcquireLock(JobLock(id), token, config.ttlSeconds, k.lockFirst, k.lockNow);
      if !ok {
        return candidate, false;
      }
      jobs := jobs + others;
      if !Candidate(config, jobs, k, id) {
        ReleaseLock(id, Some(token), k.undoAt);
        return candidate, false;
      }
      jobs := jobs[id := ClaimRow(jobs[id], snapshot.startedAt, k.now, token)];
      ghost var before := View().Logged(id);
      CreateEvents(id, ClaimEvents(jobs[id], snapshot.status.Running?));
      assert before + ClaimEvents(jobs[id], snapshot.status.Running?)
             == before + [Claimed] + (if snapshot.status.Running? then [Reclaimed] else [])
                + (if jobs[id].attemptCount > 1 then [RetryStarted] else []) + [Started];
      return candidate, true;
    }
  }
}

/** The finishing calls of the service object are the protocol's actions, taken without interleaving. */
module JobsServiceRefinement {
  import opened Base
  import opened Jobs
  import opened Redis
  import opened JobQueue
  import Service = JobsServiceObject

  /** The protocol's lease table and the Redis memory agree on every lease that is still alive. */
  ghost predicate SameLeases(s: State, memory: Memory<RedisKey>) {
    forall id: JobId ::
      && (id in s.locks && s.locks[id].expiresAt > s.clock <==>
            JobLock(id) in memory.locks && memory.locks[JobLock(id)].expiresAt > s.clock)
      && (id in s.locks && s.locks[id].expiresAt > s.clock ==>
            memory.locks[JobLock(id)] == LockState(s.locks[id].token, s.locks[id].expiresAt))
  }

  /** The protocol state shows these tables. */
  ghost predicate Shows(s: State, tb: Service.Tables) {
    s.jobs == tb.jobs && s.log == tb.log && SameLeases(s, tb.memory)
  }

  /** The state after an actor has written all the events of its tail. */
  ghost function Drained(s: State, w: Actor): (t: State)
    requires s.At(w).Tail?
    ensures t.At(w) == Tail(s.At(w).id, [], s.At(w).release)
    decreases |s.At(w).pending|
  {
    if s.At(w).pending == [] then s else Drained(ApplyEmit(s, w), w)
  }

  lemma EmitWrites(s: State, w: Actor)
    requires s.At(w).Tail? && s.At(w).pending != []
    ensures
      var e, pc := ApplyEmit(s, w), s.At(w);
      && e.At(w) == Tail(pc.id, pc.pending[1..], pc.release)
      && e.jobs == s.jobs && e.locks == s.locks && e.clock == s.clock
      && e.log == s.log[pc.id := s.Logged(pc.id) + [pc.pending[0]]]
  {
  }

  /** Logging the first event and then the rest is logging them all. */
  lemma LogsInTwo(log: map<JobId, seq<Event>>, id: JobId, before: seq<Event>, events: seq<Event>)
    requires events != []
    ensures log[id := before + [events[0]]][id := before + [events[0]] + events[1..]] == log[id := before + events]
    ensures events[1..] == [] ==> log[id := before + [events[0]]] == log[id := before + events]
  {
    assert events == [events[0]] + events[1..];
    assert before + [events[0]] + events[1..] == before + events;
    if events[1..] == [] {
      assert events == [events[0]];
    }
  }

  lemma {:induction false} DrainWritesAll(s: State, w: Actor)
    requires s.At(w).Tail?
    ensures
      var t, pc := Drained(s, w), s.At(w);
      && t.jobs == s.jobs && t.locks == s.locks && t.clock == s.clock
      && (pc.pending == [] ==> t == s)
      && (pc.pending != [] ==> t.log == s.log[pc.id := s.Logged(pc.id) + pc.pending])
    decreases |s.At(w).pending|
  {
    var pc := s.At(w);
    if pc.pending == [] {
    } else {
      var e := ApplyEmit(s, w);
      EmitWrites(s, w);
      DrainWritesAll(e, w);
      LogsInTwo(s.log, pc.id, s.Logged(pc.id), pc.pending);
      assert e.Logged(pc.id) == s.Logged(pc.id) + [pc.pending[0]];
    }
  }

  lemma ReleaseShows(s: State, tb: Service.Tables, id: JobId, lockKey: Option<Token>)
    requires Shows(s, tb)
    ensures Shows(s.Release(id, lockKey), Service.ReleaseJobLock(tb, id, lockKey, s.clock))
  {
  }

  /** One finishing call, run to its end without interleaving. */
  ghost function RunToEnd(c: Config, s: State, a: Action): State
    requires (a.Complete? || a.Fail? || a.Cancel?) && Enabled(c, s, a)
  {
    var t := Drained(Apply(c, s, a), a.w);
    t.Release(t.At(a.w).id, t.At(a.w).release).Goto(a.w, Idle)
  }

  /**
   Run without interleaving, `Complete`, `Fail` and `Cancel` with their event and release actions leave
   exactly the tables that the service's `MarkCompleted`, `MarkFailed` and `MarkCanceled` leave.
   */
  lemma UninterruptedFinish(c: Config, s: State, tb: Service.Tables, a: Action)
    requires (a.Complete? || a.Fail? || a.Cancel?) && Enabled(c, s, a) && Shows(s, tb)
    ensures
      var id := s.At(a.w).id;
      var row := tb.jobs[id];
      Shows(RunToEnd(c, s, a),
        match a
        case Complete(_) => Service.Finished(tb, id, CompleteRow(row, s.clock), [EvCompleted], s.clock)
        case Fail(_) => Service.Finished(tb, id, FailRow(c, row, s.clock), FailEvents(row), s.clock)
        case _ => Service.Finished(tb, id, CancelRow(row, s.clock), [EvCanceled], s.clock))
  {
    var id := s.At(a.w).id;
    var row := s.jobs[id];
    var (updated, events) := match a
      case Complete(_) => (CompleteRow(row, s.clock), [EvCompleted])
      case Fail(_) => (FailRow(c, row, s.clock), FailEvents(row))
      case _ => (CancelRow(row, s.clock), [EvCanceled]);
    FinishShows(c, s, tb, a.w, updated, events);
  }

  lemma FinishShows(c: Config, s: State, tb: Service.Tables, w: Actor, updated: Job, events: seq<Event>)
    requires s.At(w).Owns() && s.At(w).id in s.jobs && Shows(s, tb) && events != []
    ensures
      var id := s.At(w).id;
      var t := Drained(Finish(s, w, updated, events), w);
      Shows(t.Release(t.At(w).id, t.At(w).release).Goto(w, Idle), Service.Finished(tb, id, updated, events, s.clock))
  {
    var id := s.At(w).id;
    var f := Finish(s, w, updated, events);
    DrainWritesAll(f, w);
    var t := Drained(f, w);
    var after := Service.Append(tb.(jobs := tb.jobs[id := updated]), id, events);
    assert Shows(t, after);
    ReleaseShows(t, after, id, s.jobs[id].lockKey);
  }

  /** Taking the lock keeps the lease table and the memory in step. */
  lemma AcquireShows(c: Config, s: State, tb: Service.Tables, w: Actor)
    requires s.At(w).Picked? && Shows(s, tb)
    ensures
      var t := ApplyAcquire(c, s, w);
      var (memory, ok) := Acquired(tb.memory, JobLock(s.At(w).id), s.nextToken, c.ttlSeconds, s.clock, s.clock);
      && Shows(t, tb.(memory := memory))
      && (ok <==> t.At(w).Locked?)
  {
  }

  /** The claim's update on the rows and its events. */
  lemma UpdateShows(c: Config, s: State, tb: Service.Tables, w: Actor)
    requires s.At(w).Locked? && Shows(s, tb)
    requires s.At(w).id in s.jobs && Claimable(s.jobs[s.At(w).id], s.At(w).now, s.At(w).staleFrom - c.Ttl())
    ensures
      var pc, u := s.At(w), ApplyClaim(c, s, w);
      var row := ClaimRow(s.jobs[pc.id], pc.startedAt, pc.now, pc.token);
      && u.At(w) == Starting(pc.id, pc.token, pc.now, ClaimEvents(row, pc.wasRunning))
      && u.jobs == tb.jobs[pc.id := row] && u.log == tb.log && SameLeases(u, tb.memory)
  {
  }

  /**
   A claim that nothing interleaves: the protocol's lock and update actions leave the rows and leases that the
   service's `ClaimNext` leaves, and the events it writes are the ones the protocol has yet to write.
   */
  lemma UninterruptedClaim(c: Config, s: State, tb: Service.Tables, w: Actor)
    requires s.At(w).Picked? && Shows(s, tb)
    requires
      var pc := s.At(w);
      && pc.id in s.jobs && Claimable(s.jobs[pc.id], pc.now, pc.staleFrom - c.Ttl())
      && pc.startedAt == s.jobs[pc.id].startedAt && pc.wasRunning == s.jobs[pc.id].status.Running?
    ensures
      var pc := s.At(w);
      var k := Service.ClaimClock(pc.staleFrom, pc.now, s.clock, s.clock, s.clock);
      var (after, ok) := Service.ClaimedTables(c, tb, map[], pc.id, s.nextToken, k);
      var t := ApplyAcquire(c, s, w);
      && (ok <==> t.At(w).Locked?)
      && (!ok ==> Shows(t, after))
      && (ok ==>
            var u := ApplyClaim(c, t, w);
            && u.At(w).Starting? && u.jobs == after.jobs && SameLeases(u, after.memory)
            && after.log == u.log[pc.id := u.Logged(pc.id) + u.At(w).pending])
  {
    AcquireShows(c, s, tb, w);
    var pc := s.At(w);
    var k := Service.ClaimClock(pc.staleFrom, pc.now, s.clock, s.clock, s.clock);
    ClaimedAlone(c, tb, pc.id, s.nextToken, k);
    var t := ApplyAcquire(c, s, w);
    if t.At(w).Locked? {
      var memory := Acquired(tb.memory, JobLock(pc.id), s.nextToken, c.ttlSeconds, s.clock, s.clock).0;
      AcquiredPc(c, s, w);
      UpdateShows(c, t, tb.(memory := memory), w);
    }
  }

  /** The service's claim when nobody else writes in between. */
  lemma ClaimedAlone(c: Config, tb: Service.Tables, id: JobId, token: Token, k: Service.ClaimClock)
    requires Service.Candidate(c, tb.jobs, k, id)
    ensures
      var (memory, ok) := Acquired(tb.memory, JobLock(id), token, c.ttlSeconds, k.lockFirst, k.lockNow);
      var row := ClaimRow(tb.jobs[id], tb.jobs[id].startedAt, k.now, token);
      Service.ClaimedTables(c, tb, map[], id, token, k) ==
        if ok then
          (Service.Append(tb.(memory := memory, jobs := tb.jobs[id := row]), id, ClaimEvents(row, tb.jobs[id].status.Running?)), true)
        else (tb.(memory := memory), false)
  {
    assert tb.jobs + map[] == tb.jobs;
  }

  lemma AcquiredPc(c: Config, s: State, w: Actor)
    requires s.At(w).Picked? && ApplyAcquire(c, s, w).At(w).Locked?
    ensures
      var pc, t := s.At(w), ApplyAcquire(c, s, w);
      t.At(w) == Locked(pc.id, pc.staleFrom, pc.now, pc.startedAt, pc.wasRunning, s.nextToken) && t.jobs == s.jobs && t.log == s.log
  {
  }
}
