/**
 Job rows, the retry policy, and the row updates that the job service performs.
 Every update here is one SQL statement of the service, so one atomic step.
 */
module Jobs {
  import opened Base

  datatype JobType = FolderRename | FolderDelete | BucketSync | UploadCleanup | RetentionCleanup

  datatype Status = Queued | Running | Completed | Failed | Canceled

  predicate Terminal(s: Status) {
    s.Completed? || s.Failed? || s.Canceled?
  }

  /** Lock values are UUID-based in the service; here they are serial numbers. */
  type Token = nat
  type JobId = nat

  datatype Job = Job(
    kind: JobType,
    status: Status,
    retryable: bool,
    attemptCount: nat,
    maxAttempts: nat,
    createdAt: Time,
    startedAt: Option<Time>,
    completedAt: Option<Time>,
    cancelRequestedAt: Option<Time>,
    nextRetryAt: Option<Time>,
    lockKey: Option<Token>,
    lockedAt: Option<Time>)

  /** The kinds of job event that the queue itself writes; everything else is `Note`. */
  datatype Event =
    | Created | Claimed | Reclaimed | RetryStarted | Started
    | CancelRequested | CancelObserved
    | RetryScheduled | RetryExhausted | RetrySkipped
    | EvCompleted | EvFailed | EvCanceled
    | Note

  predicate TerminalEvent(e: Event) {
    e.EvCompleted? || e.EvFailed? || e.EvCanceled?
  }

  // ---------------------------------------------------------------- retry policy

  datatype Config = Config(
    ttlSeconds: nat,
    syncAttempts: nat, syncBackoff: nat,
    uploadAttempts: nat, uploadBackoff: nat,
    retentionAttempts: nat, retentionBackoff: nat,
    backoffCap: nat)
  {
    /** The lower bounds that the environment schema enforces (apps/api/src/common/env.ts). */
    ghost predicate Valid() {
      && ttlSeconds >= 5
      && syncAttempts >= 1 && uploadAttempts >= 1 && retentionAttempts >= 1
      && syncBackoff >= 1 && uploadBackoff >= 1 && retentionBackoff >= 1
      && backoffCap >= 5
    }

    function Ttl(): nat {
      ttlSeconds * 1000
    }
  }

  datatype Policy = Policy(retryable: bool, maxAttempts: nat, baseBackoff: nat)

  function RetryPolicy(c: Config, kind: JobType): Policy {
    match kind
    case BucketSync => Policy(true, c.syncAttempts, c.syncBackoff)
    case UploadCleanup => Policy(true, c.uploadAttempts, c.uploadBackoff)
    case RetentionCleanup => Policy(true, c.retentionAttempts, c.retentionBackoff)
    case _ => Policy(false, 1, 0)
  }

  function BackoffSeconds(c: Config, kind: JobType, attemptCount: nat): nat {
    var base := RetryPolicy(c, kind).baseBackoff;
    var exponent := Max(attemptCount - 1, 0);
    var raw := base * Pow2(exponent);
    Min(Max(raw, base), c.backoffCap)
  }

  /** Failing later never waits less, and no failure ever waits longer than the cap. */
  lemma BackoffMonotoneAndCapped(c: Config, kind: JobType, m: nat, n: nat)
    requires m <= n
    ensures BackoffSeconds(c, kind, m) <= BackoffSeconds(c, kind, n) <= c.backoffCap
  {
    var base := RetryPolicy(c, kind).baseBackoff;
    var i, j := Max(m - 1, 0), Max(n - 1, 0);
    Pow2Monotone(i, j);
    MulMono(Pow2(i), Pow2(j), base);
  }

  /** The wait before the k-th retry is `min(base * 2^(k-1), cap)`. */
  lemma BackoffIsCappedDoubling(c: Config, kind: JobType, k: nat)
    requires k >= 1
    ensures BackoffSeconds(c, kind, k) == Min(RetryPolicy(c, kind).baseBackoff * Pow2(k - 1), c.backoffCap)
  {
    var base := RetryPolicy(c, kind).baseBackoff;
    Pow2Monotone(0, k - 1);
    MulMono(1, Pow2(k - 1), base);
  }

  // ---------------------------------------------------------------- row updates

  function NewJob(c: Config, kind: JobType, now: Time): Job {
    var p := RetryPolicy(c, kind);
    Job(kind, Queued, p.retryable, 0, p.maxAttempts, now, None, None, None, None, None, None)
  }

  /** The `where` clause shared by candidate selection and the conditional claim update. */
  predicate Claimable(job: Job, now: Time, staleBefore: Time) {
    || (job.status.Queued? && (job.nextRetryAt.None? || job.nextRetryAt.value <= now))
    || (job.status.Running? && job.lockedAt.Some? && job.lockedAt.value < staleBefore)
  }

  function ClaimRow(job: Job, startedAt: Option<Time>, now: Time, token: Token): Job {
    job.(status := Running,
         startedAt := if startedAt.Some? then startedAt else Some(now),
         lockedAt := Some(now), lockKey := Some(token), nextRetryAt := None,
         attemptCount := job.attemptCount + 1)
  }

  /** Events written between the claim update and the start of execution. */
  function ClaimEvents(claimed: Job, reclaimedStaleRun: bool): seq<Event> {
    [Claimed]
    + (if reclaimedStaleRun then [Reclaimed] else [])
    + (if claimed.attemptCount > 1 then [RetryStarted] else [])
    + [Started]
  }

  function CompleteRow(job: Job, now: Time): Job {
    job.(status := Completed, completedAt := Some(now), nextRetryAt := None)
  }

  predicate ShouldRetry(job: Job) {
    job.retryable && job.attemptCount < job.maxAttempts
  }

  function RetryDelay(c: Config, job: Job): nat {
    BackoffSeconds(c, job.kind, job.attemptCount) * 1000
  }

  function FailRow(c: Config, job: Job, now: Time): Job {
    if ShouldRetry(job) then
      job.(status := Queued, completedAt := None, lockKey := None, lockedAt := None,
           nextRetryAt := Some(now + RetryDelay(c, job)))
    else
      job.(status := Failed, completedAt := Some(now), nextRetryAt := None)
  }

  function FailEvents(job: Job): seq<Event> {
    if ShouldRetry(job) then [RetryScheduled]
    else if job.retryable then [RetryExhausted, EvFailed]
    else [RetrySkipped, EvFailed]
  }

  function CancelRow(job: Job, now: Time): Job {
    job.(status := Canceled, completedAt := Some(now), nextRetryAt := None,
         cancelRequestedAt := if job.cancelRequestedAt.Some? then job.cancelRequestedAt else Some(now))
  }

  function RequestCancelRow(job: Job, now: Time): Job {
    if job.status.Queued? then
      job.(status := Canceled, cancelRequestedAt := Some(now), completedAt := Some(now), nextRetryAt := None)
    else
      job.(cancelRequestedAt := Some(now))
  }

  function RequestCancelEvents(job: Job): seq<Event> {
    if job.status.Queued? then [CancelRequested, EvCanceled] else [CancelRequested]
  }
}
