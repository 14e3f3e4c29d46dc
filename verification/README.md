# S3Gator: a verified model of the job queue, the bulk operations and the retention tier

S3Gator is a storage manager in front of an S3-compatible store. Several worker and scheduler processes share a
database and a lock service, move and delete folders object by object, resume multipart uploads, prune and archive
their own history, and throttle logins. This project models those parts in Dafny and proves what they keep over whole
runs, under any interleaving, failing calls and crashes.

## How the model is laid out

| file | what it models |
|---|---|
| `Base`, `Redis` | clocks, keys; the process-local counters and locks, and the TTL map they refine |
| `Jobs` | job rows, retry policy, the row updates of the job service |
| `JobQueue`, `JobSafety`, `JobTimeline`, `JobAccounting`, `JobSpacing` | the queue as a transition system (clock, rows, event logs, leases, one program counter per actor) and its theorems over runs |
| `JobHypotheses` | concrete runs that show which hypotheses are needed, and exact conditions for the claims that fail without them |
| `JobsService` | the job service as an object, and its refinement of the transition system |
| `SchedulerTasks`, `SchedulerQueue`, `SchedulerSpacing` | the maintenance scheduler as an object, and as a transition system composed with the queue |
| `SchedulerHypotheses`, `SchedulerProgress` | when its releases are harmless, and a run in which they are not; a waiting task gets enqueued |
| `Paths`, `FolderRename`, `RenameReport`, `RenameRestart` | key normalisation; folder rename under any schedule and any failing call; what it reports; crash and restart |
| `RenameService`, `PagedListing`, `RenameCall` | bucket and mapper turns as objects; listing and deleting page by page; one whole rename call |
| `Retention`, `RetentionRules`, `RetentionService` | the clean-up passes on three tables and two archives, row by row; one whole clean-up as rules; the batched loops that perform them |
| `Pool`, `Multipart`, `PartRecords`, `Upload` | the shared-cursor worker pool, part arithmetic, the stored part list, and a resumed upload run over the pool |
| `Limiter` | the login limiter with concurrent logins, and the login flow as an object |

Functions and lemmas state the behaviour; every class method is proved to leave exactly the state that the matching
function gives for the old state, so the theorems about functions and runs are theorems about the methods. The main
methods also say in their contracts, field by field and without that function, what they do; and the bounds have their
other halves as laws over runs: a due job is seen, a rested task is due, attempts left mean another attempt, an unlisted
key has moved.

## Hypotheses

* **H1** An actor that owns an attempt acts only while the clock is within one lock TTL of the `now` its claim captured,
  or never again. Nothing in the code enforces this, because locks are not renewed. Lemmas that need it take runs with
  `h1 == true`; those that do not say so with a parameter `h1: bool`.
* **H2** `requestCancel` and each `mark*` read-then-write is one step.
* **H3** Database and lock calls inside a finishing call do not throw; a crash may cut it anywhere.
* **H4** The clock never runs backwards, and a lock value is not one that another process is using. The queue's lock
  values are random. The scheduler's are a process id and a millisecond, so its runs carry H4 as a flag, and
  `SchedulerHypotheses` says what holds without it.
* **H5** A scheduler's critical section acts only before its lock expires, and maintenance jobs are enqueued only by the
  scheduler.

## What the proofs found

* Without H1, a worker that outlives its lock overwrites a terminal status and writes a second terminal event
  (`AbsorptionNeedsH1`). Terminal statuses are absorbing in a run exactly when no finishing call meets a terminal row that
  says something else (`AbsorbingIff`); checking the lock value in the finishing update would be enough (`GuardSuffices`).
* `attemptCount` can exceed `maxAttempts`, since a stale reclaim does not look at it. It stays within the limit exactly
  when every claim finds attempts left (`AttemptsBoundedIff`).
* The top-level README says that folder jobs are non-retryable to avoid duplicate destructive execution. They never return
  to QUEUED, but a stale reclaim does execute them again. For a rename that is harmless exactly when neither prefix lies
  under the other (`RestartSafeIff`).
* A rename can lose content exactly when a destination is itself a listed key (`LossFreeIffDisjoint`).
* A key of slashes only normalises to the empty key, whose folder prefix is the whole bucket
  (`NormalizeKeyIsCanonical`, `RenameNormalisesOnce`). `normalizePrefix` starts with a slash exactly for such input.
* The bulk delete asks for quiet replies and counts what the reply names, so its count is the number of keys removed only
  if none was removed (`DeleteFolderByPrefix`); what it leaves behind is nevertheless always listed as failed.
* A scheduler tick locks with its process id and the millisecond. Instances in separate containers can share both; then the
  loser's `finally` frees the winner's lock and two jobs of one kind can become active (`SharedPidBreaksUniqueness`).
* An event is lost to the archive if its job goes first. That can happen to an event exactly when it is younger than its
  job's end by more than `terminalJobDays - jobEventsDays` days, and for a failed job as soon as it is younger at all
  (`CascadesSometimeIff`). The finishing calls write the terminal event after taking `completedAt`, so with the default
  windows (30 and 30 days) it is exposed for as long as the two are apart, and a failed job's own `failed` event is exposed
  under every policy (`FailureEventIsExposed`). Two clean-ups leave the archive of the later one exactly when no event that
  the later one would keep is lost to the earlier one (`ArchivesAbsorbIff`).
* Two concurrent `recordMultipartPart` calls lose one part exactly when they record different parts and the overwritten one
  was not stored before (`ConcurrentRecordsAgreeIff`).
* An upload session is found again by size and part size, not by content; the object assembled is the file exactly when
  the recovered parts hold this file's chunks (`ResumeAssemblesFileIff`).
* With k logins in flight the failure count can reach, and never exceeds, `maxAttempts + k - 1`.

## Model

| member | source | states |
|---|---|---|
| `Jobs.BackoffMonotoneAndCapped` | apps/api/src/jobs/jobs.service.ts:828-834 | the backoff never falls as attempts grow and never exceeds the cap, for every attempt count and configuration |
| `Jobs.BackoffIsCappedDoubling` | apps/api/src/jobs/jobs.service.ts:796-834 | the k-th wait is the base doubled k-1 times, or the cap |
| `JobSafety.Reachable` | apps/api/src/jobs/jobs.service.ts:288-670 | in every reachable state rows follow their retry policy, a QUEUED row has no lock and has attempts left, a RUNNING row names its lock, lock values of actors are distinct; under H1 each live attempt is the one its row records |
| `JobSafety.ClaimSparesLiveAttempt` | apps/api/src/jobs/jobs.service.ts:389-415 | the conditional update refuses a job whose recorded attempt is still within its deadline |
| `JobSafety.MutualExclusion` | apps/api/src/jobs/jobs.service.ts:354-425 | no reachable state has two live attempts at one job, and a live attempt finds its row RUNNING with its own lock value and claim time |
| `JobSafety.TerminalIsAbsorbing` | apps/api/src/jobs/jobs.service.ts:502-670 | under H1, COMPLETED, FAILED and CANCELED never change again, in any run |
| `JobSafety.FinishReleasesOwnLease` | apps/api/src/jobs/jobs.service.ts:871-877 | under H1, a finishing call releases the lock value its own attempt drew |
| `JobTimeline.SingleTerminalEvent` | apps/api/src/jobs/jobs.service.ts:502-670 | a job's log never holds two terminal events, none while not terminal, the one it holds agrees with the status, and it holds exactly one once nobody still has events to write and no crash cut the writer |
| `JobAccounting.AttemptsAreClaims` | apps/api/src/jobs/jobs.service.ts:389-415 | in every run, attemptCount = claims from QUEUED + reclaims, claims from QUEUED are at most maxAttempts, and a QUEUED job has attempts left |
| `JobAccounting.FailRequeuesIff` | apps/api/src/jobs/jobs.service.ts:545-592 | a failing finish queues the job again if and only if it is retryable and has used fewer attempts than it may |
| `JobAccounting.FailedHasUsedAttempts` | apps/api/src/jobs/jobs.service.ts:537-595 | in every run, H1 or not, a FAILED sync or clean-up job has used all the attempts configured for its kind |
| `JobAccounting.ClaimsBalanceFinishes` | apps/api/src/jobs/jobs.service.ts:502-670 | under H1, claims from QUEUED equal finishes plus one if the job is running |
| `JobAccounting.ExecutionsAreConserved` | apps/api/src/jobs/jobs.service.ts:389-415 | in every run, H1 or not, executions of a job = finishes + crashes of actors in the middle of an attempt at it + actors still holding one |
| `JobAccounting.ExecutionsBound` | apps/api/src/jobs/jobs.service.ts:389-415 | under H1, executions of a job are at most maxAttempts plus those crashes plus the actors still holding an attempt |
| `JobAccounting.TotalExecutionsBound` | apps/api/src/jobs/jobs.service.ts:389-415 | over any list of different jobs, a run starts at most the sum of maxAttempts plus the crashes of attempt holders plus the holders left |
| `JobAccounting.MeasureDecreases` | apps/api/src/jobs/jobs.service.ts:537-595 | a lexicographic measure (reclaim budget, claims left, running flag) that every claim and finish lowers and nothing else changes |
| `JobAccounting.MeasureIsBounded` | apps/api/src/jobs/jobs.service.ts:389-415 | no entry of the measure is negative while the reclaim budget lasts |
| `JobAccounting.FolderJobsNeverRequeue` | apps/api/src/jobs/jobs.service.ts:796-826 | in every run, H1 or not, a folder job that left QUEUED never returns to it and is claimed afresh at most once |
| `JobAccounting.NoWorkAfterCancelRequest` | apps/api/src/jobs/jobs.worker.service.ts:180-195 | an attempt that starts after a cancel request cancels instead of running the job body |
| `JobAccounting.CanceledWasRequested` | apps/api/src/jobs/jobs.service.ts:637-652 | in every run, a CANCELED job carries a cancel request time |
| `JobSpacing.ReclaimsAreSpaced` | apps/api/src/jobs/jobs.service.ts:354-372 | in every run, two claims with no requeue between them are more than the lock TTL apart |
| `JobSpacing.RetryWaitsBackoff` | apps/api/src/jobs/jobs.service.ts:547-562 | every claim after a failure that scheduled a retry captured its clock at least the backoff after that failure |
| `JobSpacing.KthRetryWaits` | apps/api/src/jobs/jobs.service.ts:547-562 | every claim after the k-th scheduled retry captured its clock at least min(base * 2^(k-1), cap) seconds after that failure |
| `JobSpacing.ScanSeesDueJobs` | apps/api/src/jobs/jobs.service.ts:358-376 | a scan finds nothing only if no QUEUED row is due and no RUNNING row is stale, picks only such a row, and can pick it if it is the oldest row |
| `JobSpacing.RetryBecomesDue` | apps/api/src/jobs/jobs.service.ts:358-376 | while a failed job stays QUEUED, a scan whose clock has reached the end of its wait cannot find the queue empty, and one whose clock has not cannot pick it |
| `JobSpacing.SpentUncapped` | apps/api/src/jobs/jobs.service.ts:828-834 | while the cap is not reached, k retries cost base * (2^k - 1) seconds |
| `JobSpacing.RetriesTakeTheirTime` | apps/api/src/jobs/jobs.service.ts:547-562 | a claim after k > 0 scheduled retries captured its clock at least the sum of their delays after the enqueue; a first claim is at least made after it |
| `JobHypotheses.AttemptsCanExceedMax` | apps/api/src/jobs/jobs.service.ts:397-413 | a run, within H1, in which a reclaim takes attemptCount past maxAttempts |
| `JobHypotheses.AttemptsBoundedIff` | apps/api/src/jobs/jobs.service.ts:389-415 | attemptCount stays within maxAttempts throughout a run if and only if every successful claim finds attempts left |
| `JobHypotheses.AbsorptionNeedsH1` | apps/api/src/jobs/jobs.service.ts:583-592 | a run without H1 in which a COMPLETED job becomes FAILED and its log holds two terminal events |
| `JobHypotheses.StepKeepsTerminalsIff` | apps/api/src/jobs/jobs.service.ts:502-670 | a step changes no terminal status if and only if it is not a finish of a terminal row that says something else |
| `JobHypotheses.AbsorbingIff` | apps/api/src/jobs/jobs.service.ts:502-670 | terminal statuses are absorbing in a run if and only if none of its finishes does that |
| `JobHypotheses.H1ImpliesOwnRow` | apps/api/src/jobs/jobs.service.ts:502-670 | under H1 every finish finds its own row RUNNING with its own lock value |
| `JobHypotheses.GuardSuffices` | apps/api/src/jobs/jobs.service.ts:502-670 | with that guard in the finishing calls, terminal statuses are absorbing without H1 |
| `JobsServiceObject.JobsService.Enqueue` | apps/api/src/jobs/jobs.service.ts:697-730 | adds the QUEUED row of the kind, with the attempts configured for that kind, and its created event |
| `JobsServiceObject.JobsService.ReleaseLock` | apps/api/src/jobs/jobs.service.ts:871-877 | releases the job's lock only under the row's value, and does nothing without one |
| `JobsServiceObject.JobsService.MarkCompleted` | apps/api/src/jobs/jobs.service.ts:502-535 | row, events and lock field by field; nothing for a missing job |
| `JobsServiceObject.JobsService.MarkFailed` | apps/api/src/jobs/jobs.service.ts:537-635 | QUEUED again if and only if retryable with attempts left, due after min(base * 2^(attempts-1), cap) seconds, else FAILED; the events of either branch; the lock the row named before is released |
| `JobsServiceObject.JobsService.MarkCanceled` | apps/api/src/jobs/jobs.service.ts:637-670 | the whole new state of a cancellation, keeping an earlier request time |
| `JobsServiceObject.JobsService.RequestCancel` | apps/api/src/jobs/jobs.service.ts:288-352 | a QUEUED job is canceled at once with two events, any other job only gets the request time and one event, a missing job is not found |
| `JobsServiceObject.JobsService.FindCandidate` | apps/api/src/jobs/jobs.service.ts:358-376 | finds an oldest row among those QUEUED with no or a past nextRetryAt and those RUNNING whose lockedAt is more than the TTL back; finds none only if there is none |
| `JobsServiceObject.JobsService.ClaimNext` | apps/api/src/jobs/jobs.service.ts:354-478 | claims the candidate if and only if its lock is free and it is still due or stale after what others wrote meanwhile; the claimed row, its events, and the lock given back by a refused update |
| `JobsServiceRefinement.UninterruptedFinish` | apps/api/src/jobs/jobs.service.ts:502-670 | the finishing methods leave what the protocol's finish, event and release actions leave when nothing interleaves |
| `JobsServiceRefinement.UninterruptedClaim` | apps/api/src/jobs/jobs.service.ts:378-415 | the same for the claim's lock and update actions |
| `Redis.MemoryRedis.CleanupMemory` | apps/api/src/redis/redis.service.ts:170-184 | the two deleting loops leave exactly the live entries |
| `Redis.MemoryRedis.IncrementWithWindow` | apps/api/src/redis/redis.service.ts:72-88 | counts on in a live window with its end unmoved, otherwise starts one at 1 |
| `Redis.MemoryRedis.Get` | apps/api/src/redis/redis.service.ts:98-108 | reads a counter before a lock, after cleaning |
| `Redis.MemoryRedis.AcquireLock` | apps/api/src/redis/redis.service.ts:123-137 | takes the lock exactly when nobody holds it live |
| `Redis.MemoryRedis.ReleaseLock` | apps/api/src/redis/redis.service.ts:143-153 | frees the lock only for its own value |
| `Redis.StepAgrees` | apps/api/src/redis/redis.service.ts:72-184 | one call on the cleaned-up maps and on one TTL map gives the same reply and keeps them in agreement |
| `Redis.CleanupIsUnobservable` | apps/api/src/redis/redis.service.ts:72-184 | over every sequence of calls and a clock that never runs backwards, the replies are those of a TTL map that never cleans up |
| `Redis.OneLiveHolder` | apps/api/src/redis/redis.service.ts:123-153 | between two successful acquires of a key lies a delete, a release with the holder's value, or the whole TTL |
| `Redis.RefusedMeansHeld` | apps/api/src/redis/redis.service.ts:123-153 | an acquire is refused only if an earlier one succeeded whose TTL is not over and whose lock was neither deleted nor released with its value since |
| `Redis.FixedWindow` | apps/api/src/redis/redis.service.ts:72-88 | over every ordered call sequence: each count within a window answers how many counts it has seen, the first one after its end answers 1 |
| `SchedulerTasks.StoredIsFold` | apps/api/src/jobs/maintenance-scheduler.service.ts:612-652 | for every history of writes the stored row is the last write with the times of the last queued and last failed run |
| `SchedulerTasks.MaintenanceScheduler.WriteTaskState` | apps/api/src/jobs/maintenance-scheduler.service.ts:612-652 | overwrites one task's row, keeping its last success and failure times |
| `SchedulerTasks.MaintenanceScheduler.FindActive` | apps/api/src/jobs/maintenance-scheduler.service.ts:361-369 | finds a QUEUED or RUNNING job of the kind if there is one |
| `SchedulerTasks.MaintenanceScheduler.ExecuteTask` | apps/api/src/jobs/maintenance-scheduler.service.ts:304-458 | enqueues exactly when enabled, an actor exists and no job of the kind is QUEUED or RUNNING; writes the state of each branch, also when the event or the audit record fails after the row; keeps at most one active job of every kind |
| `SchedulerTasks.MaintenanceScheduler.RunIsRecorded` | apps/api/src/jobs/maintenance-scheduler.service.ts:304-458 | the stored row after a run, field by field, from the configured switch and interval and from how the run went; other tasks' rows are kept |
| `SchedulerTasks.MaintenanceScheduler.ExecuteTaskIfDue` | apps/api/src/jobs/maintenance-scheduler.service.ts:263-302 | a task on schedule with no stored next run in the future is executed, one with such a next run changes nothing, and a schedule that is off is recorded once |
| `SchedulerQueue.AtMostOneMaintenanceJob` | apps/api/src/jobs/maintenance-scheduler.service.ts:224-261 | over all instances, manual triggers and workers, at most one job of a maintenance kind is QUEUED or RUNNING, and at most one process is in the critical section |
| `SchedulerQueue.ReleaseFreesOnlyOwn` | apps/api/src/jobs/maintenance-scheduler.service.ts:257-260 | the unconditional release in `finally` never frees the lock of a process inside its section |
| `SchedulerHypotheses.ReleasesAreHarmlessIff` | apps/api/src/jobs/maintenance-scheduler.service.ts:230-260 | in every run, whatever values are drawn, no release frees the lock of a process inside its section if and only if no release carries the value of one |
| `SchedulerHypotheses.SharedPidBreaksUniqueness` | apps/api/src/jobs/maintenance-scheduler.service.ts:230-258 | if two instances share a process id, some run ends with two processes in the critical section and two active jobs of one kind |
| `SchedulerSpacing.DueMeansRested` | apps/api/src/jobs/maintenance-scheduler.service.ts:294-301 | a task found due has had no recorded run within its interval |
| `SchedulerSpacing.DueIffRested` | apps/api/src/jobs/maintenance-scheduler.service.ts:294-301 | a task is due if and only if it runs on schedule and its interval has passed since every recorded run |
| `SchedulerSpacing.RestedTasksAreTakenUp` | apps/api/src/jobs/maintenance-scheduler.service.ts:263-302 | in every run, a tick between two tasks can take up a task if and only if the scheduler and the task are on, it has an interval, and that many minutes have passed since each of its recorded runs |
| `SchedulerSpacing.ScheduledRunsAreSpaced` | apps/api/src/jobs/maintenance-scheduler.service.ts:263-311 | in every run a scheduled run is at least its interval after every earlier recorded run of the task |
| `SchedulerSpacing.WindowBound` | apps/api/src/jobs/maintenance-scheduler.service.ts:521-531 | any window of length L holds at most 1 + floor(L / interval) scheduled runs |
| `SchedulerSpacing.StoredStateIsHistory` | apps/api/src/jobs/maintenance-scheduler.service.ts:612-652 | in every run the stored state equals the fold of the recorded history |
| `SchedulerProgress.WaitingTaskIsEnqueued` | apps/api/src/jobs/maintenance-scheduler.service.ts:224-458 | a tick that finds the lock free, a task whose next run has come and no job of its kind QUEUED or RUNNING can go through: the job is QUEUED, the run recorded with the next one an interval away, and the lock free again |
| `Paths.NormalizeKeyIsCanonical` | packages/s3/src/utils.ts:10-12 | normal keys are exactly the fixed points, normalising is idempotent, and only slashes normalise to nothing |
| `Paths.NormalizePrefixIsCanonical` | packages/s3/src/utils.ts:1-8 | ends in a slash unless empty, starts with one exactly for slashes only, and is idempotent |
| `Paths.NormalizeKeyKeepsSegments` | packages/s3/src/utils.ts:10-12 | the normal key is the non-empty segments of the key, in order, with one slash between them and a last one if the key ended in one |
| `Paths.NormalizePrefixKeepsSegments` | packages/s3/src/utils.ts:1-8 | a prefix that is not slashes only becomes its segments with a slash after each |
| `Paths.RenameNormalisesOnce` | packages/s3/src/file-service.ts:181-187 | the prefixes handed to the folder rename survive its second normalisation; a key of slashes becomes the whole bucket |
| `FolderRename.RenameLosesNothing` | packages/s3/src/file-service.ts:279-328 | at every point of every schedule, with calls failing before or after taking effect, each object's content is at its old or new key and all other keys are untouched |
| `FolderRename.RenameAddsUp` | packages/s3/src/file-service.ts:264-337 | every callback has processed = deleted + failed; at the end deleted + failures = total and copied = deleted + delete-stage failures |
| `FolderRename.ExactMoveMeaning` | packages/s3/src/file-service.ts:279-281 | the exact move puts S+s at T+s and leaves every other key alone |
| `FolderRename.CleanRenameIsExact` | packages/s3/src/file-service.ts:242-338 | a finished rename without failures leaves exactly the moved store |
| `FolderRename.MoveBack` | packages/s3/src/file-service.ts:242-338 | moving to an empty prefix and back is the identity on stores |
| `RenameRestart.KilledIsInterrupted` | packages/s3/src/file-service.ts:279-328 | wherever a rename is killed, every source object is half moved and all else is untouched |
| `RenameRestart.InterruptedMovesAlike` | packages/s3/src/file-service.ts:242-338 | for independent prefixes, moving such a store gives what moving the original gives |
| `RenameRestart.RestartedRenameIsExact` | packages/s3/src/file-service.ts:242-338 | killed any number of times anywhere and finally run to success, the rename leaves what one uninterrupted success leaves |
| `RenameRestart.RestartSafeIff` | packages/s3/src/file-service.ts:250-264 | killing a rename anywhere and re-running it to a clean end leaves what any clean uninterrupted rename leaves, if and only if neither prefix lies under the other |
| `RenameRestart.RoundTrip` | packages/s3/src/file-service.ts:242-338 | two clean renames, there and back, restore the store if nothing lay under the target |
| `RenameRestart.LossFreeIffDisjoint` | packages/s3/src/file-service.ts:279-291 | no schedule loses content if and only if no destination is a listed key |
| `RenameReport.ReportIsExact` | packages/s3/src/file-service.ts:293-325 | at every point of every schedule the failure list names each key at most once, with its destination; a listed key is in it at the copy (delete) stage if and only if its copy (delete) call threw |
| `RenameReport.UnreportedIffMoved` | packages/s3/src/file-service.ts:279-328 | at the end a listed key is absent from the list if and only if its delete call succeeded; its object is then at its destination only, and a key named for its copy still has its object |
| `RenameService.RenameRun.CopyTurn` | packages/s3/src/file-service.ts:279-305 | a mapper's turn around CopyObject: bucket, counters, progress, reports and, if the call throws, one failure naming the key and its destination at the copy stage |
| `RenameService.RenameRun.DeleteTurn` | packages/s3/src/file-service.ts:307-327 | the same around DeleteObject, at the delete stage |
| `RenameCall.RenameFolder` | packages/s3/src/file-service.ts:242-338 | for any pages, any order of turns and any failing calls: ends, bucket and answer are those of a finished schedule over the listed keys, the counters add up, the failures name exactly the keys whose copy or delete threw with their destinations, and without failures the folder has moved exactly if no destination was listed |
| `PagedListing.ShownMeaning` | packages/s3/src/file-service.ts:670-690 | a page shows exactly the keys of its range that exist under the prefix, none twice |
| `PagedListing.ListAllKeys` | packages/s3/src/file-service.ts:692-708 | for any page sizes, every matching key exactly once |
| `PagedListing.ListingIsProper` | packages/s3/src/file-service.ts:264-281 | what the listing returns satisfies the premises of the rename theorems |
| `PagedListing.DeletePage` | packages/s3/src/file-service.ts:635-660 | a page is requested once, in order, in chunks of 1 to 1000 keys; what is gone, what is reported and what is counted are those of the replies to these calls |
| `PagedListing.CallsMeaning` | packages/s3/src/file-service.ts:635-660 | over any calls: a key is reported if and only if an answer named it or a call that requested it threw, removed if and only if a call that requested it was answered without naming it or took effect late, and a requested key is one or the other |
| `PagedListing.DeleteFolderByPrefix` | packages/s3/src/file-service.ts:622-668 | terminates for any page sizes and errors, requests exactly the listing of the prefix, reports a key if and only if an answer named it or its call threw, so nothing if all answers are free of errors, and reports every survivor; touches nothing outside the prefix; with quiet replies its count is the number of keys removed if and only if none was removed |
| `PagedListing.DeleteFileOrFolder` | packages/s3/src/file-service.ts:139-172 | deletes only the key and what lies under it as a folder and reports what survives; the list is the key itself if its own delete call threw and what the folder's calls reported |
| `Retention.ListsAreComplementary` | apps/api/src/jobs/job-retention.service.ts:135-204 | over any list of prefix filters, all refuse exactly when none accepts |
| `Retention.AuditFiltersPartition` | apps/api/src/jobs/job-retention.service.ts:196-204 | the NOT list and the OR list split the audit log: each row is judged by exactly one window |
| `Retention.CleanupOnEvent` | apps/api/src/jobs/job-retention.service.ts:179-258 | the passes in sequence do to each event what its window, its job's window and the archive window say |
| `Retention.CleanupOnAudit` | apps/api/src/jobs/job-retention.service.ts:215-258 | the same for each audit row |
| `Retention.CleanupOnJob` | apps/api/src/jobs/job-retention.service.ts:236-237 | the same for each job |
| `RetentionRules.EventRule` | apps/api/src/jobs/job-retention.service.ts:179-258 | a hot event stays if and only if its job stays and it is not older than the days for completed and canceled, or for failed jobs; its archived copy, and exactly when there is one |
| `RetentionRules.JobRule` | apps/api/src/jobs/job-retention.service.ts:236-237 | a job is deleted if and only if it is completed, canceled or failed and ended more than the days for that status ago |
| `RetentionRules.AuditRule` | apps/api/src/jobs/job-retention.service.ts:135-258 | a hot audit row stays if and only if it is not older than the days for its action, by the seven security prefixes; the same for archived rows and the archive's days |
| `RetentionRules.FilterRules` | apps/api/src/jobs/job-retention.service.ts:177-237 | what each counted filter selects: statuses or actions, and an age in milliseconds beyond the days given |
| `Retention.CleanupKeepsApart` | apps/api/src/jobs/job-retention.service.ts:453-477 | no row is hot and archived at once |
| `Retention.EventsAreConserved` | apps/api/src/jobs/job-retention.service.ts:206-258 | when archiving, every event is still hot, or archived unchanged, or past the archive window, or cascaded with its job; events of queued and running jobs are untouched |
| `Retention.AuditsAreConserved` | apps/api/src/jobs/job-retention.service.ts:206-258 | the same for audit rows, without cascades |
| `Retention.ArchiveGainsOnlyExpired` | apps/api/src/jobs/job-retention.service.ts:377-423 | the archive keeps its copies within the window and gains only expired hot events |
| `Retention.CascadesSometimeIff` | apps/api/src/jobs/job-retention.service.ts:125-237 | some clean-up would cascade an event away if and only if it is younger than its job's end by more than terminalJobDays - jobEventsDays days, or at all for a failed job |
| `Retention.FailureEventIsExposed` | apps/api/src/jobs/jobs.service.ts:583-632 | an event of a failed job written after the row was updated, such as its own failed event, can be cascaded away under every policy |
| `Retention.HotTablesAbsorb` | apps/api/src/jobs/job-retention.service.ts:121-258 | clean-ups at t1 and then t2 >= t1 leave the hot tables of the one at t2 alone, in either mode |
| `Retention.ArchivesAbsorbIff` | apps/api/src/jobs/job-retention.service.ts:121-258 | they leave the same archives, up to the time of archiving, if and only if the early one cascades away no event the late one would archive and keep |
| `Retention.UnexposedLogsAbsorb` | apps/api/src/jobs/job-retention.service.ts:121-258 | that holds while no hot event is that much younger than its job's end |
| `RetentionService.Oldest` | apps/api/src/jobs/job-retention.service.ts:433-436 | a limited query returns as many rows as there are up to the limit, none left out older than one taken |
| `RetentionService.EventBatchesJoin` | apps/api/src/jobs/job-retention.service.ts:432-481 | archiving in two batches is archiving at once |
| `RetentionService.RetentionService.MoveEvents` | apps/api/src/jobs/job-retention.service.ts:453-477 | one transaction: copies with the job's type and status, duplicates skipped, rows deleted |
| `RetentionService.RetentionService.ArchiveAndDeleteJobEvents` | apps/api/src/jobs/job-retention.service.ts:425-484 | for every batch size the loop ends, archives exactly the matching events and counts each once |
| `RetentionService.RetentionService.ArchiveAndDeleteAuditLogs` | apps/api/src/jobs/job-retention.service.ts:486-536 | the same for audit rows |
| `RetentionService.RetentionService.DeleteTerminalJobs` | apps/api/src/jobs/job-retention.service.ts:538-551 | deletes and counts exactly the matching jobs, with their events |
| `RetentionService.RetentionService.ApplyArchiveGovernance` | apps/api/src/jobs/job-retention.service.ts:377-423 | the three purges and their counts, each counted once although they touch one table |
| `RetentionService.RetentionService.RunCleanup` | apps/api/src/jobs/job-retention.service.ts:121-258 | the whole new state; each pass archives and deletes exactly as many rows as matched its filter at the start |
| `Pool.PoolIsSequentialMap` | packages/s3/src/utils.ts:92-119 | under every schedule the result is the sequential map, with holes for undefined items |
| `Pool.PartialResultsAreRight` | packages/s3/src/utils.ts:113-115 | at every moment, even after a throw, a result that is there is the mapper's |
| `Pool.EachIndexTakenOnce` | packages/s3/src/utils.ts:104-112 | the indices taken are the defined ones below the cursor, each once and in order |
| `Pool.InFlightBound` | packages/s3/src/utils.ts:97-102 | at most max(1, concurrency) mappers are in flight, all on different indices |
| `Pool.PoolFills` | packages/s3/src/utils.ts:97-102 | some schedule has min(concurrency, length) mappers in flight at once, and one if that is not positive |
| `Pool.EveryScheduleEnds` | packages/s3/src/utils.ts:103-115 | every schedule ends within two turns an item and one a worker, and only with all workers stopped |
| `Pool.PoolRun.MapWithConcurrency` | packages/s3/src/utils.ts:92-119 | the pool as an object, its workers going in any order, ends with the sequential map |
| `Multipart.TotalPartsIsLeast` | apps/web/app/files/page.tsx:253-254 | the part count is the least, from one on, that reaches the end of the file |
| `Multipart.ServerCountTiles` | apps/api/src/files/files.service.ts:204-209 | the count the server computes, also for a part size of zero, is the one with which the parts give back the file and with one fewer do not |
| `Multipart.ChunksTile` | apps/web/lib/multipart-upload.ts:136-140 | the chunks of parts 1..n concatenate to the file; all but the last are full |
| `Multipart.CalculateUploadedBytes` | apps/web/app/files/page.tsx:775-787 | the loop sums the bytes of the given parts, ignoring those outside the file |
| `Multipart.RecoveredPlusMissing` | apps/web/app/files/page.tsx:301-303 | for every list of distinct recovered parts, recovered and missing bytes add up to the file |
| `Multipart.ResumeAssemblesFileIff` | apps/api/src/files/files.service.ts:501-518 | the resumed object is the file if and only if every recovered part holds this file's chunk |
| `PartRecords.SortedValues` | apps/api/src/files/files.service.ts:474-474 | the strictly ascending list of a map's parts |
| `PartRecords.UploadSession.RecordMultipartPart` | apps/api/src/files/files.service.ts:464-487 | the stored list becomes the strictly ascending list of this part and the old parts with other numbers |
| `PartRecords.LastWins` | apps/api/src/files/files.service.ts:464-472 | of several entries with one number the last is kept |
| `PartRecords.RecordsAreLastWriteWins` | apps/api/src/files/files.service.ts:464-482 | after any sequence of records the list is strictly ascending with the last part of each number |
| `PartRecords.RecordsCommute` | apps/api/src/files/files.service.ts:464-482 | records of different parts commute |
| `PartRecords.RecordOverwrites` | apps/api/src/files/files.service.ts:464-482 | a later record of a part replaces the earlier one, and recording twice is recording once |
| `PartRecords.ConcurrentRecordsAgreeIff` | apps/api/src/files/files.service.ts:457-482 | two overlapping calls agree with one after the other if and only if they record one part number or the overwritten part was stored already |
| `Upload.ProgressIsMonotone` | apps/web/lib/multipart-upload.ts:43-82 | under every schedule and failure the progress never falls, never exceeds the size, and ends at it when the pool resolves |
| `Upload.RecoveredBytes` | apps/web/app/files/page.tsx:301-303 | the progress starts at the bytes of the distinct recovered part numbers |
| `Upload.AcknowledgementsShow` | apps/web/lib/multipart-upload.ts:74-79 | every acknowledged part raises the progress shown by the length of its slice of the file |
| `Upload.FourAtATime` | apps/web/app/files/page.tsx:314-320 | at every point of every schedule at most four parts are on their way, over min(4, missing) workers or one |
| `Upload.CompletedPartsAreExact` | apps/web/app/files/page.tsx:301-365 | a successful upload hands over each recovered and each missing part; the numbers are exactly 1..n if and only if no part beyond was recovered |
| `Upload.UploadRun.NoteTurn` | apps/web/app/files/page.tsx:336-342 | the part enters the map before the server is told |
| `Upload.UploadRun.AcknowledgeTurn` | apps/web/lib/multipart-upload.ts:74-79 | the part's bytes are counted and shown after the server recorded it |
| `Upload.UploadRun.HandleUpload` | apps/web/app/files/page.tsx:253-365 | whatever turns fail: it completes if none does; the list handed over is strictly ascending, is 1..n in order if nothing beyond was recovered, and the progress ends at the size; if it rejects, the map and the progress stay sound |
| `PartRetry.UploadPartWithRetry` | apps/web/lib/multipart-upload.ts:87-134 | stops at the first tag or abort, tries at most maxRetries + 1 times, waits 250 * 2^i ms, and throws the last fault |
| `PartRetry.TotalWait` | apps/web/lib/multipart-upload.ts:128-129 | k waits take 250 * (2^k - 1) ms |
| `Limiter.FailureBound` | apps/api/src/auth/login-rate-limiter.service.ts:18-37 | with at most k logins in flight, count + in flight is at most maxAttempts + k - 1 in every run, and the count at most maxAttempts when k = 1 |
| `Limiter.CheckAdmitsIff` | apps/api/src/auth/login-rate-limiter.service.ts:18-29 | a check lets a login through if and only if no live window of the key has reached maxAttempts |
| `Limiter.ShutOutUntilWindowEnds` | apps/api/src/auth/login-rate-limiter.service.ts:18-37 | once the limit is reached and no login of the key is under way, in every further run no check is passed and nothing clears the count until the window ends |
| `Limiter.BoundIsReached` | apps/api/src/auth/auth.controller.ts:46-103 | for every limit and k some run reaches that bound |
| `Limiter.LoginRateLimiter.Check` | apps/api/src/auth/login-rate-limiter.service.ts:18-29 | admits exactly when no live count has reached the limit |
| `Limiter.AuthController.Login` | apps/api/src/auth/auth.controller.ts:45-103 | turned away exactly while the limit is reached; otherwise a refusal counts one more failure of the live window or opens one, a success leaves no count, and an error after it leaves the count at one; the memory is the protocol steps' |

## Left out

- H2 as a theorem: `requestCancel` and `mark*` are atomic in the model; a claim that lands between their read and write is not represented.
- JobsServiceObject.JobsService.ClaimNext: the re-read of the claimed row and the events are not interleaved in the object; the transition system interleaves the lock, the update and every event.
- RenameCall.RenameFolder: any waiting mapper may take the next turn, so the limit of five at a time is not enforced; `currentKey` and error messages are not kept.
- Upload.UploadRun.HandleUpload: stops at the first failing turn, while other workers of the browser may finish the part they hold. The percentage shown is not modelled, since its rounding is floating point, and bytes are.
- Limiter.AuthController.Login: nothing interleaves in the object; the transition system interleaves any number of logins.
- Deleting job rows by retention is not interleaved with the queue: the queue's runs never lose a row.
- The direct maintenance endpoints (apps/api/src/jobs/jobs.controller.ts:116-132), which enqueue without the active-job guard, are excluded by H5; a manual trigger reads its `now` before taking the lock and is modelled as reading it inside.
- An S3 request of a killed process that lands after the restarted one has begun.
- Renaming a single object; folder statistics, search, previews.
- Upload session statuses, their expiry and retention; aborting and completing in the store.
- Metrics, tracing, log lines, heartbeats, audit records, free-text fields, job payloads and results.
- Authorisation, scopes, sessions, LDAP, settings, presigning, transport and rendering.
