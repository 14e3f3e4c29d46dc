/** How far apart in time the claims of a job are: stale reclaims and scheduled retries. */
module JobSpacing {
  import opened Base
  import opened Jobs
  import opened JobQueue
  import opened JobSafety
  import opened JobAccounting

  // ---------------------------------------------------------------- reclaims

  /** The action claims the job, with the `now` its actor captured. */
  ghost predicate ClaimsAt(c: Config, s: State, a: Action, id: JobId, now: Time) {
    && Enabled(c, s, a) && a.ClaimUpdate? && id in s.jobs && Touched(c, s, a) == Some(id)
    && s.At(a.w).now == now
  }

  /** The row carries a claim made at `since` or later, and has not been requeued. */
  ghost predicate ClaimedSince(s: State, id: JobId, since: Time) {
    && id in s.jobs && !s.jobs[id].status.Queued?
    && s.jobs[id].lockedAt.Some? && since <= s.jobs[id].lockedAt.value
  }

  /** A claim that finds the job not QUEUED comes more than the TTL after the claim it replaces. */
  lemma ClaimReplaces(c: Config, h1: bool, s: State, a: Action, t: State, id: JobId, since: Time, now: Time)
    requires Inv(c, s) && Step(c, h1, s, a, t)
    requires ClaimedSince(s, id, since) && ClaimsAt(c, s, a, id, now)
    ensures since + c.Ttl() < now && ClaimedSince(t, id, since)
  {
    assert ActorOk(s, s.pcs[a.w]);
  }

  lemma ClaimedSinceStep(c: Config, h1: bool, s: State, a: Action, t: State, id: JobId, since: Time)
    requires Inv(c, s) && Step(c, h1, s, a, t)
    requires ClaimedSince(s, id, since) && id in t.jobs && !t.jobs[id].status.Queued?
    ensures ClaimedSince(t, id, since)
  {
    RowFrame(c, h1, s, a, t);
    if Touched(c, s, a) == Some(id) && a.ClaimUpdate? {
      ClaimReplaces(c, h1, s, a, t, id, since, s.At(a.w).now);
    }
  }

  lemma ClaimSets(c: Config, h1: bool, s: State, a: Action, t: State, id: JobId, now: Time)
    requires Step(c, h1, s, a, t) && ClaimsAt(c, s, a, id, now)
    ensures ClaimedSince(t, id, now)
  {
  }

  lemma {:induction false} ClaimedSinceHolds(c: Config, h1: bool, r: Run, i: nat, k: nat, id: JobId, now: Time)
    requires c.Valid() && r.Valid(c, h1) && i < k <= |r.acts| && ClaimsAt(c, r.states[i], r.acts[i], id, now)
    requires forall j :: i < j <= k ==> id in r.states[j].jobs && !r.states[j].jobs[id].status.Queued?
    ensures ClaimedSince(r.states[k], id, now)
    decreases k
  {
    var s, a, t := r.states[k - 1], r.acts[k - 1], r.states[k];
    assert Step(c, h1, s, a, t);
    if k == i + 1 {
      ClaimSets(c, h1, s, a, t, id, now);
    } else {
      ClaimedSinceHolds(c, h1, r, i, k - 1, id, now);
      Reachable(c, h1, r, k - 1);
      ClaimedSinceStep(c, h1, s, a, t, id, now);
    }
  }

  /**
   In every run, H1 or not: two claims of a job with no requeue between them are more than the lock TTL
   apart, measured between the times the two claims captured.
   */
  lemma ReclaimsAreSpaced(c: Config, h1: bool, r: Run, i: nat, k: nat, id: JobId, first: Time, second: Time)
    requires c.Valid() && r.Valid(c, h1) && i < k < |r.acts|
    requires ClaimsAt(c, r.states[i], r.acts[i], id, first)
    requires ClaimsAt(c, r.states[k], r.acts[k], id, second)
    requires forall j :: i < j <= k ==> id in r.states[j].jobs && !r.states[j].jobs[id].status.Queued?
    ensures first + c.Ttl() < second
  {
    ClaimedSinceHolds(c, h1, r, i, k, id, first);
    Reachable(c, h1, r, k);
    assert Step(c, h1, r.states[k], r.acts[k], r.states[k + 1]);
    ClaimReplaces(c, h1, r.states[k], r.acts[k], r.states[k + 1], id, first, second);
  }

  // ---------------------------------------------------------------- retries

  /** The job is over, or waits for its retry until `due`, or was claimed with a clock of at least `due`. */
  ghost predicate NotBefore(s: State, id: JobId, due: Time) {
    id in s.jobs ==>
      var row := s.jobs[id];
      || Terminal(row.status)
      || (row.status.Queued? && row.nextRetryAt.Some? && due <= row.nextRetryAt.value)
      || (row.status.Running? && row.lockedAt.Some? && due <= row.lockedAt.value)
  }

  /** A retry is scheduled no earlier than the claim that it ends. */
  lemma RetryKeepsDue(c: Config, s: State, w: Actor, due: Time)
    requires Inv(c, s) && OwnerOk(c, s, w) && InTime(c, s, w) && NotBefore(s, s.At(w).id, due)
    ensures due <= s.jobs[s.At(w).id].lockedAt.value <= s.clock
  {
    assert ActorOk(s, s.pcs[w]);
  }

  lemma NotBeforeStep(c: Config, s: State, a: Action, t: State, id: JobId, due: Time)
    requires Inv(c, s) && Owners(c, s) && Step(c, true, s, a, t) && id in s.jobs && NotBefore(s, id, due)
    ensures NotBefore(t, id, due)
  {
    RowFrame(c, true, s, a, t);
    if Touched(c, s, a) == Some(id) {
      if a.ClaimUpdate? {
        ClaimIsDue(c, s, a, id, due, s.At(a.w).now);
      } else if a.Fail? {
        assert OwnerOk(c, s, a.w);
        RetryKeepsDue(c, s, a.w, due);
      }
    }
  }

  /** A claim captured its clock no earlier than `due`. */
  lemma ClaimIsDue(c: Config, s: State, a: Action, id: JobId, due: Time, now: Time)
    requires Inv(c, s) && NotBefore(s, id, due) && ClaimsAt(c, s, a, id, now)
    ensures due <= now <= s.clock
  {
    assert ActorOk(s, s.pcs[a.w]);
  }

  lemma {:induction false} NotBeforeHolds(c: Config, r: Run, i: nat, k: nat, id: JobId, due: Time)
    requires c.Valid() && r.Valid(c, true) && i <= k <= |r.acts|
    requires id in r.states[i].jobs && NotBefore(r.states[i], id, due)
    ensures id in r.states[k].jobs && NotBefore(r.states[k], id, due)
    decreases k
  {
    if i == k {
    } else {
      NotBeforeHolds(c, r, i, k - 1, id, due);
      Reachable(c, true, r, k - 1);
      var s, a, t := r.states[k - 1], r.acts[k - 1], r.states[k];
      assert Step(c, true, s, a, t);
      RowFrame(c, true, s, a, t);
      NotBeforeStep(c, s, a, t, id, due);
    }
  }

  /** After a failure that schedules a retry, every later claim of the job captured its clock after the backoff. */
  lemma RetryWaitsBackoff(c: Config, r: Run, i: nat, k: nat, id: JobId, now: Time)
    requires c.Valid() && r.Valid(c, true) && i < k < |r.acts|
    requires Counts(c, r.states[i], r.acts[i], id, RetryKind)
    requires ClaimsAt(c, r.states[k], r.acts[k], id, now)
    ensures r.states[i].clock + RetryDelay(c, r.states[i].jobs[id]) <= now <= r.states[k].clock
  {
    var due := r.states[i].clock + RetryDelay(c, r.states[i].jobs[id]);
    assert Step(c, true, r.states[i], r.acts[i], r.states[i + 1]);
    assert NotBefore(r.states[i + 1], id, due);
    NotBeforeHolds(c, r, i + 1, k, id, due);
    Reachable(c, true, r, k);
    ClaimIsDue(c, r.states[k], r.acts[k], id, due, now);
  }

  // ---------------------------------------------------------------- a job that is due is seen

  /** What a scan's two answers say of a row: it is passed over if it must wait, and seen if it need not. */
  lemma ScanSeesDueJobs(c: Config, s: State, w: Actor, id: JobId)
    requires id in s.jobs && s.At(w).Scanning?
    ensures
      var row, pc := s.jobs[id], s.At(w);
      var due := || (row.status.Queued? && row.nextRetryAt.None?)
                 || (row.status.Queued? && row.nextRetryAt.Some? && row.nextRetryAt.value <= pc.now)
                 || (row.status.Running? && row.lockedAt.Some? && row.lockedAt.value < pc.staleFrom - c.ttlSeconds * 1000);
      && (due ==> !Enabled(c, s, NoCandidate(w)))
      && (!due ==> !Enabled(c, s, Pick(w, id)))
      && (due && (forall other :: other in s.jobs ==> row.createdAt <= s.jobs[other].createdAt) ==> Enabled(c, s, Pick(w, id)))
  {
    assert CandidateAt(c, s, s.At(w), id) <==> Claimable(s.jobs[id], s.At(w).now, s.At(w).staleFrom - c.Ttl());
  }

  /** While a job stays QUEUED, its row is not touched. */
  lemma QueuedStays(c: Config, s: State, a: Action, t: State, id: JobId)
    requires Owners(c, s) && Step(c, true, s, a, t) && id in s.jobs && s.jobs[id].status.Queued?
    requires id in t.jobs && t.jobs[id].status.Queued?
    ensures t.jobs[id] == s.jobs[id]
  {
    RowFrame(c, true, s, a, t);
    assert ActorOf(a).Some? ==> OwnerOk(c, s, ActorOf(a).value);
  }

  lemma {:induction false} QueuedSince(c: Config, r: Run, i: nat, k: nat, id: JobId)
    requires c.Valid() && r.Valid(c, true) && i <= k <= |r.acts|
    requires forall j :: i <= j <= k ==> id in r.states[j].jobs && r.states[j].jobs[id].status.Queued?
    ensures r.states[k].jobs[id] == r.states[i].jobs[id]
    decreases k
  {
    if i == k {
    } else {
      QueuedSince(c, r, i, k - 1, id);
      Reachable(c, true, r, k - 1);
      assert Step(c, true, r.states[k - 1], r.acts[k - 1], r.states[k]);
      QueuedStays(c, r.states[k - 1], r.acts[k - 1], r.states[k], id);
    }
  }

  /** The configured base wait of a kind of job. */
  function ConfiguredBackoff(c: Config, kind: JobType): nat {
    match kind
    case BucketSync => c.syncBackoff
    case UploadCleanup => c.uploadBackoff
    case RetentionCleanup => c.retentionBackoff
    case _ => 0
  }

  /** The end of the wait that a failure now starts for the row: the kind's base doubled with each attempt, up to the cap. */
  function WaitsUntil(c: Config, row: Job, now: Time): Time
    requires row.attemptCount >= 1
  {
    now + Min(ConfiguredBackoff(c, row.kind) * Pow2(row.attemptCount - 1), c.backoffCap) * 1000
  }

  lemma RetrySetsDue(c: Config, s: State, w: Actor, t: State)
    requires Step(c, true, s, Fail(w), t) && s.At(w).id in t.jobs && t.jobs[s.At(w).id].status.Queued?
    requires s.jobs[s.At(w).id].attemptCount >= 1
    ensures t.jobs[s.At(w).id].nextRetryAt == Some(WaitsUntil(c, s.jobs[s.At(w).id], s.clock))
  {
    var row := s.jobs[s.At(w).id];
    assert t == Finish(s, w, FailRow(c, row, s.clock), FailEvents(row));
    BackoffIsCappedDoubling(c, row.kind, row.attemptCount);
  }

  /** A running job has been claimed. */
  lemma RunningIsClaimed(c: Config, r: Run, n: nat, id: JobId)
    requires c.Valid() && r.Valid(c, true) && n <= |r.acts| && id in r.states[n].jobs && r.states[n].jobs[id].status.Running?
    ensures r.states[n].jobs[id].attemptCount >= 1
  {
    AttemptsAreClaims(c, true, r, n, id);
    ClaimsBalanceFinishes(c, r, n, id);
  }

  /** Under H1 a failure finds its job running. */
  lemma FailFindsRunning(c: Config, r: Run, n: nat, w: Actor)
    requires c.Valid() && r.Valid(c, true) && n < |r.acts| && r.acts[n] == Fail(w)
    ensures r.states[n].At(w).Owns() && r.states[n].At(w).id in r.states[n].jobs
    ensures r.states[n].jobs[r.states[n].At(w).id].status.Running?
  {
    Reachable(c, true, r, n);
    assert Step(c, true, r.states[n], r.acts[n], r.states[n + 1]);
    assert OwnerOk(c, r.states[n], w);
  }

  /** A job that failed at step `i` and has been QUEUED since still waits for the end of that wait. */
  lemma StillWaits(c: Config, r: Run, i: nat, k: nat, w: Actor)
    requires c.Valid() && r.Valid(c, true) && i < k <= |r.acts| && r.acts[i] == Fail(w) && r.states[i].At(w).Owns()
    requires forall j :: i < j <= k ==> r.states[i].At(w).id in r.states[j].jobs
                                        && r.states[j].jobs[r.states[i].At(w).id].status.Queued?
    ensures
      var id := r.states[i].At(w).id;
      && id in r.states[i].jobs && r.states[i].jobs[id].attemptCount >= 1
      && r.states[k].jobs[id].nextRetryAt == Some(WaitsUntil(c, r.states[i].jobs[id], r.states[i].clock))
  {
    var id := r.states[i].At(w).id;
    FailFindsRunning(c, r, i, w);
    RunningIsClaimed(c, r, i, id);
    assert Step(c, true, r.states[i], r.acts[i], r.states[i + 1]);
    RetrySetsDue(c, r.states[i], w, r.states[i + 1]);
    QueuedSince(c, r, i + 1, k, id);
  }

  lemma ScanRespectsWait(c: Config, s: State, a: Action, t: State, v: Actor, id: JobId, due: Time)
    requires Step(c, true, s, a, t) && s.At(v).Scanning? && id in s.jobs
    requires s.jobs[id].status.Queued? && s.jobs[id].nextRetryAt == Some(due)
    ensures due <= s.At(v).now ==> a != NoCandidate(v)
    ensures s.At(v).now < due ==> a != Pick(v, id)
  {
    ScanSeesDueJobs(c, s, v, id);
  }

  /**
   The other half of the retry law. After a failure at step `i`, and while the job stays QUEUED: a scan that captured
   its clock at or after the end of the wait cannot find the queue empty, and one that captured it before cannot pick
   the job.
   */
  lemma RetryBecomesDue(c: Config, r: Run, i: nat, k: nat, w: Actor, v: Actor)
    requires c.Valid() && r.Valid(c, true) && i < k < |r.acts| && r.acts[i] == Fail(w) && r.states[i].At(w).Owns()
    requires forall j :: i < j <= k ==> r.states[i].At(w).id in r.states[j].jobs
                                        && r.states[j].jobs[r.states[i].At(w).id].status.Queued?
    requires r.states[k].At(v).Scanning?
    ensures
      var id, now := r.states[i].At(w).id, r.states[k].At(v).now;
      && id in r.states[i].jobs && r.states[i].jobs[id].attemptCount >= 1
      && var due := WaitsUntil(c, r.states[i].jobs[id], r.states[i].clock);
         (due <= now ==> r.acts[k] != NoCandidate(v)) && (now < due ==> r.acts[k] != Pick(v, id))
  {
    StillWaits(c, r, i, k, w);
    var id := r.states[i].At(w).id;
    assert Step(c, true, r.states[k], r.acts[k], r.states[k + 1]);
    ScanRespectsWait(c, r.states[k], r.acts[k], r.states[k + 1], v, id,
                     WaitsUntil(c, r.states[i].jobs[id], r.states[i].clock));
  }

  /** The delays of the first `k` retries, in milliseconds. */
  function Spent(c: Config, kind: JobType, k: nat): nat {
    if k == 0 then 0 else Spent(c, kind, k - 1) + BackoffSeconds(c, kind, k) * 1000
  }

  /** The earliest time at which a job can be claimed after its k-th scheduled retry. */
  function EarliestClaim(c: Config, row: Job, k: nat): Time {
    row.createdAt + Spent(c, row.kind, k)
  }

  /** While the cap is not reached, `k` retries take `base * (2^k - 1)` seconds. */
  lemma {:induction false} SpentUncapped(c: Config, kind: JobType, k: nat)
    requires k > 0 ==> RetryPolicy(c, kind).baseBackoff * Pow2(k - 1) <= c.backoffCap
    ensures Spent(c, kind, k) == RetryPolicy(c, kind).baseBackoff * (Pow2(k) - 1) * 1000
  {
    var base := RetryPolicy(c, kind).baseBackoff;
    if k == 0 {
      assert base * 0 * 1000 == 0;
    } else {
      Pow2Monotone(0, k - 1);
      if k > 1 {
        Pow2Monotone(k - 2, k - 1);
        MulMono(Pow2(k - 2), Pow2(k - 1), base);
      }
      SpentUncapped(c, kind, k - 1);
      BackoffIsCappedDoubling(c, kind, k);
      DoubleLessOne(base, Pow2(k - 1));
    }
  }

  lemma DoubleLessOne(base: nat, p: nat)
    requires p >= 1
    ensures base * (p - 1) * 1000 + base * p * 1000 == base * (2 * p - 1) * 1000
  {
    calc {
      base * (p - 1) * 1000 + base * p * 1000;
      (base * (p - 1) + base * p) * 1000;
      { assert base * (p - 1) + base * p == base * (2 * p - 1); }
      base * (2 * p - 1) * 1000;
    }
  }

  /** Once a retry is scheduled the job waits for the delays so far; before that, only its creation bounds it. */
  ghost predicate WaitsOut(c: Config, s: State, id: JobId, row: Job, retries: nat) {
    if retries == 0 then row.createdAt <= s.clock else NotBefore(s, id, EarliestClaim(c, row, retries))
  }

  /** A failure that schedules the next retry, given how many were scheduled before it. */
  lemma RetrySpends(c: Config, s: State, a: Action, t: State, id: JobId, retries: nat)
    requires Inv(c, s) && Owners(c, s) && Step(c, true, s, a, t) && Counts(c, s, a, id, RetryKind)
    requires WaitsOut(c, s, id, s.jobs[id], retries) && retries < s.jobs[id].attemptCount
    ensures id in t.jobs && WaitsOut(c, t, id, s.jobs[id], retries + 1)
  {
    var row := s.jobs[id];
    assert OwnerOk(c, s, a.w);
    if retries > 0 {
      RetryKeepsDue(c, s, a.w, EarliestClaim(c, row, retries));
    }
    assert EarliestClaim(c, row, retries) <= s.clock;
    NextDelay(c, row, retries);
    assert t.jobs[id] == FailRow(c, row, s.clock);
  }

  lemma NextDelay(c: Config, row: Job, retries: nat)
    requires retries < row.attemptCount
    ensures Spent(c, row.kind, retries + 1) <= Spent(c, row.kind, retries) + RetryDelay(c, row)
  {
    BackoffMonotoneAndCapped(c, row.kind, retries + 1, row.attemptCount);
  }

  /** One action, given how many retries were scheduled before it. */
  lemma SpentStep(c: Config, s: State, a: Action, t: State, id: JobId, retries: nat)
    requires Inv(c, s) && Owners(c, s) && Step(c, true, s, a, t) && id in s.jobs
    requires WaitsOut(c, s, id, s.jobs[id], retries)
    requires Counts(c, s, a, id, RetryKind) ==> retries < s.jobs[id].attemptCount
    ensures WaitsOut(c, t, id, s.jobs[id], retries + One(Counts(c, s, a, id, RetryKind)))
  {
    if Counts(c, s, a, id, RetryKind) {
      RetrySpends(c, s, a, t, id, retries);
    } else if retries == 0 {
      ActorFrame(c, true, s, a, t);
    } else {
      NotBeforeStep(c, s, a, t, id, EarliestClaim(c, s.jobs[id], retries));
    }
  }

  lemma {:induction false} SpentHolds(c: Config, r: Run, n: nat, id: JobId)
    requires c.Valid() && r.Valid(c, true) && n <= |r.acts| && id in r.states[n].jobs
    ensures HasWaited(c, r, n, id)
  {
    if n == 0 {
    } else {
      var m := n - 1;
      if id in r.states[m].jobs {
        SpentHolds(c, r, m, id);
        SpentAdvances(c, r, m, id);
        assert m + 1 == n;
      } else {
        SpentStart(c, r, n, id);
      }
    }
  }

  lemma SpentNext(c: Config, s: State, a: Action, t: State, id: JobId, retries: nat, next: nat)
    requires Inv(c, s) && Owners(c, s) && Step(c, true, s, a, t) && id in s.jobs && id in t.jobs
    requires WaitsOut(c, s, id, s.jobs[id], retries)
    requires Counts(c, s, a, id, RetryKind) ==> retries < s.jobs[id].attemptCount
    requires next == retries + One(Counts(c, s, a, id, RetryKind))
    ensures WaitsOut(c, t, id, t.jobs[id], next)
  {
    SpentStep(c, s, a, t, id, retries);
    AttemptStep(c, true, s, a, t, id);
  }

  /** The job has waited out the retries scheduled so far. */
  ghost predicate HasWaited(c: Config, r: Run, n: nat, id: JobId)
    requires n <= |r.acts| && |r.states| == |r.acts| + 1 && id in r.states[n].jobs
  {
    WaitsOut(c, r.states[n], id, r.states[n].jobs[id], Count(c, r, n, id, RetryKind))
  }

  lemma SpentAdvances(c: Config, r: Run, n: nat, id: JobId)
    requires c.Valid() && r.Valid(c, true) && n < |r.acts| && id in r.states[n].jobs && id in r.states[n + 1].jobs
    requires HasWaited(c, r, n, id)
    ensures HasWaited(c, r, n + 1, id)
  {
    Reachable(c, true, r, n);
    RetriesBelowAttempts(c, r, n, id);
    CountsUnfolds(c, r, n, id);
    SpentNext(c, r.states[n], r.acts[n], r.states[n + 1], id,
              Count(c, r, n, id, RetryKind), Count(c, r, n + 1, id, RetryKind));
  }

  lemma SpentStart(c: Config, r: Run, n: nat, id: JobId)
    requires c.Valid() && r.Valid(c, true) && 0 < n <= |r.acts|
    requires id !in r.states[n - 1].jobs && id in r.states[n].jobs
    ensures HasWaited(c, r, n, id)
  {
    assert Step(c, true, r.states[n - 1], r.acts[n - 1], r.states[n]);
    AttemptLawHolds(c, true, r, n - 1, id);
    NoCountsBefore(c, r.states[n - 1], r.acts[n - 1], id);
    CountsUnfolds(c, r, n - 1, id);
    assert Count(c, r, n, id, RetryKind) == 0;
    RowIsNew(c, true, r.states[n - 1], r.acts[n - 1], r.states[n], id);
  }

  /** A running job has been claimed more often than it was sent back for a retry. */
  lemma RetriesBelowAttempts(c: Config, r: Run, n: nat, id: JobId)
    requires c.Valid() && r.Valid(c, true) && n < |r.acts| && id in r.states[n].jobs
    ensures Counts(c, r.states[n], r.acts[n], id, RetryKind) ==>
              Count(c, r, n, id, RetryKind) < r.states[n].jobs[id].attemptCount
  {
    if Counts(c, r.states[n], r.acts[n], id, RetryKind) {
      Reachable(c, true, r, n);
      assert Step(c, true, r.states[n], r.acts[n], r.states[n + 1]);
      FlagStep(c, r.states[n], r.acts[n], r.states[n + 1], id);
      FinishMeetsRunning(c, r.states[n], r.acts[n], r.states[n + 1], id);
      ClaimsBalanceFinishes(c, r, n, id);
      AttemptLawHolds(c, true, r, n, id);
    }
  }

  /** Every claim after the k-th scheduled retry captured its clock at least `min(base * 2^(k-1), cap)` seconds after it. */
  lemma KthRetryWaits(c: Config, r: Run, i: nat, j: nat, id: JobId, now: Time, k: nat)
    requires c.Valid() && r.Valid(c, true) && i < j < |r.acts|
    requires Counts(c, r.states[i], r.acts[i], id, RetryKind) && k == Count(c, r, i, id, RetryKind) + 1
    requires ClaimsAt(c, r.states[j], r.acts[j], id, now)
    ensures
      var p := RetryPolicy(c, r.states[i].jobs[id].kind);
      r.states[i].clock + Min(p.baseBackoff * Pow2(k - 1), c.backoffCap) * 1000 <= now <= r.states[j].clock
  {
    var row := r.states[i].jobs[id];
    RetryWaitsBackoff(c, r, i, j, id, now);
    RetriesBelowAttempts(c, r, i, id);
    BackoffMonotoneAndCapped(c, row.kind, k, row.attemptCount);
    BackoffIsCappedDoubling(c, row.kind, k);
  }

  /**
   A claim that follows the k-th scheduled retry, k > 0, captured its clock at least the sum of the k delays after the
   enqueue. A first claim is made after the enqueue, though it may have captured its clock before.
   */
  lemma RetriesTakeTheirTime(c: Config, r: Run, n: nat, id: JobId, now: Time)
    requires c.Valid() && r.Valid(c, true) && n < |r.acts| && ClaimsAt(c, r.states[n], r.acts[n], id, now)
    ensures
      var k := Count(c, r, n, id, RetryKind);
      var due := EarliestClaim(c, r.states[n].jobs[id], k);
      due <= r.states[n].clock && (k > 0 ==> due <= now)
  {
    Reachable(c, true, r, n);
    SpentHolds(c, r, n, id);
    var k := Count(c, r, n, id, RetryKind);
    if k > 0 {
      ClaimIsDue(c, r.states[n], r.acts[n], id, EarliestClaim(c, r.states[n].jobs[id], k), now);
    }
  }
}
