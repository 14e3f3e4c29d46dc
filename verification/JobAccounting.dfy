/**
 Attempt accounting over runs: what `attemptCount` counts, how many executions a run can hold, and a
 measure that every claim and every finish decreases.
 */
module JobAccounting {
  import opened Base
  import opened Jobs
  import opened JobQueue
  import opened JobSafety

  /** The row updates a run is counted by. */
  datatype Kind = FreshClaim | Reclaim | FinishKind | RetryKind

  ghost predicate Counts(c: Config, s: State, a: Action, id: JobId, kind: Kind) {
    && Enabled(c, s, a) && id in s.jobs && Touched(c, s, a) == Some(id)
    && match kind
       case FreshClaim => a.ClaimUpdate? && s.jobs[id].status.Queued?
       case Reclaim => a.ClaimUpdate? && s.jobs[id].status.Running?
       case FinishKind => a.Complete? || a.Fail? || a.Cancel?
       case RetryKind => a.Fail? && ShouldRetry(s.jobs[id])
  }

  /** How many of the first `n` actions of the run are of the given kind for the given job. */
  ghost function Count(c: Config, r: Run, n: nat, id: JobId, kind: Kind): nat
    requires n <= |r.acts| && |r.states| == |r.acts| + 1
  {
    if n == 0 then 0
    else Count(c, r, n - 1, id, kind) + if Counts(c, r.states[n - 1], r.acts[n - 1], id, kind) then 1 else 0
  }

  /** What an update does to the touched row's attempt count, by kind. */
  lemma UpdatedAttempts(c: Config, s: State, a: Action, id: JobId)
    requires Enabled(c, s, a) && Touched(c, s, a) == Some(id) && id in s.jobs
    ensures Updated(c, s, a).kind == s.jobs[id].kind && Updated(c, s, a).maxAttempts == s.jobs[id].maxAttempts
    ensures Updated(c, s, a).createdAt == s.jobs[id].createdAt
    ensures Updated(c, s, a).attemptCount == s.jobs[id].attemptCount + if a.ClaimUpdate? then 1 else 0
  {
  }

  /** A claim that touches a row is a fresh claim or a reclaim of it. */
  lemma ClaimIsCounted(c: Config, s: State, a: Action, id: JobId)
    requires Enabled(c, s, a) && id in s.jobs
    ensures a.ClaimUpdate? && Touched(c, s, a) == Some(id) <==>
              Counts(c, s, a, id, FreshClaim) || Counts(c, s, a, id, Reclaim)
  {
  }

  /** How one action changes a row's attempt count, by kind. */
  lemma AttemptStep(c: Config, h1: bool, s: State, a: Action, t: State, id: JobId)
    requires Step(c, h1, s, a, t) && id in s.jobs
    ensures id in t.jobs
    ensures t.jobs[id].kind == s.jobs[id].kind && t.jobs[id].maxAttempts == s.jobs[id].maxAttempts
    ensures t.jobs[id].createdAt == s.jobs[id].createdAt
    ensures t.jobs[id].attemptCount ==
              s.jobs[id].attemptCount + if Counts(c, s, a, id, FreshClaim) || Counts(c, s, a, id, Reclaim) then 1 else 0
  {
    RowFrame(c, h1, s, a, t);
    ClaimIsCounted(c, s, a, id);
    if Touched(c, s, a) == Some(id) {
      UpdatedAttempts(c, s, a, id);
    }
  }

  lemma NoCountsBefore(c: Config, s: State, a: Action, id: JobId)
    requires id !in s.jobs
    ensures forall kind :: !Counts(c, s, a, id, kind)
  {
  }

  lemma RowIsNew(c: Config, h1: bool, s: State, a: Action, t: State, id: JobId)
    requires Step(c, h1, s, a, t) && id !in s.jobs && id in t.jobs
    ensures a.Enqueue? && a.id == id && t.jobs[id] == NewJob(c, a.kind, s.clock)
  {
    RowFrame(c, h1, s, a, t);
  }

  /** What a row says of the claims made so far: `claims` from QUEUED and `reclaims`. */
  ghost predicate AttemptLaw(row: Job, claims: nat, reclaims: nat) {
    row.attemptCount == claims + reclaims && claims <= row.maxAttempts
  }

  lemma AttemptLawStep(c: Config, h1: bool, s: State, a: Action, t: State, id: JobId, claims: nat, reclaims: nat)
    requires Inv(c, s) && Step(c, h1, s, a, t) && id in s.jobs && AttemptLaw(s.jobs[id], claims, reclaims)
    ensures id in t.jobs
    ensures AttemptLaw(t.jobs[id],
              claims + (if Counts(c, s, a, id, FreshClaim) then 1 else 0),
              reclaims + (if Counts(c, s, a, id, Reclaim) then 1 else 0))
  {
    assert RowOk(c, s.jobs[id]);
    AttemptStep(c, h1, s, a, t, id);
  }

  lemma {:induction false} AttemptLawHolds(c: Config, h1: bool, r: Run, n: nat, id: JobId)
    requires c.Valid() && r.Valid(c, h1) && n <= |r.acts|
    ensures id !in r.states[n].jobs ==> forall kind :: Count(c, r, n, id, kind) == 0
    ensures id in r.states[n].jobs ==>
              AttemptLaw(r.states[n].jobs[id], Count(c, r, n, id, FreshClaim), Count(c, r, n, id, Reclaim))
  {
    if n == 0 {
    } else {
      AttemptLawHolds(c, h1, r, n - 1, id);
      Reachable(c, h1, r, n - 1);
      CountsUnfolds(c, r, n - 1, id);
      var s, a, t := r.states[n - 1], r.acts[n - 1], r.states[n];
      assert Step(c, h1, s, a, t);
      if id in s.jobs {
        AttemptLawStep(c, h1, s, a, t, id, Count(c, r, n - 1, id, FreshClaim), Count(c, r, n - 1, id, Reclaim));
      } else {
        NoCountsBefore(c, s, a, id);
        if id in t.jobs { RowIsNew(c, h1, s, a, t, id); }
      }
    }
  }

  /**
   In every run, H1 or not: `attemptCount` is the number of claims from QUEUED plus the number of stale
   reclaims, and only the claims from QUEUED are limited by `maxAttempts`.
   */
  lemma AttemptsAreClaims(c: Config, h1: bool, r: Run, n: nat, id: JobId)
    requires c.Valid() && r.Valid(c, h1) && n <= |r.acts| && id in r.states[n].jobs
    ensures
      var row := r.states[n].jobs[id];
      && row.attemptCount == Count(c, r, n, id, FreshClaim) + Count(c, r, n, id, Reclaim)
      && Count(c, r, n, id, FreshClaim) <= row.maxAttempts == RetryPolicy(c, row.kind).maxAttempts
      && (row.status.Queued? ==> row.attemptCount < row.maxAttempts)
  {
    AttemptLawHolds(c, h1, r, n, id);
    Reachable(c, h1, r, n);
    assert RowOk(c, r.states[n].jobs[id]);
  }

  /** A failing finish queues the job again exactly when it is retryable and has attempts left. */
  lemma FailRequeuesIff(c: Config, h1: bool, s: State, w: Actor, t: State)
    requires Step(c, h1, s, Fail(w), t)
    ensures
      var id := s.At(w).id;
      && id in s.jobs && id in t.jobs
      && (t.jobs[id].status.Queued? <==> s.jobs[id].retryable && s.jobs[id].attemptCount < s.jobs[id].maxAttempts)
      && (t.jobs[id].status.Queued? || t.jobs[id].status.Failed?)
  {
    RowFrame(c, h1, s, Fail(w), t);
  }

  /** The attempts that are configured for a kind of job. */
  function ConfiguredAttempts(c: Config, kind: JobType): nat {
    match kind
    case BucketSync => c.syncAttempts
    case UploadCleanup => c.uploadAttempts
    case RetentionCleanup => c.retentionAttempts
    case _ => 1
  }

  /**
   In every run, H1 or not: no attempt is given away. A FAILED job of a retryable kind has used at least the attempts
   configured for its kind, and a job is claimed from QUEUED at most that often.
   */
  lemma FailedHasUsedAttempts(c: Config, h1: bool, r: Run, n: nat, id: JobId)
    requires c.Valid() && r.Valid(c, h1) && n <= |r.acts| && id in r.states[n].jobs
    ensures
      var row := r.states[n].jobs[id];
      && (row.status.Failed? && row.kind in {BucketSync, UploadCleanup, RetentionCleanup} ==>
            row.attemptCount >= ConfiguredAttempts(c, row.kind))
      && Count(c, r, n, id, FreshClaim) <= ConfiguredAttempts(c, row.kind)
  {
    AttemptsAreClaims(c, h1, r, n, id);
    Reachable(c, h1, r, n);
    assert RowOk(c, r.states[n].jobs[id]);
  }

  ghost function RunningFlag(s: State, id: JobId): nat {
    if id in s.jobs && s.jobs[id].status.Running? then 1 else 0
  }

  ghost function One(b: bool): nat {
    if b then 1 else 0
  }

  lemma FinishMeetsRunning(c: Config, s: State, a: Action, t: State, id: JobId)
    requires Owners(c, s) && Step(c, true, s, a, t) && Counts(c, s, a, id, FinishKind)
    ensures s.jobs[id].status.Running? && id in t.jobs && !t.jobs[id].status.Running?
  {
    assert OwnerOk(c, s, a.w);
    RowFrame(c, true, s, a, t);
  }

  /** An action is at most one of a claim, a reclaim and a finish. */
  lemma OneCountOnly(c: Config, s: State, a: Action, id: JobId)
    ensures One(Counts(c, s, a, id, FreshClaim)) + One(Counts(c, s, a, id, Reclaim)) + One(Counts(c, s, a, id, FinishKind)) <= 1
    ensures Counts(c, s, a, id, RetryKind) ==> Counts(c, s, a, id, FinishKind)
  {
  }

  /** Other updates make a job running only by a fresh claim, and a running job stays so. */
  lemma FlagOfOthers(c: Config, s: State, a: Action, id: JobId)
    requires Enabled(c, s, a) && Touched(c, s, a) == Some(id) && !a.Complete? && !a.Fail? && !a.Cancel?
    requires a.Enqueue? ==> id !in s.jobs
    ensures One(Updated(c, s, a).status.Running?) == RunningFlag(s, id) + One(Counts(c, s, a, id, FreshClaim))
    ensures !Counts(c, s, a, id, FinishKind)
  {
  }

  /** Under H1, which counters move with which status change. */
  lemma FlagStep(c: Config, s: State, a: Action, t: State, id: JobId)
    requires Owners(c, s) && Step(c, true, s, a, t)
    ensures RunningFlag(t, id) + One(Counts(c, s, a, id, FinishKind))
            == RunningFlag(s, id) + One(Counts(c, s, a, id, FreshClaim))
    ensures Counts(c, s, a, id, RetryKind) ==> Counts(c, s, a, id, FinishKind)
  {
    OneCountOnly(c, s, a, id);
    if Counts(c, s, a, id, FinishKind) {
      FinishMeetsRunning(c, s, a, t, id);
    } else {
      RowFrame(c, true, s, a, t);
      if Touched(c, s, a) == Some(id) {
        FinishTouchesKnown(c, s, a, id);
        FlagOfOthers(c, s, a, id);
      }
    }
  }

  lemma FinishTouchesKnown(c: Config, s: State, a: Action, id: JobId)
    requires Enabled(c, s, a) && Touched(c, s, a) == Some(id)
    ensures (a.Complete? || a.Fail? || a.Cancel?) ==> Counts(c, s, a, id, FinishKind)
  {
  }

  /**
   Under H1: every claim from QUEUED is finished once, unless the job is still RUNNING. So the attempts
   that nobody ever finishes are exactly the ones a reclaim superseded, plus the one still running.
   */
  lemma {:induction false} ClaimsBalanceFinishes(c: Config, r: Run, n: nat, id: JobId)
    requires c.Valid() && r.Valid(c, true) && n <= |r.acts|
    ensures Count(c, r, n, id, FreshClaim) == Count(c, r, n, id, FinishKind) + RunningFlag(r.states[n], id)
    ensures Count(c, r, n, id, RetryKind) <= Count(c, r, n, id, FinishKind)
  {
    if n == 0 {
    } else {
      ClaimsBalanceFinishes(c, r, n - 1, id);
      Reachable(c, true, r, n - 1);
      assert Step(c, true, r.states[n - 1], r.acts[n - 1], r.states[n]);
      FlagStep(c, r.states[n - 1], r.acts[n - 1], r.states[n], id);
    }
  }

  // ---------------------------------------------------------------- where executions go

  /** All the executions of a job that a run has started. */
  ghost function Executions(c: Config, r: Run, n: nat, id: JobId): nat
    requires n <= |r.acts| && |r.states| == |r.acts| + 1
  {
    Count(c, r, n, id, FreshClaim) + Count(c, r, n, id, Reclaim)
  }

  predicate OwnsAt(pc: Pc, id: JobId) {
    pc.Owns() && pc.id == id
  }

  /** The actors that hold an attempt at the job, in time or not. */
  ghost function OwnersOf(s: State, id: JobId): set<Actor> {
    set w | w in s.pcs && OwnsAt(s.pcs[w], id)
  }

  /** The action kills an actor that holds an attempt at the job. */
  ghost predicate KillsOwner(s: State, a: Action, id: JobId) {
    a.Crash? && OwnsAt(s.At(a.w), id)
  }

  /** How many of the first `n` actions kill an actor in the middle of an attempt at the job. */
  ghost function Crashes(r: Run, n: nat, id: JobId): nat
    requires n <= |r.acts| && |r.states| == |r.acts| + 1
  {
    if n == 0 then 0 else Crashes(r, n - 1, id) + One(KillsOwner(r.states[n - 1], r.acts[n - 1], id))
  }

  lemma WithOrWithout(x: set<Actor>, m: Actor)
    ensures |x| == |x - {m}| + One(m in x)
  {
    if m in x {
      assert x == (x - {m}) + {m};
    } else {
      assert x == x - {m};
    }
  }

  /** When one actor moves, the owners change by that actor alone. */
  lemma OwnersMove(s: State, t: State, m: Actor, id: JobId)
    requires forall w: Actor :: w != m ==> (w in t.pcs <==> w in s.pcs) && t.At(w) == s.At(w)
    ensures |OwnersOf(t, id)| + One(OwnsAt(s.At(m), id)) == |OwnersOf(s, id)| + One(OwnsAt(t.At(m), id))
  {
    var x, y := OwnersOf(s, id), OwnersOf(t, id);
    assert m in x <==> OwnsAt(s.At(m), id);
    assert m in y <==> OwnsAt(t.At(m), id);
    forall w: Actor | w != m
      ensures w in x <==> w in y
    {
      assert w in s.pcs ==> s.At(w) == s.pcs[w];
      assert w in t.pcs ==> t.At(w) == t.pcs[w];
    }
    assert x - {m} == y - {m};
    WithOrWithout(x, m);
    WithOrWithout(y, m);
  }

  /** What an action of `m` does to its own attempt: a claim begins one, a finish or a crash ends one. */
  ghost predicate OwnMove(c: Config, s: State, a: Action, t: State, m: Actor, id: JobId) {
    One(OwnsAt(t.At(m), id)) + One(Counts(c, s, a, id, FinishKind)) + One(KillsOwner(s, a, id))
    == One(OwnsAt(s.At(m), id)) + One(Counts(c, s, a, id, FreshClaim)) + One(Counts(c, s, a, id, Reclaim))
  }

  lemma FinishEndsAttempt(c: Config, h1: bool, s: State, a: Action, t: State, id: JobId)
    requires Step(c, h1, s, a, t) && (a.Complete? || a.Fail? || a.Cancel?)
    ensures OwnMove(c, s, a, t, a.w, id)
  {
  }

  lemma ClaimBeginsAttempt(c: Config, h1: bool, s: State, a: Action, t: State, id: JobId)
    requires Inv(c, s) && Step(c, h1, s, a, t) && a.ClaimUpdate?
    ensures OwnMove(c, s, a, t, a.w, id)
  {
    assert RowOk(c, s.jobs[s.At(a.w).id]);
  }

  lemma CrashEndsAttempt(c: Config, h1: bool, s: State, a: Action, t: State, id: JobId)
    requires Step(c, h1, s, a, t) && a.Crash?
    ensures OwnMove(c, s, a, t, a.w, id)
  {
  }

  lemma OthersKeepAttempt(c: Config, h1: bool, s: State, a: Action, t: State, id: JobId)
    requires Step(c, h1, s, a, t) && ActorOf(a).Some?
    requires !a.Complete? && !a.Fail? && !a.Cancel? && !a.ClaimUpdate? && !a.Crash?
    ensures OwnMove(c, s, a, t, ActorOf(a).value, id)
  {
  }

  /** Every action balances executions against finishes, crashes and attempts still held. */
  lemma OwnersStep(c: Config, h1: bool, s: State, a: Action, t: State, id: JobId)
    requires Inv(c, s) && Step(c, h1, s, a, t)
    ensures |OwnersOf(t, id)| + One(Counts(c, s, a, id, FinishKind)) + One(KillsOwner(s, a, id))
            == |OwnersOf(s, id)| + One(Counts(c, s, a, id, FreshClaim)) + One(Counts(c, s, a, id, Reclaim))
  {
    ActorFrame(c, h1, s, a, t);
    if ActorOf(a).None? {
      assert t.pcs == s.pcs;
    } else {
      OwnersMove(s, t, ActorOf(a).value, id);
      if a.Complete? || a.Fail? || a.Cancel? {
        FinishEndsAttempt(c, h1, s, a, t, id);
      } else if a.ClaimUpdate? {
        ClaimBeginsAttempt(c, h1, s, a, t, id);
      } else if a.Crash? {
        CrashEndsAttempt(c, h1, s, a, t, id);
      } else {
        OthersKeepAttempt(c, h1, s, a, t, id);
      }
    }
  }

  /**
   Conservation of executions, in every run, H1 or not: every execution started was finished, or died with a crash
   of its actor, or is still held by an actor (at work, or stalled past its deadline).
   */
  lemma {:induction false} ExecutionsAreConserved(c: Config, h1: bool, r: Run, n: nat, id: JobId)
    requires c.Valid() && r.Valid(c, h1) && n <= |r.acts|
    ensures Executions(c, r, n, id) == Count(c, r, n, id, FinishKind) + Crashes(r, n, id) + |OwnersOf(r.states[n], id)|
  {
    if n == 0 {
      assert OwnersOf(r.states[0], id) == {};
    } else {
      ExecutionsAreConserved(c, h1, r, n - 1, id);
      Reachable(c, h1, r, n - 1);
      assert Step(c, h1, r.states[n - 1], r.acts[n - 1], r.states[n]);
      OwnersStep(c, h1, r.states[n - 1], r.acts[n - 1], r.states[n], id);
      CountsUnfolds(c, r, n - 1, id);
    }
  }

  /**
   Under H1 a job is executed at most `maxAttempts` times, plus once for every attempt that a crash killed and every
   attempt that an actor still holds.
   */
  lemma ExecutionsBound(c: Config, r: Run, n: nat, id: JobId)
    requires c.Valid() && r.Valid(c, true) && n <= |r.acts| && id in r.states[n].jobs
    ensures
      Executions(c, r, n, id) <= r.states[n].jobs[id].maxAttempts + Crashes(r, n, id) + |OwnersOf(r.states[n], id)|
  {
    AttemptsAreClaims(c, true, r, n, id);
    ClaimsBalanceFinishes(c, r, n, id);
    ExecutionsAreConserved(c, true, r, n, id);
  }

  ghost function TotalExecutions(c: Config, r: Run, n: nat, ids: seq<JobId>): nat
    requires n <= |r.acts| && |r.states| == |r.acts| + 1
  {
    if ids == [] then 0 else TotalExecutions(c, r, n, ids[1..]) + Executions(c, r, n, ids[0])
  }

  function TotalAttempts(jobs: map<JobId, Job>, ids: seq<JobId>): nat
    requires forall id :: id in ids ==> id in jobs
  {
    if ids == [] then 0 else TotalAttempts(jobs, ids[1..]) + jobs[ids[0]].maxAttempts
  }

  /** Crashes of actors in the middle of an attempt, at any job, among the first `n` actions. */
  ghost function AllCrashes(r: Run, n: nat): nat
    requires n <= |r.acts| && |r.states| == |r.acts| + 1
  {
    if n == 0 then 0
    else AllCrashes(r, n - 1) + One(r.acts[n - 1].Crash? && r.states[n - 1].At(r.acts[n - 1].w).Owns())
  }

  /** All the actors that hold an attempt. */
  ghost function AllOwners(s: State): set<Actor> {
    set w | w in s.pcs && s.pcs[w].Owns()
  }

  predicate Distinct(ids: seq<JobId>) {
    forall i, j :: 0 <= i < j < |ids| ==> ids[i] != ids[j]
  }

  /** One crash counts for one job only. */
  lemma {:induction false} CrashesSplit(r: Run, n: nat, ids: seq<JobId>)
    requires n <= |r.acts| && |r.states| == |r.acts| + 1 && Distinct(ids)
    ensures TotalCrashes(r, n, ids) <= AllCrashes(r, n)
  {
    if n == 0 {
      NoCrashes(r, ids);
    } else {
      CrashesSplit(r, n - 1, ids);
      CrashCounts(r, n, ids);
    }
  }

  ghost function TotalCrashes(r: Run, n: nat, ids: seq<JobId>): nat
    requires n <= |r.acts| && |r.states| == |r.acts| + 1
  {
    if ids == [] then 0 else TotalCrashes(r, n, ids[1..]) + Crashes(r, n, ids[0])
  }

  lemma {:induction false} NoCrashes(r: Run, ids: seq<JobId>)
    requires |r.states| == |r.acts| + 1
    ensures TotalCrashes(r, 0, ids) == 0
  {
    if ids == [] {
    } else {
      NoCrashes(r, ids[1..]);
    }
  }

  lemma {:induction false} CrashCounts(r: Run, n: nat, ids: seq<JobId>)
    requires 0 < n <= |r.acts| && |r.states| == |r.acts| + 1 && Distinct(ids)
    ensures
      var s, a := r.states[n - 1], r.acts[n - 1];
      TotalCrashes(r, n, ids)
      == TotalCrashes(r, n - 1, ids) + One(a.Crash? && s.At(a.w).Owns() && s.At(a.w).id in ids)
  {
    if ids == [] {
    } else {
      assert forall i :: 0 <= i < |ids[1..]| ==> ids[1..][i] == ids[i + 1];
      CrashCounts(r, n, ids[1..]);
      assert forall id :: id in ids <==> id == ids[0] || id in ids[1..];
      assert ids[0] !in ids[1..];
    }
  }

  ghost function TotalOwners(s: State, ids: seq<JobId>): nat {
    if ids == [] then 0 else TotalOwners(s, ids[1..]) + |OwnersOf(s, ids[0])|
  }

  /** The owners of the given jobs. */
  ghost function OwnersAmong(s: State, ids: seq<JobId>): set<Actor> {
    set w | w in s.pcs && s.pcs[w].Owns() && s.pcs[w].id in ids
  }

  lemma {:induction false} OwnersSplit(s: State, ids: seq<JobId>)
    requires Distinct(ids)
    ensures TotalOwners(s, ids) == |OwnersAmong(s, ids)|
  {
    if ids == [] {
      assert OwnersAmong(s, ids) == {};
    } else {
      assert forall i :: 0 <= i < |ids[1..]| ==> ids[1..][i] == ids[i + 1];
      OwnersSplit(s, ids[1..]);
      assert ids[0] !in ids[1..];
      var x, y := OwnersOf(s, ids[0]), OwnersAmong(s, ids[1..]);
      assert x !! y && OwnersAmong(s, ids) == x + y;
    }
  }

  lemma {:induction false} TotalByJob(c: Config, r: Run, n: nat, ids: seq<JobId>)
    requires c.Valid() && r.Valid(c, true) && n <= |r.acts|
    requires forall id :: id in ids ==> id in r.states[n].jobs
    ensures TotalExecutions(c, r, n, ids) <= TotalAttempts(r.states[n].jobs, ids) + TotalCrashes(r, n, ids) + TotalOwners(r.states[n], ids)
  {
    if ids == [] {
    } else {
      TotalByJob(c, r, n, ids[1..]);
      ExecutionsBound(c, r, n, ids[0]);
    }
  }

  /**
   Over any list of different jobs, a run starts at most as many executions as their `maxAttempts` add up to, plus
   the crashes of actors in the middle of an attempt, plus the actors that still hold one.
   */
  lemma TotalExecutionsBound(c: Config, r: Run, n: nat, ids: seq<JobId>)
    requires c.Valid() && r.Valid(c, true) && n <= |r.acts| && Distinct(ids)
    requires forall id :: id in ids ==> id in r.states[n].jobs
    ensures
      TotalExecutions(c, r, n, ids)
      <= TotalAttempts(r.states[n].jobs, ids) + AllCrashes(r, n) + |AllOwners(r.states[n])|
  {
    TotalByJob(c, r, n, ids);
    CrashesSplit(r, n, ids);
    OwnersSplit(r.states[n], ids);
    Subset(OwnersAmong(r.states[n], ids), AllOwners(r.states[n]));
  }

  lemma {:induction false} Subset(x: set<Actor>, y: set<Actor>)
    requires x <= y
    ensures |x| <= |y|
  {
    if x == {} {
    } else {
      var w :| w in x;
      Subset(x - {w}, y - {w});
    }
  }

  // ---------------------------------------------------------------- a measure

  /** Reclaims left in the budget, claims left for the job, and whether it is running. */
  ghost function Measure(c: Config, r: Run, n: nat, id: JobId, budget: nat): (int, int, nat)
    requires n <= |r.acts| && |r.states| == |r.acts| + 1 && id in r.states[n].jobs
  {
    (budget - Count(c, r, n, id, Reclaim),
     r.states[n].jobs[id].maxAttempts - Count(c, r, n, id, FreshClaim),
     RunningFlag(r.states[n], id))
  }

  ghost predicate Below(x: (int, int, nat), y: (int, int, nat)) {
    || x.0 < y.0
    || (x.0 == y.0 && x.1 < y.1)
    || (x.0 == y.0 && x.1 == y.1 && x.2 < y.2)
  }

  /** The action claims the job, from QUEUED or stale. */
  ghost predicate Claims(c: Config, s: State, a: Action, id: JobId) {
    Counts(c, s, a, id, FreshClaim) || Counts(c, s, a, id, Reclaim)
  }

  /** A fresh claim, a reclaim and a finish each take one off an entry of the measure. */
  ghost predicate Lowers(c: Config, s: State, a: Action, id: JobId, y: (int, int, nat), x: (int, int, nat)) {
    && x.0 == y.0 - One(Counts(c, s, a, id, Reclaim)) && x.1 == y.1 - One(Counts(c, s, a, id, FreshClaim))
    && x.2 + One(Counts(c, s, a, id, FinishKind)) == y.2 + One(Counts(c, s, a, id, FreshClaim))
  }

  /** The measure is bounded below; its third entry is a natural number. */
  predicate Floored(x: (int, int, nat)) {
    0 <= x.0 && 0 <= x.1
  }

  lemma LowersIsBelow(c: Config, s: State, a: Action, id: JobId, y: (int, int, nat), x: (int, int, nat))
    requires Lowers(c, s, a, id, y, x)
    ensures if Claims(c, s, a, id) || Counts(c, s, a, id, FinishKind) then Below(x, y) else x == y
  {
    OneCountOnly(c, s, a, id);
  }

  /** While the reclaim budget lasts, no entry of the measure is negative. */
  lemma MeasureIsBounded(c: Config, r: Run, n: nat, id: JobId, budget: nat)
    requires c.Valid() && r.Valid(c, true) && n <= |r.acts| && id in r.states[n].jobs
    requires Count(c, r, n, id, Reclaim) <= budget
    ensures Floored(Measure(c, r, n, id, budget))
  {
    AttemptsAreClaims(c, true, r, n, id);
  }

  /**
   Every claim and every finish of a job lowers its measure and no other action changes it. With the floor of
   `MeasureIsBounded`, a job is only claimed and finished finitely often for a finite reclaim budget.
   */
  lemma MeasureDecreases(c: Config, r: Run, n: nat, id: JobId, budget: nat)
    requires c.Valid() && r.Valid(c, true) && n < |r.acts| && id in r.states[n].jobs
    ensures id in r.states[n + 1].jobs
    ensures
      var x, y := Measure(c, r, n + 1, id, budget), Measure(c, r, n, id, budget);
      if Claims(c, r.states[n], r.acts[n], id) || Counts(c, r.states[n], r.acts[n], id, FinishKind) then Below(x, y)
      else x == y
  {
    MeasureMoves(c, r, n, id, budget);
    LowersIsBelow(c, r.states[n], r.acts[n], id, Measure(c, r, n, id, budget), Measure(c, r, n + 1, id, budget));
  }

  lemma MeasureMoves(c: Config, r: Run, n: nat, id: JobId, budget: nat)
    requires c.Valid() && r.Valid(c, true) && n < |r.acts| && id in r.states[n].jobs
    ensures id in r.states[n + 1].jobs
    ensures
      Lowers(c, r.states[n], r.acts[n], id, Measure(c, r, n, id, budget), Measure(c, r, n + 1, id, budget))
  {
    Reachable(c, true, r, n);
    var s, a, t := r.states[n], r.acts[n], r.states[n + 1];
    assert Step(c, true, s, a, t);
    AttemptStep(c, true, s, a, t, id);
    FlagStep(c, s, a, t, id);
    CountsUnfolds(c, r, n, id);
  }

  lemma CountsUnfolds(c: Config, r: Run, n: nat, id: JobId)
    requires n < |r.acts| && |r.states| == |r.acts| + 1
    ensures forall kind :: Count(c, r, n + 1, id, kind) ==
              Count(c, r, n, id, kind) + if Counts(c, r.states[n], r.acts[n], id, kind) then 1 else 0
  {
  }

  // ---------------------------------------------------------------- destructive jobs

  /** The folder jobs never return to QUEUED, in any run, H1 or not; so they are claimed afresh only once. */
  lemma {:induction false} FolderJobsNeverRequeue(c: Config, h1: bool, r: Run, m: nat, n: nat, id: JobId)
    requires c.Valid() && r.Valid(c, h1) && m <= n <= |r.acts| && id in r.states[m].jobs
    requires r.states[m].jobs[id].kind in {FolderRename, FolderDelete}
    ensures id in r.states[n].jobs && r.states[n].jobs[id].kind == r.states[m].jobs[id].kind
    ensures !r.states[m].jobs[id].status.Queued? ==> !r.states[n].jobs[id].status.Queued?
    ensures Count(c, r, n, id, FreshClaim) <= 1
    decreases n - m
  {
    if m < n {
      FolderJobsNeverRequeue(c, h1, r, m, n - 1, id);
      Reachable(c, h1, r, n - 1);
      var s, a, t := r.states[n - 1], r.acts[n - 1], r.states[n];
      assert Step(c, h1, s, a, t) && RowOk(c, s.jobs[id]);
      RowFrame(c, h1, s, a, t);
      AttemptStep(c, h1, s, a, t, id);
    }
    AttemptsAreClaims(c, h1, r, n, id);
  }

  // ---------------------------------------------------------------- cancellation

  lemma {:induction false} CancelRequestPersists(c: Config, h1: bool, r: Run, m: nat, n: nat, id: JobId)
    requires r.Valid(c, h1) && m <= n <= |r.acts|
    requires id in r.states[m].jobs && r.states[m].jobs[id].cancelRequestedAt.Some?
    ensures id in r.states[n].jobs && r.states[n].jobs[id].cancelRequestedAt.Some?
    decreases n - m
  {
    if m < n {
      CancelRequestPersists(c, h1, r, m, n - 1, id);
      assert Step(c, h1, r.states[n - 1], r.acts[n - 1], r.states[n]);
      CancelRequestStays(c, h1, r.states[n - 1], r.acts[n - 1], r.states[n], id);
    }
  }

  /** Once cancellation is requested, an attempt that starts cancels instead of beginning the job body. */
  lemma NoWorkAfterCancelRequest(c: Config, h1: bool, r: Run, m: nat, n: nat, id: JobId, w: Actor)
    requires r.Valid(c, h1) && m <= n < |r.acts|
    requires id in r.states[m].jobs && r.states[m].jobs[id].cancelRequestedAt.Some?
    requires r.acts[n] == CheckStart(w) && Subject(r.states[n].At(w)) == Some(id)
    ensures r.states[n + 1].At(w).Canceling?
  {
    CancelRequestPersists(c, h1, r, m, n, id);
    assert Step(c, h1, r.states[n], r.acts[n], r.states[n + 1]);
  }

  /** A CANCELED job was asked to cancel. */
  lemma CanceledWasRequested(c: Config, h1: bool, r: Run, n: nat, id: JobId)
    requires c.Valid() && r.Valid(c, h1) && n <= |r.acts|
    requires id in r.states[n].jobs && r.states[n].jobs[id].status.Canceled?
    ensures r.states[n].jobs[id].cancelRequestedAt.Some?
  {
    Reachable(c, h1, r, n);
  }
}
