/**
 Safety of the job queue over whole runs: one executing worker per job, absorbing terminal statuses,
 and at most one terminal event per job. The lemmas that need H1 take steps with `h1 == true`.
 */
module JobSafety {
  import opened Base
  import opened Jobs
  import opened JobQueue

  // ---------------------------------------------------------------- invariants

  /** The job an actor is dealing with, if any. */
  ghost function Subject(pc: Pc): Option<JobId> {
    match pc
    case Idle => None
    case Scanning(_, _) => None
    case _ => Some(pc.id)
  }

  /** The lock value an actor drew for its claim. */
  ghost function TokenOf(pc: Pc): Option<Token> {
    match pc
    case Locked(_, _, _, _, _, token) => Some(token)
    case Backout(_, token) => Some(token)
    case Starting(_, token, _, _) => Some(token)
    case Working(_, token, _) => Some(token)
    case Canceling(_, token, _) => Some(token)
    case _ => None
  }

  /** Facts about one actor that hold in every run, H1 or not. */
  ghost predicate ActorOk(s: State, pc: Pc) {
    && (Subject(pc).Some? ==> Subject(pc).value in s.jobs)
    && (TokenOf(pc).Some? ==> TokenOf(pc).value < s.nextToken)
    && ((pc.Scanning? || pc.Picked? || pc.Locked?) ==> pc.staleFrom <= pc.now <= s.clock)
    && (pc.Owns() ==> pc.claimedAt <= s.clock)
    && (pc.Canceling? ==> s.jobs[pc.id].cancelRequestedAt.Some?)
    && (pc.Starting? ==> forall e :: e in pc.pending ==> !TerminalEvent(e))
  }

  /** Facts about one row that hold in every run, H1 or not. */
  ghost predicate RowOk(c: Config, row: Job) {
    && row.retryable == RetryPolicy(c, row.kind).retryable
    && row.maxAttempts == RetryPolicy(c, row.kind).maxAttempts
    && (row.status.Queued? ==> row.lockKey.None? && row.lockedAt.None? && row.attemptCount < row.maxAttempts)
    && (row.status.Running? ==> row.lockKey.Some? && row.lockedAt.Some?)
    && (row.status.Canceled? ==> row.cancelRequestedAt.Some?)
    && (row.status.Failed? && row.retryable ==> row.attemptCount >= row.maxAttempts)
  }

  ghost predicate Inv(c: Config, s: State) {
    && (forall w :: w in s.pcs ==> ActorOk(s, s.pcs[w]))
    && (forall id :: id in s.jobs ==> RowOk(c, s.jobs[id]))
    && (forall id :: id in s.log ==> id in s.jobs)
    && (forall v, w :: v in s.pcs && w in s.pcs && v != w && TokenOf(s.pcs[v]).Some? ==>
          TokenOf(s.pcs[v]) != TokenOf(s.pcs[w]))
  }

  lemma InitInv(c: Config, s: State)
    requires Init(s)
    ensures Inv(c, s)
  {
  }

  /** The job whose row an action may update. */
  ghost function Touched(c: Config, s: State, a: Action): Option<JobId>
    requires Enabled(c, s, a)
  {
    match a
    case Enqueue(_, id, _) => Some(id)
    case RequestCancel(_, id) => Some(id)
    case ClaimUpdate(w) =>
      if Claimable(s.jobs[s.At(w).id], s.At(w).now, s.At(w).staleFrom - c.Ttl()) then Some(s.At(w).id) else None
    case Complete(w) => Some(s.At(w).id)
    case Fail(w) => Some(s.At(w).id)
    case Cancel(w) => Some(s.At(w).id)
    case _ => None
  }

  /** The actor that takes an action, if one does. */
  ghost function ActorOf(a: Action): Option<Actor> {
    match a
    case Tick(_) => None
    case Annotate(_, _) => None
    case _ => Some(a.w)
  }

  /** What an action makes of the row it touches. */
  ghost function Updated(c: Config, s: State, a: Action): Job
    requires Enabled(c, s, a) && Touched(c, s, a).Some?
  {
    match a
    case Enqueue(_, _, kind) => NewJob(c, kind, s.clock)
    case RequestCancel(_, id) => RequestCancelRow(s.jobs[id], s.clock)
    case ClaimUpdate(w) => ClaimRow(s.jobs[s.At(w).id], s.At(w).startedAt, s.At(w).now, s.At(w).token)
    case Complete(w) => CompleteRow(s.jobs[s.At(w).id], s.clock)
    case Fail(w) => FailRow(c, s.jobs[s.At(w).id], s.clock)
    case Cancel(w) => CancelRow(s.jobs[s.At(w).id], s.clock)
  }

  /** The rows after an action: the touched one is updated, the others stay as they are. */
  ghost function RowsAfter(c: Config, s: State, a: Action): map<JobId, Job>
    requires Enabled(c, s, a)
  {
    match Touched(c, s, a)
    case None => s.jobs
    case Some(id) => s.jobs[id := Updated(c, s, a)]
  }

  lemma FinishRows(c: Config, s: State, a: Action)
    requires Enabled(c, s, a) && (a.Complete? || a.Fail? || a.Cancel?)
    ensures Apply(c, s, a).jobs == RowsAfter(c, s, a)
  {
  }

  lemma ClaimRows(c: Config, s: State, a: Action)
    requires Enabled(c, s, a)
    requires a.BeginClaim? || a.Pick? || a.NoCandidate? || a.Acquire? || a.ClaimUpdate? || a.UndoLock?
    ensures Apply(c, s, a).jobs == RowsAfter(c, s, a)
  {
  }

  lemma OtherRows(c: Config, s: State, a: Action)
    requires Enabled(c, s, a) && !a.Complete? && !a.Fail? && !a.Cancel?
    requires !a.BeginClaim? && !a.Pick? && !a.NoCandidate? && !a.Acquire? && !a.ClaimUpdate? && !a.UndoLock?
    ensures Apply(c, s, a).jobs == RowsAfter(c, s, a)
  {
  }

  lemma RowsApplied(c: Config, s: State, a: Action)
    requires Enabled(c, s, a)
    ensures Apply(c, s, a).jobs == RowsAfter(c, s, a)
  {
    if a.Complete? || a.Fail? || a.Cancel? {
      FinishRows(c, s, a);
    } else if a.BeginClaim? || a.Pick? || a.NoCandidate? || a.Acquire? || a.ClaimUpdate? || a.UndoLock? {
      ClaimRows(c, s, a);
    } else {
      OtherRows(c, s, a);
    }
  }

  /** Rows that an action does not touch stay as they are, the touched one is updated, and no row is ever removed. */
  lemma RowFrame(c: Config, h1: bool, s: State, a: Action, t: State)
    requires Step(c, h1, s, a, t)
    ensures t.jobs == RowsAfter(c, s, a)
    ensures forall id :: id in t.jobs <==> id in s.jobs || Touched(c, s, a) == Some(id)
    ensures forall id :: id in s.jobs && Touched(c, s, a) != Some(id) ==> t.jobs[id] == s.jobs[id]
  {
    RowsApplied(c, s, a);
  }

  ghost predicate ActorFramed(s: State, a: Action, t: State) {
    && (forall w: Actor :: ActorOf(a) != Some(w) ==> (w in t.pcs <==> w in s.pcs) && t.At(w) == s.At(w))
    && (ActorOf(a).Some? ==> ActorOf(a).value in t.pcs)
    && s.clock <= t.clock && s.nextToken <= t.nextToken
  }

  lemma RequestFrame(c: Config, s: State, a: Action)
    requires Enabled(c, s, a) && (a.Tick? || a.Enqueue? || a.RequestCancel? || a.Annotate?)
    ensures ActorFramed(s, a, Apply(c, s, a))
  {
  }

  lemma ClaimFrame(c: Config, s: State, a: Action)
    requires Enabled(c, s, a)
    requires a.BeginClaim? || a.Pick? || a.NoCandidate? || a.Acquire? || a.ClaimUpdate? || a.UndoLock?
    ensures ActorFramed(s, a, Apply(c, s, a))
  {
  }

  lemma WorkFrame(c: Config, s: State, a: Action)
    requires Enabled(c, s, a) && (a.Emit? || a.CheckStart? || a.Observe? || a.Done? || a.Crash?)
    ensures ActorFramed(s, a, Apply(c, s, a))
  {
  }

  lemma FinishFrame(c: Config, s: State, a: Action)
    requires Enabled(c, s, a) && (a.Complete? || a.Fail? || a.Cancel?)
    ensures ActorFramed(s, a, Apply(c, s, a))
  {
  }

  /** An action moves only the actor that takes it. */
  lemma ActorFrame(c: Config, h1: bool, s: State, a: Action, t: State)
    requires Step(c, h1, s, a, t)
    ensures ActorFramed(s, a, t)
  {
    if a.Complete? || a.Fail? || a.Cancel? {
      FinishFrame(c, s, a);
    } else if a.Emit? || a.CheckStart? || a.Observe? || a.Done? || a.Crash? {
      WorkFrame(c, s, a);
    } else if a.Tick? || a.Enqueue? || a.RequestCancel? || a.Annotate? {
      RequestFrame(c, s, a);
    } else {
      ClaimFrame(c, s, a);
    }
  }

  /** The row updates keep the row invariant. */
  lemma RowUpdatesOk(c: Config, row: Job, startedAt: Option<Time>, now: Time, token: Token)
    requires RowOk(c, row)
    ensures RowOk(c, ClaimRow(row, startedAt, now, token)) && RowOk(c, CompleteRow(row, now))
    ensures RowOk(c, FailRow(c, row, now)) && RowOk(c, CancelRow(row, now)) && RowOk(c, RequestCancelRow(row, now))
  {
  }

  lemma NewJobOk(c: Config, kind: JobType, now: Time)
    requires c.Valid()
    ensures RowOk(c, NewJob(c, kind, now))
  {
  }

  lemma UpdatedOk(c: Config, s: State, a: Action)
    requires c.Valid() && Inv(c, s) && Enabled(c, s, a) && Touched(c, s, a).Some?
    ensures RowOk(c, Updated(c, s, a))
  {
    var id := Touched(c, s, a).value;
    if a.Enqueue? {
      NewJobOk(c, a.kind, s.clock);
    } else {
      assert RowOk(c, s.jobs[id]);
      RowUpdatesOk(c, s.jobs[id], None, s.clock, 0);
      if a.ClaimUpdate? {
        RowUpdatesOk(c, s.jobs[id], s.At(a.w).startedAt, s.At(a.w).now, s.At(a.w).token);
      }
    }
  }

  lemma RowsStep(c: Config, h1: bool, s: State, a: Action, t: State)
    requires c.Valid() && Inv(c, s) && Step(c, h1, s, a, t)
    ensures forall id :: id in t.jobs ==> RowOk(c, t.jobs[id])
  {
    RowFrame(c, h1, s, a, t);
    if Touched(c, s, a).Some? {
      UpdatedOk(c, s, a);
    }
    forall id | id in t.jobs
      ensures RowOk(c, t.jobs[id])
    {
      assert Touched(c, s, a) != Some(id) ==> t.jobs[id] == s.jobs[id];
    }
  }

  /** Cancellation requests are never withdrawn. */
  lemma CancelRequestStays(c: Config, h1: bool, s: State, a: Action, t: State, id: JobId)
    requires Step(c, h1, s, a, t) && id in s.jobs && s.jobs[id].cancelRequestedAt.Some?
    ensures id in t.jobs && t.jobs[id].cancelRequestedAt.Some?
  {
    RowFrame(c, h1, s, a, t);
  }

  /** The events written when an attempt starts are never terminal ones. */
  lemma ClaimEventsAreNotTerminal(row: Job, stale: bool)
    ensures forall e :: e in ClaimEvents(row, stale) ==> !TerminalEvent(e)
  {
  }

  lemma {:induction false} ClaimMoverOk(c: Config, s: State, w: Actor)
    requires Inv(c, s) && s.At(w).Locked? && s.At(w).id in s.jobs
    ensures ActorOk(ApplyClaim(c, s, w), ApplyClaim(c, s, w).At(w))
    ensures TokenOf(ApplyClaim(c, s, w).At(w)) == TokenOf(s.At(w))
  {
    assert ActorOk(s, s.pcs[w]);
    var row, pc := s.jobs[s.At(w).id], s.At(w);
    ClaimEventsAreNotTerminal(ClaimRow(row, pc.startedAt, pc.now, pc.token), pc.wasRunning);
  }

  lemma {:induction false} EmitMoverOk(c: Config, s: State, w: Actor)
    requires Inv(c, s) && (s.At(w).Starting? || s.At(w).Tail?) && s.At(w).pending != []
    ensures ActorOk(ApplyEmit(s, w), ApplyEmit(s, w).At(w))
    ensures TokenOf(ApplyEmit(s, w).At(w)) == TokenOf(s.At(w))
  {
    assert ActorOk(s, s.pcs[w]);
    assert forall e :: e in s.At(w).pending[1..] ==> e in s.At(w).pending;
  }

  lemma AcquireMoverOk(c: Config, s: State, w: Actor)
    requires Inv(c, s) && s.At(w).Picked?
    ensures ActorOk(ApplyAcquire(c, s, w), ApplyAcquire(c, s, w).At(w))
    ensures TokenOf(ApplyAcquire(c, s, w).At(w)) in {None, Some(s.nextToken)}
  {
    assert ActorOk(s, s.pcs[w]);
  }

  lemma FinishMoverOk(c: Config, s: State, w: Actor, row: Job, events: seq<Event>)
    requires Inv(c, s) && s.At(w).Owns()
    requires s.At(w).id in s.jobs
    ensures ActorOk(Finish(s, w, row, events), Finish(s, w, row, events).At(w))
    ensures TokenOf(Finish(s, w, row, events).At(w)) == None
  {
  }

  /** Where an actor stands after its own action is again in order. */
  ghost predicate MoverFine(s: State, t: State, w: Actor) {
    && ActorOk(t, t.At(w))
    && TokenOf(t.At(w)) in {None, Some(s.nextToken), TokenOf(s.At(w))}
  }

  lemma EnteringMoverOk(c: Config, s: State, a: Action)
    requires Inv(c, s) && Enabled(c, s, a) && (a.Enqueue? || a.RequestCancel? || a.BeginClaim? || a.Pick?)
    ensures MoverFine(s, Apply(c, s, a), a.w)
  {
    assert a.w in s.pcs ==> ActorOk(s, s.pcs[a.w]);
  }

  lemma LeavingMoverOk(c: Config, s: State, a: Action)
    requires Enabled(c, s, a) && (a.NoCandidate? || a.UndoLock? || a.Done? || a.Crash?)
    ensures MoverFine(s, Apply(c, s, a), a.w)
  {
    assert Apply(c, s, a).At(a.w) == Idle;
  }

  lemma ObservingMoverOk(c: Config, s: State, a: Action)
    requires Inv(c, s) && Enabled(c, s, a) && (a.CheckStart? || a.Observe?)
    ensures MoverFine(s, Apply(c, s, a), a.w)
  {
    assert ActorOk(s, s.pcs[a.w]);
  }

  lemma FinishingMoverOk(c: Config, s: State, a: Action)
    requires Inv(c, s) && Enabled(c, s, a) && (a.Complete? || a.Fail? || a.Cancel?)
    ensures MoverFine(s, Apply(c, s, a), a.w)
  {
    var row := s.jobs[s.At(a.w).id];
    match a {
      case Complete(w) => FinishMoverOk(c, s, w, CompleteRow(row, s.clock), [EvCompleted]);
      case Cancel(w) => FinishMoverOk(c, s, w, CancelRow(row, s.clock), [EvCanceled]);
      case Fail(w) => FinishMoverOk(c, s, w, FailRow(c, row, s.clock), FailEvents(row));
    }
  }

  lemma ClaimingMoverOk(c: Config, s: State, a: Action)
    requires Inv(c, s) && Enabled(c, s, a) && (a.Acquire? || a.ClaimUpdate? || a.Emit?)
    ensures MoverFine(s, Apply(c, s, a), a.w)
  {
    match a {
      case Acquire(w) => AcquireMoverOk(c, s, w);
      case ClaimUpdate(w) => ClaimMoverOk(c, s, w);
      case Emit(w) => EmitMoverOk(c, s, w);
    }
  }

  lemma {:induction false} MoverOk(c: Config, h1: bool, s: State, a: Action, t: State)
    requires Inv(c, s) && Step(c, h1, s, a, t) && ActorOf(a).Some?
    ensures MoverFine(s, t, ActorOf(a).value)
  {
    var w := ActorOf(a).value;
    match a {
      case Acquire(_) => ClaimingMoverOk(c, s, a);
      case ClaimUpdate(_) => ClaimingMoverOk(c, s, a);
      case Emit(_) => ClaimingMoverOk(c, s, a);
      case Complete(_) => FinishingMoverOk(c, s, a);
      case Fail(_) => FinishingMoverOk(c, s, a);
      case Cancel(_) => FinishingMoverOk(c, s, a);
      case CheckStart(_) => ObservingMoverOk(c, s, a);
      case Observe(_) => ObservingMoverOk(c, s, a);
      case NoCandidate(_) => LeavingMoverOk(c, s, a);
      case UndoLock(_) => LeavingMoverOk(c, s, a);
      case Done(_) => LeavingMoverOk(c, s, a);
      case Crash(_) => LeavingMoverOk(c, s, a);
      case _ => EnteringMoverOk(c, s, a);
    }
  }

  /** Every actor is in order after an action. */
  lemma ActorsStep(c: Config, h1: bool, s: State, a: Action, t: State)
    requires Inv(c, s) && Step(c, h1, s, a, t)
    ensures forall w :: w in t.pcs ==> ActorOk(t, t.pcs[w])
  {
    RowFrame(c, h1, s, a, t);
    ActorFrame(c, h1, s, a, t);
    if ActorOf(a).Some? {
      MoverOk(c, h1, s, a, t);
    }
    forall w | w in t.pcs
      ensures ActorOk(t, t.pcs[w])
    {
      if ActorOf(a) != Some(w) {
        BystanderOk(c, h1, s, a, t, w);
      }
    }
  }

  lemma BystanderOk(c: Config, h1: bool, s: State, a: Action, t: State, w: Actor)
    requires Inv(c, s) && Step(c, h1, s, a, t) && w in s.pcs && t.At(w) == s.At(w)
    requires s.clock <= t.clock && s.nextToken <= t.nextToken && forall id :: id in s.jobs ==> id in t.jobs
    ensures ActorOk(t, t.At(w))
  {
    assert ActorOk(s, s.pcs[w]);
    if s.pcs[w].Canceling? {
      CancelRequestStays(c, h1, s, a, t, s.pcs[w].id);
    }
  }

  lemma LogStep(c: Config, h1: bool, s: State, a: Action, t: State)
    requires Inv(c, s) && Step(c, h1, s, a, t)
    ensures forall id :: id in t.log ==> id in t.jobs
  {
    RowFrame(c, h1, s, a, t);
    LogFrame(c, h1, s, a, t);
    if ActorOf(a).Some? && ActorOf(a).value in s.pcs {
      assert ActorOk(s, s.pcs[ActorOf(a).value]);
    }
  }

  lemma InvStep(c: Config, h1: bool, s: State, a: Action, t: State)
    requires c.Valid() && Inv(c, s) && Step(c, h1, s, a, t)
    ensures Inv(c, t)
  {
    RowsStep(c, h1, s, a, t);
    ActorsStep(c, h1, s, a, t);
    LogStep(c, h1, s, a, t);
    ActorFrame(c, h1, s, a, t);
    if ActorOf(a).Some? {
      MoverOk(c, h1, s, a, t);
    }
    TokensStep(c, s, t, ActorOf(a));
  }

  lemma TokensStep(c: Config, s: State, t: State, m: Option<Actor>)
    requires Inv(c, s)
    requires forall w: Actor :: m != Some(w) ==> (w in t.pcs <==> w in s.pcs) && t.At(w) == s.At(w)
    requires m.Some? ==> TokenOf(t.At(m.value)) in {None, Some(s.nextToken), TokenOf(s.At(m.value))}
    ensures forall v, w :: v in t.pcs && w in t.pcs && v != w && TokenOf(t.pcs[v]).Some? ==>
              TokenOf(t.pcs[v]) != TokenOf(t.pcs[w])
  {
    forall v, w | v in t.pcs && w in t.pcs && v != w && TokenOf(t.pcs[v]).Some?
      ensures TokenOf(t.pcs[v]) != TokenOf(t.pcs[w])
    {
      assert t.pcs[v] == t.At(v) && t.pcs[w] == t.At(w);
      if v in s.pcs { assert ActorOk(s, s.pcs[v]); }
      if w in s.pcs { assert ActorOk(s, s.pcs[w]); }
    }
  }

  /** An action writes events only for the job its actor deals with, or an annotated one. */
  lemma LogFrame(c: Config, h1: bool, s: State, a: Action, t: State)
    requires Step(c, h1, s, a, t)
    ensures forall id :: id in t.log ==>
              || id in s.log
              || (a.Annotate? && a.id == id && id in s.jobs)
              || (ActorOf(a).Some? && Subject(s.At(ActorOf(a).value)) == Some(id))
  {
  }

  // ---------------------------------------------------------------- one executing worker per job

  /** An attempt that is within its deadline is the attempt recorded in the row. */
  ghost predicate OwnerOk(c: Config, s: State, w: Actor) {
    InTime(c, s, w) ==>
      var pc := s.At(w);
      && pc.id in s.jobs
      && s.jobs[pc.id].status.Running?
      && s.jobs[pc.id].lockKey == Some(pc.token)
      && s.jobs[pc.id].lockedAt == Some(pc.claimedAt)
  }

  ghost predicate Owners(c: Config, s: State) {
    forall w: Actor :: OwnerOk(c, s, w)
  }

  /** The conditional update refuses to take a job from an attempt that is within its deadline. */
  lemma ClaimSparesLiveAttempt(c: Config, s: State, w: Actor, v: Actor)
    requires Inv(c, s) && OwnerOk(c, s, v) && InTime(c, s, v)
    requires s.At(w).Locked? && s.At(w).id == s.At(v).id
    ensures !Claimable(s.jobs[s.At(w).id], s.At(w).now, s.At(w).staleFrom - c.Ttl())
  {
    assert ActorOk(s, s.pcs[w]);
  }

  /** Two attempts within their deadlines at the same job are the same attempt. */
  lemma OneLiveAttempt(c: Config, s: State, v: Actor, w: Actor)
    requires Inv(c, s) && OwnerOk(c, s, v) && OwnerOk(c, s, w)
    requires InTime(c, s, v) && InTime(c, s, w) && s.At(v).id == s.At(w).id
    ensures v == w
  {
    assert TokenOf(s.pcs[v]) == TokenOf(s.pcs[w]);
  }

  lemma OwnerStepOther(c: Config, s: State, a: Action, t: State, v: Actor)
    requires Inv(c, s) && Owners(c, s) && Step(c, true, s, a, t) && ActorOf(a) != Some(v)
    ensures OwnerOk(c, t, v)
  {
    ActorFrame(c, true, s, a, t);
    RowFrame(c, true, s, a, t);
    assert OwnerOk(c, s, v);
    if InTime(c, t, v) && Touched(c, s, a) == Some(s.At(v).id) {
      var w := ActorOf(a).value;
      if a.ClaimUpdate? {
        ClaimSparesLiveAttempt(c, s, w, v);
      } else if InTime(c, s, w) {
        assert OwnerOk(c, s, w);
        OneLiveAttempt(c, s, v, w);
      }
    }
  }

  /** A claim records itself in the row. */
  lemma ClaimOwns(c: Config, s: State, v: Actor)
    requires s.At(v).Locked? && s.At(v).id in s.jobs
    ensures OwnerOk(c, ApplyClaim(c, s, v), v)
  {
  }

  /** An attempt that goes on touches no row and keeps its claim. */
  lemma OwnerContinues(c: Config, s: State, a: Action, t: State, v: Actor)
    requires Step(c, true, s, a, t) && ActorOf(a) == Some(v) && !a.ClaimUpdate? && t.At(v).Owns()
    ensures Touched(c, s, a).None? && s.At(v).Owns() && t.clock == s.clock
    ensures t.At(v).id == s.At(v).id && t.At(v).token == s.At(v).token && t.At(v).claimedAt == s.At(v).claimedAt
  {
  }

  lemma OwnerStepSelf(c: Config, s: State, a: Action, t: State, v: Actor)
    requires Owners(c, s) && Step(c, true, s, a, t) && ActorOf(a) == Some(v)
    ensures OwnerOk(c, t, v)
  {
    assert OwnerOk(c, s, v);
    if a.ClaimUpdate? {
      ClaimOwns(c, s, v);
    } else if t.At(v).Owns() {
      OwnerContinues(c, s, a, t, v);
      RowFrame(c, true, s, a, t);
    }
  }

  // ---------------------------------------------------------------- statuses under H1

  /**
   Under H1 only these status changes exist. In particular a terminal status never changes, and
   only an enqueue makes a job active.
   */
  ghost predicate StatusMove(a: Action, before: Status, after: Status) {
    || after == before
    || (a.RequestCancel? && before.Queued? && after.Canceled?)
    || (a.ClaimUpdate? && before.Queued? && after.Running?)
    || (a.Complete? && before.Running? && after.Completed?)
    || (a.Cancel? && before.Running? && after.Canceled?)
    || (a.Fail? && before.Running? && (after.Queued? || after.Failed?))
  }

  lemma StatusStep(c: Config, s: State, a: Action, t: State, id: JobId)
    requires Inv(c, s) && Owners(c, s) && Step(c, true, s, a, t) && id in s.jobs
    ensures id in t.jobs && StatusMove(a, s.jobs[id].status, t.jobs[id].status)
    ensures Terminal(s.jobs[id].status) ==> t.jobs[id].status == s.jobs[id].status
  {
    RowFrame(c, true, s, a, t);
    if Touched(c, s, a) == Some(id) && ActorOf(a).Some? {
      assert OwnerOk(c, s, ActorOf(a).value);
    }
  }

  lemma {:induction false} Reachable(c: Config, h1: bool, r: Run, n: nat)
    requires c.Valid() && r.Valid(c, h1) && n <= |r.acts|
    ensures Inv(c, r.states[n])
    ensures h1 ==> Owners(c, r.states[n])
  {
    if n == 0 {
      InitInv(c, r.states[0]);
    } else {
      Reachable(c, h1, r, n - 1);
      var s, a, t := r.states[n - 1], r.acts[n - 1], r.states[n];
      assert Step(c, h1, s, a, t);
      InvStep(c, h1, s, a, t);
      if h1 {
        forall v: Actor
          ensures OwnerOk(c, t, v)
        {
          if ActorOf(a) == Some(v) { OwnerStepSelf(c, s, a, t, v); } else { OwnerStepOther(c, s, a, t, v); }
        }
      }
    }
  }

  /** No reachable state has two workers executing the same job within their deadlines. */
  lemma MutualExclusion(c: Config, r: Run, n: nat, v: Actor, w: Actor)
    requires c.Valid() && r.Valid(c, true) && n <= |r.acts|
    requires InTime(c, r.states[n], v)
    ensures
      var s := r.states[n];
      var pc := s.At(v);
      && pc.id in s.jobs && s.jobs[pc.id].status.Running?
      && s.jobs[pc.id].lockKey == Some(pc.token) && s.jobs[pc.id].lockedAt == Some(pc.claimedAt)
      && (InTime(c, s, w) && s.At(w).id == pc.id ==> v == w)
  {
    Reachable(c, true, r, n);
    var s := r.states[n];
    assert OwnerOk(c, s, v) && OwnerOk(c, s, w);
    if InTime(c, s, w) && s.At(w).id == s.At(v).id {
      OneLiveAttempt(c, s, v, w);
    }
  }

  /** COMPLETED, FAILED and CANCELED are absorbing. */
  lemma {:induction false} TerminalIsAbsorbing(c: Config, r: Run, m: nat, n: nat, id: JobId)
    requires c.Valid() && r.Valid(c, true) && m <= n <= |r.acts|
    requires id in r.states[m].jobs && Terminal(r.states[m].jobs[id].status)
    ensures id in r.states[n].jobs && r.states[n].jobs[id].status == r.states[m].jobs[id].status
    decreases n - m
  {
    if m < n {
      TerminalIsAbsorbing(c, r, m, n - 1, id);
      Reachable(c, true, r, n - 1);
      assert Step(c, true, r.states[n - 1], r.acts[n - 1], r.states[n]);
      StatusStep(c, r.states[n - 1], r.acts[n - 1], r.states[n], id);
    }
  }

  /** A finish releases the lease of the attempt that finishes, and no other. */
  lemma FinishReleasesOwnLease(c: Config, r: Run, n: nat, w: Actor)
    requires c.Valid() && r.Valid(c, true) && n < |r.acts|
    requires r.acts[n] in {Complete(w), Fail(w), Cancel(w)}
    ensures r.states[n + 1].At(w).Tail?
    ensures r.states[n + 1].At(w).release == Some(r.states[n].At(w).token)
  {
    Reachable(c, true, r, n);
    assert Step(c, true, r.states[n], r.acts[n], r.states[n + 1]);
    assert OwnerOk(c, r.states[n], w);
  }
}
