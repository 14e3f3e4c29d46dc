/**
 The job queue as a transition system. An actor is one sequential flow of the service: a worker
 loop or a request handler. Each action is one await-to-await turn of that flow: one database
 statement, one lock command, or (hypothesis H2) one read-then-write of `requestCancel` / `mark*`.
 Any actor may crash between two of its actions.
 */
module JobQueue {
  import opened Base
  import opened Jobs

  type Actor = nat

  /** Where an actor stands. */
  datatype Pc =
    | Idle
      // claimNext: clock captured, candidate read, lock taken, conditional update refused
    | Scanning(staleFrom: Time, now: Time)
    | Picked(id: JobId, staleFrom: Time, now: Time, startedAt: Option<Time>, wasRunning: bool)
    | Locked(id: JobId, staleFrom: Time, now: Time, startedAt: Option<Time>, wasRunning: bool, token: Token)
    | Backout(id: JobId, token: Token)
      // execute: writing the claim events, running the job body, cancellation observed
    | Starting(id: JobId, token: Token, claimedAt: Time, pending: seq<Event>)
    | Working(id: JobId, token: Token, claimedAt: Time)
    | Canceling(id: JobId, token: Token, claimedAt: Time)
      // after a row update: events still to write, then the lock to release
    | Tail(id: JobId, pending: seq<Event>, release: Option<Token>)
  {
    /** The actor holds an attempt at a job: it claimed it and has not finished it. */
    predicate Owns() {
      Starting? || Working? || Canceling?
    }
  }

  datatype Lease = Lease(token: Token, expiresAt: Time)

  /** `cut` remembers the jobs that lost a terminal event to a crash. */
  datatype State = State(
    clock: Time,
    jobs: map<JobId, Job>,
    log: map<JobId, seq<Event>>,
    locks: map<JobId, Lease>,
    pcs: map<Actor, Pc>,
    nextToken: Token,
    cut: set<JobId>)
  {
    function At(w: Actor): Pc {
      if w in pcs then pcs[w] else Idle
    }

    function Goto(w: Actor, pc: Pc): State {
      this.(pcs := pcs[w := pc])
    }

    function Logged(id: JobId): seq<Event> {
      if id in log then log[id] else []
    }

    function Write(id: JobId, e: Event): State {
      this.(log := log[id := Logged(id) + [e]])
    }

    function Update(id: JobId, row: Job): State {
      this.(jobs := jobs[id := row])
    }

    /** releaseLock: deletes the lease only if it still carries the given token. */
    function Release(id: JobId, token: Option<Token>): State {
      if token.Some? && id in locks && locks[id].token == token.value && locks[id].expiresAt > clock
      then this.(locks := locks - {id})
      else this
    }
  }

  datatype Action =
    | Tick(d: nat)
    | Enqueue(w: Actor, id: JobId, kind: JobType)
    | RequestCancel(w: Actor, id: JobId)
    | BeginClaim(w: Actor, staleFrom: Time)
    | Pick(w: Actor, id: JobId)
    | NoCandidate(w: Actor)
    | Acquire(w: Actor)
    | ClaimUpdate(w: Actor)
    | UndoLock(w: Actor)
    | Emit(w: Actor)
    | CheckStart(w: Actor)
    | Observe(w: Actor)
    | Complete(w: Actor)
    | Fail(w: Actor)
    | Cancel(w: Actor)
    | Done(w: Actor)
    | Annotate(id: JobId, e: Event)
    | Crash(w: Actor)

  ghost predicate CandidateAt(c: Config, s: State, pc: Pc, id: JobId)
    requires pc.Scanning?
  {
    id in s.jobs && Claimable(s.jobs[id], pc.now, pc.staleFrom - c.Ttl())
  }

  ghost predicate Enabled(c: Config, s: State, a: Action) {
    match a
    case Tick(_) => true
    case Enqueue(w, id, _) => s.At(w).Idle? && id !in s.jobs && id !in s.log
    case RequestCancel(w, id) => s.At(w).Idle? && id in s.jobs
    case BeginClaim(w, staleFrom) => s.At(w).Idle? && staleFrom <= s.clock
    case Pick(w, id) =>
      s.At(w).Scanning? && CandidateAt(c, s, s.At(w), id)
      && forall other :: CandidateAt(c, s, s.At(w), other) ==> s.jobs[id].createdAt <= s.jobs[other].createdAt
    case NoCandidate(w) => s.At(w).Scanning? && forall id :: !CandidateAt(c, s, s.At(w), id)
    case Acquire(w) => s.At(w).Picked?
    case ClaimUpdate(w) => s.At(w).Locked? && s.At(w).id in s.jobs
    case UndoLock(w) => s.At(w).Backout?
    case Emit(w) => (s.At(w).Starting? || s.At(w).Tail?) && s.At(w).pending != []
    case CheckStart(w) => s.At(w).Starting? && s.At(w).pending == [] && s.At(w).id in s.jobs
    case Observe(w) => s.At(w).Working? && s.At(w).id in s.jobs && s.jobs[s.At(w).id].cancelRequestedAt.Some?
    case Complete(w) => s.At(w).Working? && s.At(w).id in s.jobs
      // a throwing cancel check reaches markFailed as well, before the body and at a checkpoint
    case Fail(w) =>
      && (s.At(w).Working? || s.At(w).Canceling? || (s.At(w).Starting? && s.At(w).pending == []))
      && s.At(w).id in s.jobs
    case Cancel(w) => s.At(w).Canceling? && s.At(w).id in s.jobs
    case Done(w) => s.At(w).Tail? && s.At(w).pending == []
    case Annotate(id, e) => id in s.jobs && !TerminalEvent(e)
    case Crash(w) => !s.At(w).Idle?
  }

  ghost function Apply(c: Config, s: State, a: Action): State
    requires Enabled(c, s, a)
  {
    match a
    case Tick(d) => s.(clock := s.clock + d)
    case Enqueue(w, id, kind) =>
      s.Update(id, NewJob(c, kind, s.clock)).Goto(w, Tail(id, [Created], None))
    case RequestCancel(w, id) =>
      var row := s.jobs[id];
      s.Update(id, RequestCancelRow(row, s.clock))
       .Goto(w, Tail(id, RequestCancelEvents(row), if row.status.Queued? then row.lockKey else None))
    case BeginClaim(w, staleFrom) => s.Goto(w, Scanning(staleFrom, s.clock))
    case Pick(w, id) =>
      var pc, row := s.At(w), s.jobs[id];
      s.Goto(w, Picked(id, pc.staleFrom, pc.now, row.startedAt, row.status.Running?))
    case NoCandidate(w) => s.Goto(w, Idle)
    case Acquire(w) => ApplyAcquire(c, s, w)
    case ClaimUpdate(w) => ApplyClaim(c, s, w)
    case UndoLock(w) => s.Release(s.At(w).id, Some(s.At(w).token)).Goto(w, Idle)
    case Emit(w) => ApplyEmit(s, w)
    case CheckStart(w) =>
      var pc := s.At(w);
      if s.jobs[pc.id].cancelRequestedAt.Some?
      then s.Write(pc.id, CancelObserved).Goto(w, Canceling(pc.id, pc.token, pc.claimedAt))
      else s.Goto(w, Working(pc.id, pc.token, pc.claimedAt))
    case Observe(w) =>
      var pc := s.At(w);
      s.Write(pc.id, CancelObserved).Goto(w, Canceling(pc.id, pc.token, pc.claimedAt))
    case Complete(w) => Finish(s, w, CompleteRow(s.jobs[s.At(w).id], s.clock), [EvCompleted])
    case Fail(w) =>
      var row := s.jobs[s.At(w).id];
      Finish(s, w, FailRow(c, row, s.clock), FailEvents(row))
    case Cancel(w) => Finish(s, w, CancelRow(s.jobs[s.At(w).id], s.clock), [EvCanceled])
    case Done(w) => s.Release(s.At(w).id, s.At(w).release).Goto(w, Idle)
    case Annotate(id, e) => s.Write(id, e)
    case Crash(w) =>
      var pc := s.At(w);
      s.(cut := if pc.Tail? && exists e :: e in pc.pending && TerminalEvent(e) then s.cut + {pc.id} else s.cut)
       .Goto(w, Idle)
  }

  ghost function ApplyAcquire(c: Config, s: State, w: Actor): State
    requires s.At(w).Picked?
  {
    var pc := s.At(w);
    var drawn := s.(nextToken := s.nextToken + 1);
    if pc.id in s.locks && s.locks[pc.id].expiresAt > s.clock then
      drawn.Goto(w, Idle)
    else
      drawn.(locks := s.locks[pc.id := Lease(s.nextToken, s.clock + c.Ttl())])
           .Goto(w, Locked(pc.id, pc.staleFrom, pc.now, pc.startedAt, pc.wasRunning, s.nextToken))
  }

  ghost function ApplyClaim(c: Config, s: State, w: Actor): State
    requires s.At(w).Locked? && s.At(w).id in s.jobs
  {
    var pc := s.At(w);
    var row := s.jobs[pc.id];
    if Claimable(row, pc.now, pc.staleFrom - c.Ttl()) then
      var claimed := ClaimRow(row, pc.startedAt, pc.now, pc.token);
      s.Update(pc.id, claimed).Goto(w, Starting(pc.id, pc.token, pc.now, ClaimEvents(claimed, pc.wasRunning)))
    else
      s.Goto(w, Backout(pc.id, pc.token))
  }

  ghost function ApplyEmit(s: State, w: Actor): State
    requires (s.At(w).Starting? || s.At(w).Tail?) && s.At(w).pending != []
  {
    var pc := s.At(w);
    s.Write(pc.id, pc.pending[0]).Goto(w, pc.(pending := pc.pending[1..]))
  }

  /** The one row update of a `mark*` call; `row` is the updated row, `events` go into the tail. */
  ghost function Finish(s: State, w: Actor, row: Job, events: seq<Event>): State
    requires s.At(w).Owns() && s.At(w).id in s.jobs
  {
    var id := s.At(w).id;
    s.Update(id, row).Goto(w, Tail(id, events, s.jobs[id].lockKey))
  }

  // ---------------------------------------------------------------- hypothesis H1

  /** The deadline of an attempt has not passed: the clock is within one TTL of the claim's `now`. */
  ghost predicate InTime(c: Config, s: State, w: Actor) {
    s.At(w).Owns() && s.clock <= s.At(w).claimedAt + c.Ttl()
  }

  /**
   H1: an actor that owns an attempt acts only before its deadline (or crashes, or merely lets time
   pass). Nothing in the code enforces it, because the lock is never renewed.
   */
  ghost predicate Timely(c: Config, s: State, a: Action) {
    match a
    case Emit(w) => s.At(w).Owns() ==> InTime(c, s, w)
    case CheckStart(w) => InTime(c, s, w)
    case Observe(w) => InTime(c, s, w)
    case Complete(w) => InTime(c, s, w)
    case Fail(w) => InTime(c, s, w)
    case Cancel(w) => InTime(c, s, w)
    case _ => true
  }

  ghost predicate Step(c: Config, h1: bool, s: State, a: Action, t: State) {
    Enabled(c, s, a) && (h1 ==> Timely(c, s, a)) && t == Apply(c, s, a)
  }

  ghost predicate Init(s: State) {
    s.jobs == map[] && s.log == map[] && s.locks == map[] && s.pcs == map[] && s.cut == {}
  }

  // ---------------------------------------------------------------- runs

  /** A run: its states and, between each two, the action taken. */
  datatype Run = Run(states: seq<State>, acts: seq<Action>) {
    ghost predicate Valid(c: Config, h1: bool) {
      && |states| == |acts| + 1
      && Init(states[0])
      && forall i :: 0 <= i < |acts| ==> Step(c, h1, states[i], acts[i], states[i + 1])
    }
  }

  lemma DropH1(c: Config, h1: bool, r: Run)
    requires r.Valid(c, h1)
    ensures r.Valid(c, false)
  {
  }
}
