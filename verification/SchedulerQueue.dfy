/**
 The scheduler over the job queue, as one transition system. Scheduler processes (ticks and manual triggers,
 on any number of instances) share one lock; their critical sections read the stored task state, look for an
 active job, enqueue, and record. The queue's own actions interleave freely with them.
 Hypotheses: the queue obeys H1; maintenance jobs are enqueued only by the scheduler; and (H5) a critical
 section acts only before its lock expires. Runs with `h4` also draw lock values that nobody else is using (H4).
 */
module SchedulerQueue {
  import opened Base
  import opened Jobs
  import opened SchedulerTasks
  import Q = JobQueue
  import Safety = JobSafety

  type Proc = nat

  /** What a process locks with: its process id, the task of a manual trigger, and the millisecond. */
  datatype LockValue = LockValue(pid: nat, manual: Option<Task>, millis: Time)

  datatype Lease = Lease(value: LockValue, expiresAt: Time)

  /** A held lock: its value, when it expires, and the `now` read inside the section. */
  datatype Section = Section(value: LockValue, deadline: Time, now: Time)

  datatype Stage =
    | Entered
    | Ready
    | Checking(task: Task, trigger: Trigger)
    | Clear(task: Task, trigger: Trigger)
    | Recording(w: Write)

  datatype Pc = Out | Leaving(value: LockValue) | In(sec: Section, stage: Stage)

  datatype State = State(
    q: Q.State,
    lock: Option<Lease>,
    procs: map<Proc, Pc>,
    table: TaskTable,
    history: seq<Write>)
  {
    function At(p: Proc): Pc {
      if p in procs then procs[p] else Out
    }

    function Goto(p: Proc, pc: Pc): State {
      this.(procs := procs[p := pc])
    }

    function Stay(p: Proc, stage: Stage): State
      requires At(p).In?
    {
      Goto(p, In(At(p).sec, stage))
    }

    /** releaseLock: frees the lock only if it carries the given value. */
    function Release(value: LockValue): State {
      if lock.Some? && lock.value.value == value && lock.value.expiresAt > q.clock then this.(lock := None) else this
    }
  }

  /** `pid` is the operating system's process id, which processes in separate containers may share. */
  datatype Config = Config(jobs: Jobs.Config, tasks: SchedulerConfig, pid: Proc -> nat)

  datatype Action =
    | QueueMove(a: Q.Action)
    | TryEnter(p: Proc, manual: Option<Task>, at: Time)
    | Begin(p: Proc)
    | Due(p: Proc, task: Task)
    | Off(p: Proc, task: Task)
    | RunNow(p: Proc, task: Task)
    | NoActor(p: Proc)
    | GuardFinds(p: Proc, id: JobId)
    | GuardClear(p: Proc)
    | EnqueueJob(p: Proc, w: Q.Actor, id: JobId, eventFails: bool)
    | EnqueueFails(p: Proc)
    | Record(p: Proc, auditFails: bool)
    | Leave(p: Proc)
    | ReleaseUnheld(p: Proc)
    | CrashProc(p: Proc)

  /** H5: the process is in its critical section and the lock has not expired. */
  predicate InSection(s: State, p: Proc) {
    s.At(p).In? && s.q.clock < s.At(p).sec.deadline
  }

  /** A live process between two tasks of a tick, or before the task of its manual trigger. */
  predicate MayRun(s: State, p: Proc, manual: Option<Task>) {
    InSection(s, p) && s.At(p).stage.Ready? && s.At(p).sec.value.manual == manual
  }

  ghost predicate Enabled(c: Config, s: State, a: Action) {
    match a
    case QueueMove(x) =>
      && Q.Enabled(c.jobs, s.q, x) && Q.Timely(c.jobs, s.q, x)
      && (x.Enqueue? ==> x.kind in {FolderRename, FolderDelete})
    case TryEnter(p, _, at) => s.At(p).Out? && at <= s.q.clock
    case Begin(p) => InSection(s, p) && s.At(p).stage.Entered?
    case Due(p, task) => MayRun(s, p, None) && IsDue(c.tasks, s.table, task, s.At(p).sec.now)
    case Off(p, task) =>
      && MayRun(s, p, None) && !c.tasks.Runs(task)
      && !(task in s.table && AlreadyOff(c.tasks, s.table[task], task))
    case RunNow(p, task) => MayRun(s, p, Some(task))
    case NoActor(p) => InSection(s, p) && s.At(p).stage.Checking?
    case GuardFinds(p, id) =>
      InSection(s, p) && s.At(p).stage.Checking? && id in s.q.jobs && Active(s.q.jobs[id], KindOf(s.At(p).stage.task))
    case GuardClear(p) =>
      InSection(s, p) && s.At(p).stage.Checking? && NoActive(s.q.jobs, KindOf(s.At(p).stage.task))
    case EnqueueJob(p, w, id, _) =>
      && InSection(s, p) && s.At(p).stage.Clear?
      && Q.Enabled(c.jobs, s.q, Q.Enqueue(w, id, KindOf(s.At(p).stage.task)))
    case EnqueueFails(p) => InSection(s, p) && s.At(p).stage.Clear?
    case Record(p, auditFails) =>
      InSection(s, p) && s.At(p).stage.Recording? && (auditFails ==> s.At(p).stage.w.result.RQueued?)
    case Leave(p) => s.At(p).In?
    case ReleaseUnheld(p) => s.At(p).Leaving?
    case CrashProc(p) => !s.At(p).Out?
  }

  function Outcome(c: Config, sec: Section, task: Task, trigger: Trigger, result: RunResult, id: Option<JobId>): Stage {
    Recording(RunWrite(c.tasks, task, sec.now, trigger, result, id, false))
  }

  ghost function Apply(c: Config, s: State, a: Action): State
    requires Enabled(c, s, a)
  {
    match a
    case QueueMove(x) => s.(q := Q.Apply(c.jobs, s.q, x))
    case TryEnter(p, manual, at) => ApplyEnter(c, s, p, LockValue(c.pid(p), manual, at))
    case Begin(p) => s.Goto(p, In(s.At(p).sec.(now := s.q.clock), Ready))
    case Due(p, task) => s.Stay(p, Checking(task, Scheduled))
    case Off(p, task) => s.Stay(p, Recording(OffWrite(c.tasks, task, s.At(p).sec.now)))
    case RunNow(p, task) =>
      s.Stay(p, if c.tasks.Definition(task).enabled then Checking(task, Manual)
                else Outcome(c, s.At(p).sec, task, Manual, RSkippedDisabled, None))
    case NoActor(p) =>
      var at := s.At(p).stage;
      s.Stay(p, Outcome(c, s.At(p).sec, at.task, at.trigger, RFailed, None))
    case GuardFinds(p, id) =>
      var at := s.At(p).stage;
      s.Stay(p, Outcome(c, s.At(p).sec, at.task, at.trigger, RSkippedActive, Some(id)))
    case GuardClear(p) => s.Stay(p, Clear(s.At(p).stage.task, s.At(p).stage.trigger))
    case EnqueueJob(p, w, id, eventFails) => ApplyEnqueue(c, s, p, w, id, eventFails)
    case EnqueueFails(p) =>
      var at := s.At(p).stage;
      s.Stay(p, Outcome(c, s.At(p).sec, at.task, at.trigger, RFailed, None))
    case Record(p, auditFails) => ApplyRecord(s, p, auditFails)
    case Leave(p) => s.Release(s.At(p).sec.value).Goto(p, Out)
    case ReleaseUnheld(p) => s.Release(s.At(p).value).Goto(p, Out)
    case CrashProc(p) => s.Goto(p, Out)
  }

  /** A tick that does not get the lock still runs its `finally`; a manual trigger just answers. */
  ghost function ApplyEnter(c: Config, s: State, p: Proc, value: LockValue): State {
    if s.lock.Some? && s.lock.value.expiresAt > s.q.clock then
      s.Goto(p, if value.manual.None? then Leaving(value) else Out)
    else
      var deadline := s.q.clock + c.tasks.LockTtlSeconds() * 1000;
      s.(lock := Some(Lease(value, deadline))).Goto(p, In(Section(value, deadline, s.q.clock), Entered))
  }

  /** The row is created; if writing its event then throws, the run is recorded as failed all the same. */
  ghost function ApplyEnqueue(c: Config, s: State, p: Proc, w: Q.Actor, id: JobId, eventFails: bool): State
    requires Enabled(c, s, EnqueueJob(p, w, id, eventFails))
  {
    var at := s.At(p).stage;
    s.(q := Q.Apply(c.jobs, s.q, Q.Enqueue(w, id, KindOf(at.task))))
     .Stay(p, if eventFails then Outcome(c, s.At(p).sec, at.task, at.trigger, RFailed, None)
              else Outcome(c, s.At(p).sec, at.task, at.trigger, RQueued, Some(id)))
  }

  ghost function ApplyRecord(s: State, p: Proc, auditFails: bool): State
    requires s.At(p).In? && s.At(p).stage.Recording?
  {
    var w := s.At(p).stage.w;
    s.(table := Put(s.table, w), history := s.history + [w])
     .Stay(p, if auditFails then Recording(w.(result := RFailed, jobId := None, again := true)) else Ready)
  }

  function ValueOf(pc: Pc): Option<LockValue> {
    match pc
    case Out => None
    case Leaving(v) => Some(v)
    case In(sec, _) => Some(sec.value)
  }

  /** H4: the value drawn is not one that another process has drawn and not yet given up. */
  ghost predicate FreshDraw(c: Config, s: State, a: Action) {
    a.TryEnter? ==> forall x: Proc :: x != a.p ==> ValueOf(s.At(x)) != Some(LockValue(c.pid(a.p), a.manual, a.at))
  }

  ghost predicate Step(c: Config, h4: bool, s: State, a: Action, t: State) {
    Enabled(c, s, a) && (h4 ==> FreshDraw(c, s, a)) && t == Apply(c, s, a)
  }

  ghost predicate Init(s: State) {
    Q.Init(s.q) && s.lock.None? && s.procs == map[] && s.table == map[] && s.history == []
  }

  datatype Run = Run(states: seq<State>, acts: seq<Action>) {
    ghost predicate Valid(c: Config, h4: bool) {
      && |states| == |acts| + 1
      && Init(states[0])
      && forall i :: 0 <= i < |acts| ==> Step(c, h4, states[i], acts[i], states[i + 1])
    }
  }

  // ---------------------------------------------------------------- invariants

  /** A process inside its section really holds the lock, and it is the only one. */
  ghost predicate LockOk(s: State) {
    && (forall p: Proc :: InSection(s, p) ==> s.lock == Some(Lease(s.At(p).sec.value, s.At(p).sec.deadline)))
    && (forall p: Proc, r: Proc :: InSection(s, p) && InSection(s, r) ==> p == r)
  }

  predicate Releases(a: Action) {
    a.Leave? || a.ReleaseUnheld?
  }

  /** A release finds nobody else inside the section with the value it releases. */
  ghost predicate Spares(s: State, a: Action) {
    Releases(a) ==> forall x: Proc :: x != a.p && InSection(s, x) ==> ValueOf(s.At(x)) != ValueOf(s.At(a.p))
  }

  ghost predicate DistinctValues(s: State) {
    forall p: Proc, r: Proc :: p != r && ValueOf(s.At(p)).Some? ==> ValueOf(s.At(p)) != ValueOf(s.At(r))
  }

  ghost predicate QueueOk(c: Config, s: State) {
    Safety.Inv(c.jobs, s.q) && Safety.Owners(c.jobs, s.q)
  }

  ghost predicate Unique(s: State) {
    && (forall task: Task :: AtMostOneActive(s.q.jobs, KindOf(task)))
    && (forall p: Proc :: InSection(s, p) && s.At(p).stage.Clear? ==> NoActive(s.q.jobs, KindOf(s.At(p).stage.task)))
  }

  ghost function ProcOf(a: Action): Option<Proc> {
    match a
    case QueueMove(_) => None
    case _ => Some(a.p)
  }

  lemma BoundaryFrame(c: Config, s: State, a: Action)
    requires Enabled(c, s, a)
    requires a.QueueMove? || a.TryEnter? || a.Begin? || Releases(a) || a.CrashProc?
    ensures forall p: Proc :: ProcOf(a) != Some(p) ==> Apply(c, s, a).At(p) == s.At(p)
  {
  }

  lemma InsideFrame(c: Config, s: State, a: Action)
    requires Enabled(c, s, a)
    requires !a.QueueMove? && !a.TryEnter? && !a.Begin? && !Releases(a) && !a.CrashProc?
    ensures forall p: Proc :: ProcOf(a) != Some(p) ==> Apply(c, s, a).At(p) == s.At(p)
    ensures s.At(a.p).In? && Apply(c, s, a).At(a.p).In? && Apply(c, s, a).At(a.p).sec == s.At(a.p).sec
    ensures Apply(c, s, a).lock == s.lock
  {
  }

  lemma ClockStep(c: Config, h4: bool, s: State, a: Action, t: State)
    requires Step(c, h4, s, a, t)
    ensures s.q.clock <= t.q.clock
  {
    if a.QueueMove? {
      Safety.ActorFrame(c.jobs, true, s.q, a.a, t.q);
    } else if a.EnqueueJob? {
      Safety.ActorFrame(c.jobs, true, s.q, Q.Enqueue(a.w, a.id, KindOf(s.At(a.p).stage.task)), t.q);
    }
  }

  lemma ProcFrame(c: Config, h4: bool, s: State, a: Action, t: State)
    requires Step(c, h4, s, a, t)
    ensures forall p: Proc :: ProcOf(a) != Some(p) ==> t.At(p) == s.At(p)
    ensures s.q.clock <= t.q.clock
  {
    ClockStep(c, h4, s, a, t);
    if a.QueueMove? || a.TryEnter? || a.Begin? || Releases(a) || a.CrashProc? {
      BoundaryFrame(c, s, a);
    } else {
      InsideFrame(c, s, a);
    }
  }

  /** Only entering draws a value. */
  lemma ValueFrame(c: Config, h4: bool, s: State, a: Action, t: State)
    requires Step(c, h4, s, a, t) && ProcOf(a).Some?
    ensures
      var x, y := ValueOf(s.At(a.p)), ValueOf(t.At(a.p));
      y.None? || y == x || (a.TryEnter? && y == Some(LockValue(c.pid(a.p), a.manual, a.at)))
  {
  }

  lemma DistinctStep(c: Config, s: State, a: Action, t: State)
    requires DistinctValues(s) && Step(c, true, s, a, t)
    ensures DistinctValues(t)
  {
    ProcFrame(c, true, s, a, t);
    if ProcOf(a).Some? {
      ValueFrame(c, true, s, a, t);
    }
  }

  /** Under H4 no release carries the value of another process. */
  lemma DistinctSpares(s: State, a: Action)
    requires DistinctValues(s)
    ensures Spares(s, a)
  {
  }

  /** A release that spares the holder leaves the lock alone. */
  lemma ReleaseSparesHolder(s: State, value: LockValue, x: Proc)
    requires LockOk(s) && InSection(s, x) && s.At(x).sec.value != value
    ensures s.Release(value).lock == s.lock
  {
  }

  /** Entering succeeds only when nobody is inside. */
  lemma EnterStep(c: Config, s: State, p: Proc, value: LockValue)
    requires LockOk(s) && s.At(p).Out?
    ensures LockOk(ApplyEnter(c, s, p, value))
  {
    var t := ApplyEnter(c, s, p, value);
    assert t.q == s.q && forall x: Proc :: x != p ==> t.At(x) == s.At(x);
    forall x: Proc | InSection(s, x)
      ensures s.lock.Some? && s.lock.value.expiresAt > s.q.clock
    {
    }
    if s.lock.Some? && s.lock.value.expiresAt > s.q.clock {
      assert !InSection(t, p) && t.lock == s.lock;
      forall x: Proc | InSection(t, x)
        ensures InSection(s, x) && t.At(x) == s.At(x)
      {
        assert x != p;
      }
    } else {
      assert forall x: Proc :: x != p ==> !InSection(t, x);
    }
  }

  lemma ReleaseStep(c: Config, h4: bool, s: State, a: Action, t: State)
    requires LockOk(s) && Step(c, h4, s, a, t) && Releases(a) && Spares(s, a)
    ensures LockOk(t)
    ensures forall x: Proc :: x != a.p && InSection(s, x) ==> t.lock == s.lock && InSection(t, x)
  {
    ReleaseLeaves(c, h4, s, a, t);
    forall x: Proc | x != a.p && InSection(s, x)
      ensures t.lock == s.lock
    {
      ReleaseSparesHolder(s, ValueOf(s.At(a.p)).value, x);
    }
  }

  /** A release puts its process outside and touches nothing but the lock. */
  lemma ReleaseLeaves(c: Config, h4: bool, s: State, a: Action, t: State)
    requires Step(c, h4, s, a, t) && Releases(a)
    ensures ValueOf(s.At(a.p)).Some? && t.lock == s.Release(ValueOf(s.At(a.p)).value).lock && t.q == s.q
    ensures t.At(a.p).Out? && forall p: Proc :: p != a.p ==> t.At(p) == s.At(p)
  {
  }

  lemma LockStep(c: Config, h4: bool, s: State, a: Action, t: State)
    requires LockOk(s) && Step(c, h4, s, a, t) && Spares(s, a)
    ensures LockOk(t)
  {
    if a.TryEnter? {
      EnterStep(c, s, a.p, LockValue(c.pid(a.p), a.manual, a.at));
    } else if Releases(a) {
      ReleaseStep(c, h4, s, a, t);
    } else {
      InsideStays(c, h4, s, a, t);
    }
  }

  /** Whoever is inside after any other action was inside before, with the same lock. */
  lemma InsideStays(c: Config, h4: bool, s: State, a: Action, t: State)
    requires Step(c, h4, s, a, t) && !a.TryEnter? && !Releases(a)
    ensures t.lock == s.lock
    ensures forall p: Proc :: InSection(t, p) ==>
              InSection(s, p) && t.At(p).sec.value == s.At(p).sec.value && t.At(p).sec.deadline == s.At(p).sec.deadline
  {
    ProcFrame(c, h4, s, a, t);
    if !a.QueueMove? && !a.Begin? && !a.CrashProc? {
      InsideFrame(c, s, a);
    }
  }

  /** The job rows after an action: nothing becomes active except what `EnqueueJob` adds. */
  lemma ActiveStep(c: Config, h4: bool, s: State, a: Action, t: State, id: JobId, kind: JobType)
    requires QueueOk(c, s) && Step(c, h4, s, a, t) && id in t.q.jobs && Active(t.q.jobs[id], kind)
    requires exists task: Task :: kind == KindOf(task)
    ensures || (id in s.q.jobs && Active(s.q.jobs[id], kind))
            || (a.EnqueueJob? && a.id == id && s.At(a.p).In? && s.At(a.p).stage.Clear? && kind == KindOf(s.At(a.p).stage.task))
  {
    if a.QueueMove? {
      Safety.RowFrame(c.jobs, true, s.q, a.a, t.q);
      if id in s.q.jobs {
        Safety.StatusStep(c.jobs, s.q, a.a, t.q, id);
      }
    } else if a.EnqueueJob? {
      Safety.RowFrame(c.jobs, true, s.q, Q.Enqueue(a.w, a.id, KindOf(s.At(a.p).stage.task)), t.q);
    }
  }

  lemma QueueStep(c: Config, h4: bool, s: State, a: Action, t: State)
    requires c.jobs.Valid() && QueueOk(c, s) && Step(c, h4, s, a, t)
    ensures QueueOk(c, t)
  {
    if a.QueueMove? {
      QueueMoveOk(c, s.q, a.a, t.q);
    } else if a.EnqueueJob? {
      QueueMoveOk(c, s.q, Q.Enqueue(a.w, a.id, KindOf(s.At(a.p).stage.task)), t.q);
    }
  }

  lemma QueueMoveOk(c: Config, s: Q.State, x: Q.Action, t: Q.State)
    requires c.jobs.Valid() && Safety.Inv(c.jobs, s) && Safety.Owners(c.jobs, s) && Q.Step(c.jobs, true, s, x, t)
    ensures Safety.Inv(c.jobs, t) && Safety.Owners(c.jobs, t)
  {
    Safety.InvStep(c.jobs, true, s, x, t);
    forall v: Q.Actor
      ensures Safety.OwnerOk(c.jobs, t, v)
    {
      if Safety.ActorOf(x) == Some(v) {
        Safety.OwnerStepSelf(c.jobs, s, x, t, v);
      } else {
        Safety.OwnerStepOther(c.jobs, s, x, t, v);
      }
    }
  }

  lemma UniqueStep(c: Config, h4: bool, s: State, a: Action, t: State)
    requires QueueOk(c, s) && LockOk(s) && Unique(s) && Step(c, h4, s, a, t)
    ensures Unique(t)
  {
    ProcFrame(c, h4, s, a, t);
    forall task: Task
      ensures AtMostOneActive(t.q.jobs, KindOf(task))
    {
      var kind := KindOf(task);
      assert AtMostOneActive(s.q.jobs, kind);
      forall i, j | i in t.q.jobs && j in t.q.jobs && Active(t.q.jobs[i], kind) && Active(t.q.jobs[j], kind)
        ensures i == j
      {
        ActiveStep(c, h4, s, a, t, i, kind);
        ActiveStep(c, h4, s, a, t, j, kind);
      }
    }
    forall p: Proc | InSection(t, p) && t.At(p).stage.Clear?
      ensures NoActive(t.q.jobs, KindOf(t.At(p).stage.task))
    {
      ClearStaysClear(c, h4, s, a, t, p);
    }
  }

  lemma ClearStaysClear(c: Config, h4: bool, s: State, a: Action, t: State, p: Proc)
    requires QueueOk(c, s) && LockOk(s) && Unique(s) && Step(c, h4, s, a, t)
    requires InSection(t, p) && t.At(p).stage.Clear?
    ensures NoActive(t.q.jobs, KindOf(t.At(p).stage.task))
  {
    ProcFrame(c, h4, s, a, t);
    assert InSection(s, p);
    assert !a.EnqueueJob?;
    var kind := KindOf(t.At(p).stage.task);
    assert NoActive(s.q.jobs, kind);
    forall i | i in t.q.jobs
      ensures !Active(t.q.jobs[i], kind)
    {
      if Active(t.q.jobs[i], kind) { ActiveStep(c, h4, s, a, t, i, kind); }
    }
  }

  /** As long as releases spare the holders, the section is exclusive and maintenance jobs are unique. */
  lemma {:induction false} ReachableSparing(c: Config, h4: bool, r: Run, n: nat)
    requires c.jobs.Valid() && r.Valid(c, h4) && n <= |r.acts|
    requires forall i: nat :: i < n ==> Spares(r.states[i], r.acts[i])
    ensures QueueOk(c, r.states[n]) && LockOk(r.states[n]) && Unique(r.states[n])
  {
    if n == 0 {
      Safety.InitInv(c.jobs, r.states[0].q);
    } else {
      ReachableSparing(c, h4, r, n - 1);
      var s, a, t := r.states[n - 1], r.acts[n - 1], r.states[n];
      assert Step(c, h4, s, a, t);
      QueueStep(c, h4, s, a, t);
      LockStep(c, h4, s, a, t);
      UniqueStep(c, h4, s, a, t);
    }
  }

  /** Under H4 every release spares the holders. */
  lemma {:induction false} H4Spares(c: Config, r: Run, n: nat)
    requires r.Valid(c, true) && n <= |r.acts|
    ensures DistinctValues(r.states[n])
    ensures forall i: nat :: i < n ==> Spares(r.states[i], r.acts[i])
  {
    if n == 0 {
    } else {
      H4Spares(c, r, n - 1);
      assert Step(c, true, r.states[n - 1], r.acts[n - 1], r.states[n]);
      DistinctSpares(r.states[n - 1], r.acts[n - 1]);
      DistinctStep(c, r.states[n - 1], r.acts[n - 1], r.states[n]);
    }
  }

  lemma Reachable(c: Config, r: Run, n: nat)
    requires c.jobs.Valid() && r.Valid(c, true) && n <= |r.acts|
    ensures QueueOk(c, r.states[n]) && LockOk(r.states[n]) && Unique(r.states[n])
  {
    H4Spares(c, r, n);
    ReachableSparing(c, true, r, n);
  }

  // ---------------------------------------------------------------- main results

  /**
   In every run, whatever the instances, manual triggers and workers do: at most one job of each maintenance
   kind is QUEUED or RUNNING, and at most one process is inside the critical section.
   */
  lemma AtMostOneMaintenanceJob(c: Config, r: Run, n: nat, task: Task, p: Proc, x: Proc)
    requires c.jobs.Valid() && r.Valid(c, true) && n <= |r.acts|
    ensures AtMostOneActive(r.states[n].q.jobs, KindOf(task))
    ensures
      var jobs := r.states[n].q.jobs;
      forall i, j | i in jobs && j in jobs && jobs[i].kind == jobs[j].kind
                    && jobs[i].kind in {RetentionCleanup, UploadCleanup, BucketSync}
                    && jobs[i].status in {Queued, Running} && jobs[j].status in {Queued, Running} :: i == j
    ensures InSection(r.states[n], p) && InSection(r.states[n], x) ==> p == x
  {
    Reachable(c, r, n);
    var jobs := r.states[n].q.jobs;
    forall i, j | i in jobs && j in jobs && jobs[i].kind == jobs[j].kind
                  && jobs[i].kind in {RetentionCleanup, UploadCleanup, BucketSync}
                  && jobs[i].status in {Queued, Running} && jobs[j].status in {Queued, Running}
      ensures i == j
    {
      var of := if jobs[i].kind.RetentionCleanup? then RetentionTask else if jobs[i].kind.UploadCleanup? then UploadTask else SyncTask;
      assert AtMostOneActive(jobs, KindOf(of));
      assert Active(jobs[i], KindOf(of)) && Active(jobs[j], KindOf(of));
    }
  }

  /** The unconditional release at the end of a tick frees only the tick's own lock. */
  lemma ReleaseFreesOnlyOwn(c: Config, r: Run, n: nat, holder: Proc)
    requires c.jobs.Valid() && r.Valid(c, true) && n < |r.acts| && Releases(r.acts[n])
    requires InSection(r.states[n], holder) && holder != r.acts[n].p
    ensures r.states[n + 1].lock == r.states[n].lock && InSection(r.states[n + 1], holder)
  {
    Reachable(c, r, n);
    H4Spares(c, r, n);
    assert Step(c, true, r.states[n], r.acts[n], r.states[n + 1]);
    DistinctSpares(r.states[n], r.acts[n]);
    ReleaseStep(c, true, r.states[n], r.acts[n], r.states[n + 1]);
  }
}
