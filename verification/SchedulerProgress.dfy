/**
 The other side of the scheduler's safety: a tick that finds the lock free and a rested task with no active job gets
 through its critical section and leaves that job queued and recorded.
 */
module SchedulerProgress {
  import opened Base
  import opened Jobs
  import opened SchedulerTasks
  import opened SchedulerQueue
  import Q = JobQueue

  /** The task's switch and interval, as configured. */
  function Setting(c: SchedulerQueue.Config, task: Task): (bool, int) {
    match task
    case RetentionTask => c.tasks.retention
    case UploadTask => c.tasks.upload
    case SyncTask => c.tasks.sync
  }

  /** Nobody holds a live lock, and the process is outside with a value of its own to draw. */
  ghost predicate MayEnter(c: SchedulerQueue.Config, s: State, p: Proc) {
    && (s.lock.None? || s.lock.value.expiresAt <= s.q.clock) && s.At(p).Out?
    && FreshDraw(c, s, TryEnter(p, None, s.q.clock))
  }

  /** The task is switched on, and its stored next run, if there is one, has come. */
  ghost predicate Waiting(c: SchedulerQueue.Config, s: State, task: Task) {
    && c.tasks.enabled && Setting(c, task).0 && Setting(c, task).1 > 0
    && (task in s.table && s.table[task].nextRunAt.Some? ==> s.table[task].nextRunAt.value <= s.q.clock)
  }

  ghost predicate NoneOf(jobs: map<JobId, Job>, kind: JobType) {
    forall i :: i in jobs && jobs[i].kind == kind ==> jobs[i].status != Queued && jobs[i].status != Running
  }

  /** The process is inside with the lock, at the given point, and no time has passed since it read the clock. */
  ghost predicate Inside(s: State, p: Proc, stage: Stage) {
    && InSection(s, p) && s.At(p).stage == stage && s.At(p).sec.now == s.q.clock && s.At(p).sec.value.manual.None?
    && s.lock == Some(Lease(s.At(p).sec.value, s.At(p).sec.deadline))
  }

  lemma GetsIn(c: SchedulerQueue.Config, s: State, p: Proc) returns (s1: State, s2: State)
    requires MayEnter(c, s, p)
    ensures Step(c, true, s, TryEnter(p, None, s.q.clock), s1) && Step(c, true, s1, Begin(p), s2)
    ensures Inside(s2, p, Ready) && s2.q == s.q && s2.table == s.table
  {
    LockOutlivesTick(c.tasks);
    s1 := Apply(c, s, TryEnter(p, None, s.q.clock));
    s2 := Apply(c, s1, Begin(p));
  }

  lemma PassesGuard(c: SchedulerQueue.Config, s: State, p: Proc, task: Task) returns (s1: State, s2: State)
    requires Inside(s, p, Ready) && Waiting(c, s, task) && NoneOf(s.q.jobs, KindOf(task))
    ensures Step(c, true, s, Action.Due(p, task), s1) && Step(c, true, s1, GuardClear(p), s2)
    ensures Inside(s2, p, Clear(task, Scheduled)) && s2.q == s.q && s2.table == s.table
  {
    assert IsDue(c.tasks, s.table, task, s.At(p).sec.now);
    s1 := Apply(c, s, Action.Due(p, task));
    assert NoActive(s1.q.jobs, KindOf(task));
    s2 := Apply(c, s1, GuardClear(p));
  }

  lemma Enqueues(c: SchedulerQueue.Config, s: State, p: Proc, task: Task, w: Q.Actor, id: JobId) returns (s1: State)
    requires Inside(s, p, Clear(task, Scheduled)) && s.q.At(w).Idle? && id !in s.q.jobs && id !in s.q.log
    ensures Step(c, true, s, EnqueueJob(p, w, id, false), s1)
    ensures Inside(s1, p, Outcome(c, s.At(p).sec, task, Scheduled, RQueued, Some(id)))
    ensures s1.table == s.table && s1.q.clock == s.q.clock && s1.q.jobs == s.q.jobs[id := NewJob(c.jobs, KindOf(task), s.q.clock)]
  {
    s1 := Apply(c, s, EnqueueJob(p, w, id, false));
  }

  lemma RecordsAndLeaves(c: SchedulerQueue.Config, s: State, p: Proc, w: Write) returns (s1: State, s2: State)
    requires Inside(s, p, Recording(w))
    ensures Step(c, true, s, Record(p, false), s1) && Step(c, true, s1, Leave(p), s2)
    ensures s2.lock.None? && s2.At(p).Out? && s2.q == s.q && s2.table == Put(s.table, w)
  {
    s1 := Apply(c, s, Record(p, false));
    s2 := Apply(c, s1, Leave(p));
  }

  /** A tick up to the guard of the task, and from there on. */
  function Opening(p: Proc, task: Task, at: Time): seq<Action> {
    [TryEnter(p, None, at), Begin(p)] + [Action.Due(p, task), GuardClear(p)]
  }

  function Closing(p: Proc, w: Q.Actor, id: JobId): seq<Action> {
    [EnqueueJob(p, w, id, false)] + [Record(p, false), Leave(p)]
  }

  /** What the run's record says. */
  lemma QueuedRecord(c: SchedulerQueue.Config, table: TaskTable, task: Task, now: Time, id: JobId)
    requires c.tasks.enabled && Setting(c, task).0 && Setting(c, task).1 > 0
    ensures
      var after := Put(table, RunWrite(c.tasks, task, now, Scheduled, RQueued, Some(id), false));
      && task in after && after[task].result == RQueued && after[task].lastJobId == Some(id) && after[task].ranAt == now
      && after[task].nextRunAt == Some(now + Setting(c, task).1 * 60000)
  {
  }

  /** The actions, one after the other, lead from one state to the other. */
  ghost predicate Leads(c: SchedulerQueue.Config, s: State, acts: seq<Action>, t: State)
    decreases |acts|
  {
    if acts == [] then s == t else exists m :: Step(c, true, s, acts[0], m) && Leads(c, m, acts[1..], t)
  }

  lemma OneLeads(c: SchedulerQueue.Config, s: State, a: Action, t: State)
    requires Step(c, true, s, a, t)
    ensures Leads(c, s, [a], t)
  {
    assert Leads(c, t, [a][1..], t);
  }

  lemma {:induction false} LeadsOn(c: SchedulerQueue.Config, s: State, first: seq<Action>, m: State, second: seq<Action>, t: State)
    requires Leads(c, s, first, m) && Leads(c, m, second, t)
    ensures Leads(c, s, first + second, t)
    decreases |first|
  {
    if first == [] {
      assert first + second == second;
    } else {
      var x :| Step(c, true, s, first[0], x) && Leads(c, x, first[1..], m);
      LeadsOn(c, x, first[1..], m, second, t);
      assert (first + second)[1..] == first[1..] + second;
    }
  }

  lemma TwoLead(c: SchedulerQueue.Config, s: State, a: Action, m: State, b: Action, t: State)
    requires Step(c, true, s, a, m) && Step(c, true, m, b, t)
    ensures Leads(c, s, [a, b], t)
  {
    OneLeads(c, s, a, m);
    OneLeads(c, m, b, t);
    LeadsOn(c, s, [a], m, [b], t);
    assert [a] + [b] == [a, b];
  }

  lemma GetsThrough(c: SchedulerQueue.Config, s: State, p: Proc, task: Task) returns (t: State)
    requires MayEnter(c, s, p) && Waiting(c, s, task) && NoneOf(s.q.jobs, KindOf(task))
    ensures Leads(c, s, Opening(p, task, s.q.clock), t)
    ensures Inside(t, p, Clear(task, Scheduled)) && t.q == s.q && t.table == s.table
  {
    var s1, s2 := GetsIn(c, s, p);
    TwoLead(c, s, TryEnter(p, None, s.q.clock), s1, Begin(p), s2);
    var s3, s4 := PassesGuard(c, s2, p, task);
    TwoLead(c, s2, Action.Due(p, task), s3, GuardClear(p), s4);
    LeadsOn(c, s, [TryEnter(p, None, s.q.clock), Begin(p)], s2, [Action.Due(p, task), GuardClear(p)], s4);
    t := s4;
  }

  /** The process is out and the lock free; the job is queued, and the run recorded with the next one an interval away. */
  ghost predicate Executed(c: SchedulerQueue.Config, q: Q.State, p: Proc, task: Task, id: JobId, t: State) {
    && t.lock.None? && t.At(p).Out? && id in t.q.jobs && t.q.jobs == q.jobs[id := t.q.jobs[id]]
    && t.q.jobs[id].kind == KindOf(task) && t.q.jobs[id].status == Queued
    && task in t.table && t.table[task].result == RQueued && t.table[task].lastJobId == Some(id)
    && (Setting(c, task).1 > 0 ==> t.table[task].nextRunAt == Some(q.clock + Setting(c, task).1 * 60000))
  }

  lemma EnqueuesAndLeaves(c: SchedulerQueue.Config, s: State, p: Proc, task: Task, w: Q.Actor, id: JobId) returns (t: State)
    requires Inside(s, p, Clear(task, Scheduled)) && s.q.At(w).Idle? && id !in s.q.jobs && id !in s.q.log
    requires c.tasks.enabled && Setting(c, task).0 && Setting(c, task).1 > 0
    ensures Leads(c, s, Closing(p, w, id), t)
    ensures Executed(c, s.q, p, task, id, t)
  {
    var s1 := Enqueues(c, s, p, task, w, id);
    OneLeads(c, s, EnqueueJob(p, w, id, false), s1);
    var s2, s3 := RecordsAndLeaves(c, s1, p, RunWrite(c.tasks, task, s.q.clock, Scheduled, RQueued, Some(id), false));
    TwoLead(c, s1, Record(p, false), s2, Leave(p), s3);
    LeadsOn(c, s, [EnqueueJob(p, w, id, false)], s1, [Record(p, false), Leave(p)], s3);
    QueuedRecord(c, s.table, task, s.q.clock, id);
    t := s3;
  }

  /**
   In any state: a process that finds the lock free, a task switched on whose next run has come, and no QUEUED or RUNNING
   job of its kind can take the tick's steps one after the other. They leave the job queued, the run recorded with the
   next one an interval away, and the lock free.
   */
  lemma WaitingTaskIsEnqueued(c: SchedulerQueue.Config, s: State, p: Proc, task: Task, w: Q.Actor, id: JobId)
    returns (m: State, t: State)
    requires MayEnter(c, s, p) && Waiting(c, s, task) && NoneOf(s.q.jobs, KindOf(task))
    requires s.q.At(w).Idle? && id !in s.q.jobs && id !in s.q.log
    ensures Leads(c, s, Opening(p, task, s.q.clock), m) && Leads(c, m, Closing(p, w, id), t)
    ensures Executed(c, s.q, p, task, id, t)
  {
    m := GetsThrough(c, s, p, task);
    t := EnqueuesAndLeaves(c, m, p, task, w, id);
  }
}
