/**
 The maintenance scheduler's tasks: their configuration, the state stored per task, and the object that
 executes one task: an active-job guard, an enqueue and a state write.
 */
module SchedulerTasks {
  import opened Base
  import opened Jobs
  import opened JobsServiceObject

  datatype Task = RetentionTask | UploadTask | SyncTask

  function KindOf(task: Task): JobType {
    match task
    case RetentionTask => RetentionCleanup
    case UploadTask => UploadCleanup
    case SyncTask => BucketSync
  }

  datatype Trigger = Scheduled | Manual
  datatype RunResult = RQueued | RSkippedActive | RFailed | RSkippedDisabled

  datatype TaskDefinition = TaskDefinition(task: Task, enabled: bool, intervalMinutes: nat)

  datatype SchedulerConfig = SchedulerConfig(enabled: bool, tickSeconds: nat, configuredTtl: nat,
                                             retention: (bool, int), upload: (bool, int), sync: (bool, int))
  {
    function Definition(task: Task): TaskDefinition {
      var (on, minutes) := match task
        case RetentionTask => retention
        case UploadTask => upload
        case SyncTask => sync;
      TaskDefinition(task, on, if minutes > 0 then minutes else 0)
    }

    function LockTtlSeconds(): nat {
      if configuredTtl >= tickSeconds + 5 then configuredTtl else tickSeconds + 5
    }

    /** isScheduledTaskEnabled */
    predicate Runs(task: Task) {
      enabled && Definition(task).enabled && Definition(task).intervalMinutes > 0
    }

    function IntervalMs(task: Task): nat {
      Definition(task).intervalMinutes * 60 * 1000
    }

    function NextRunAt(task: Task, now: Time, trigger: Trigger): Option<Time> {
      var d := Definition(task);
      if !d.enabled || d.intervalMinutes <= 0 then None
      else if trigger.Scheduled? || Runs(task) then Some(now + IntervalMs(task))
      else None
    }
  }

  /** One `writeTaskState`. `again` marks the second write of a run whose audit record failed. */
  datatype Write = Write(task: Task, ranAt: Time, nextRunAt: Option<Time>, result: RunResult, trigger: Trigger,
                         taskEnabled: bool, intervalMinutes: nat, jobId: Option<JobId>, again: bool)

  datatype Stored = Stored(ranAt: Time, nextRunAt: Option<Time>, result: RunResult, trigger: Trigger,
                           taskEnabled: bool, intervalMinutes: nat,
                           lastSuccessAt: Option<Time>, lastFailureAt: Option<Time>, lastJobId: Option<JobId>)

  function Overwrite(previous: Option<Stored>, e: Write): Stored {
    Stored(e.ranAt, e.nextRunAt, e.result, e.trigger, e.taskEnabled, e.intervalMinutes,
           if e.result.RQueued? then Some(e.ranAt) else if previous.Some? then previous.value.lastSuccessAt else None,
           if e.result.RFailed? then Some(e.ranAt) else if previous.Some? then previous.value.lastFailureAt else None,
           e.jobId)
  }

  type TaskTable = map<Task, Stored>

  function Put(table: TaskTable, e: Write): TaskTable {
    table[e.task := Overwrite(if e.task in table then Some(table[e.task]) else None, e)]
  }

  /** `executeTaskIfDue`: enabled, and no stored next run in the future. */
  predicate IsDue(c: SchedulerConfig, table: TaskTable, task: Task, now: Time) {
    && c.Runs(task)
    && (task in table && table[task].nextRunAt.Some? ==> table[task].nextRunAt.value <= now)
  }

  predicate AlreadyOff(c: SchedulerConfig, row: Stored, task: Task) {
    row.result.RSkippedDisabled? && !row.taskEnabled && row.intervalMinutes == c.Definition(task).intervalMinutes
  }

  // ---------------------------------------------------------------- the stored state against the history

  function PutAll(history: seq<Write>): TaskTable {
    if history == [] then map[] else Put(PutAll(history[..|history| - 1]), history[|history| - 1])
  }

  /** When the task last ended with the given result, read off the whole history. */
  function LastEnded(history: seq<Write>, task: Task, result: RunResult): Option<Time> {
    if history == [] then None
    else
      var e := history[|history| - 1];
      if e.task == task && e.result == result then Some(e.ranAt)
      else LastEnded(history[..|history| - 1], task, result)
  }

  function LastOf(history: seq<Write>, task: Task): Option<Write> {
    if history == [] then None
    else if history[|history| - 1].task == task then Some(history[|history| - 1])
    else LastOf(history[..|history| - 1], task)
  }

  /**
   The row stored for a task after any history of writes: it is the last write of that task, with
   `lastSuccessAt` and `lastFailureAt` the times of the last queued and the last failed run.
   */
  lemma {:induction false} StoredIsFold(history: seq<Write>, task: Task)
    ensures
      var table := PutAll(history);
      && (task in table <==> LastOf(history, task).Some?)
      && (task in table ==>
            var e := LastOf(history, task).value;
            && table[task].ranAt == e.ranAt && table[task].nextRunAt == e.nextRunAt
            && table[task].result == e.result && table[task].lastJobId == e.jobId
            && table[task].lastSuccessAt == LastEnded(history, task, RQueued)
            && table[task].lastFailureAt == LastEnded(history, task, RFailed))
      && (task !in table ==> LastEnded(history, task, RQueued).None? && LastEnded(history, task, RFailed).None?)
    decreases |history|
  {
    if history == [] {
    } else {
      StoredIsFold(history[..|history| - 1], task);
    }
  }

  /** The lock outlives a tick by at least five seconds. */
  lemma LockOutlivesTick(c: SchedulerConfig)
    ensures c.LockTtlSeconds() >= c.tickSeconds + 5 && c.LockTtlSeconds() >= c.configuredTtl
    ensures c.LockTtlSeconds() == c.tickSeconds + 5 || c.LockTtlSeconds() == c.configuredTtl
  {
  }

  // ---------------------------------------------------------------- active jobs

  predicate Active(row: Job, kind: JobType) {
    row.kind == kind && (row.status.Queued? || row.status.Running?)
  }

  ghost predicate AtMostOneActive(jobs: map<JobId, Job>, kind: JobType) {
    forall i, j :: i in jobs && j in jobs && Active(jobs[i], kind) && Active(jobs[j], kind) ==> i == j
  }

  ghost predicate NoActive(jobs: map<JobId, Job>, kind: JobType) {
    forall i :: i in jobs ==> !Active(jobs[i], kind)
  }

  // ---------------------------------------------------------------- the scheduler object

  /**
   How the enqueue of one run goes: well; the row is not created; the row is created and its event is not; or all is
   created and the audit record is not.
   */
  datatype EnqueueOutcome =
    | EnqueueOk(id: JobId)
    | EnqueueThrows
    | EventThrows(id: JobId)
    | AuditThrows(id: JobId)

  function RunWrite(c: SchedulerConfig, task: Task, now: Time, trigger: Trigger, result: RunResult,
                    jobId: Option<JobId>, again: bool): Write
  {
    var d := c.Definition(task);
    Write(task, now, c.NextRunAt(task, now, trigger), result, trigger, d.enabled, d.intervalMinutes, jobId, again)
  }

  /** What a tick writes for a task whose schedule is off. */
  function OffWrite(c: SchedulerConfig, task: Task, now: Time): Write {
    Write(task, now, None, RSkippedDisabled, Scheduled, false, c.Definition(task).intervalMinutes, None, false)
  }

  /** The writes of one `executeTask`, in order. */
  function RunWrites(c: SchedulerConfig, task: Task, now: Time, trigger: Trigger, actor: bool,
                      active: Option<JobId>, outcome: EnqueueOutcome): seq<Write>
  {
    if !c.Definition(task).enabled then [RunWrite(c, task, now, trigger, RSkippedDisabled, None, false)]
    else if !actor then [RunWrite(c, task, now, trigger, RFailed, None, false)]
    else if active.Some? then [RunWrite(c, task, now, trigger, RSkippedActive, active, false)]
    else match outcome
      case EnqueueOk(id) => [RunWrite(c, task, now, trigger, RQueued, Some(id), false)]
      case EnqueueThrows => [RunWrite(c, task, now, trigger, RFailed, None, false)]
      case EventThrows(_) => [RunWrite(c, task, now, trigger, RFailed, None, false)]
      case AuditThrows(id) =>
        [RunWrite(c, task, now, trigger, RQueued, Some(id), false), RunWrite(c, task, now, trigger, RFailed, None, true)]
  }

  function PutRun(table: TaskTable, writes: seq<Write>): TaskTable {
    if writes == [] then table else Put(PutRun(table, writes[..|writes| - 1]), writes[|writes| - 1])
  }

  lemma PutRunOf(table: TaskTable, x: Write, y: Write)
    ensures PutRun(table, [x]) == Put(table, x)
    ensures PutRun(table, [x, y]) == Put(Put(table, x), y)
  {
    assert [x][..0] == [];
    assert [x, y][..1] == [x];
  }

  class MaintenanceScheduler {
    const config: SchedulerConfig
    const service: JobsService
    var stored: TaskTable

    constructor (config: SchedulerConfig, service: JobsService)
      ensures this.config == config && this.service == service && stored == map[]
    {
      this.config, this.service, stored := config, service, map[];
    }

    /** The task's switch and its interval, as configured. */
    function Setting(task: Task): (bool, int) {
      match task
      case RetentionTask => config.retention
      case UploadTask => config.upload
      case SyncTask => config.sync
    }

    /** The kind of job that a task enqueues. */
    function JobKind(task: Task): JobType {
      match task
      case RetentionTask => RetentionCleanup
      case UploadTask => UploadCleanup
      case SyncTask => BucketSync
    }

    /** When the task is to run next, after a run now: never if it is switched off or has no interval. */
    function Next(task: Task, now: Time, trigger: Trigger): Option<Time> {
      if Setting(task).0 && Setting(task).1 > 0 && (trigger.Scheduled? || config.enabled)
      then Some(now + Setting(task).1 * 60000) else None
    }

    method WriteTaskState(e: Write)
      modifies this
      ensures stored == Put(old(stored), e)
      ensures e.task in stored && stored == old(stored)[e.task := stored[e.task]]
      ensures
        var row := stored[e.task];
        && row.ranAt == e.ranAt && row.nextRunAt == e.nextRunAt && row.result == e.result && row.trigger == e.trigger
        && row.taskEnabled == e.taskEnabled && row.intervalMinutes == e.intervalMinutes && row.lastJobId == e.jobId
        && row.lastSuccessAt == (if e.result == RQueued then Some(e.ranAt)
                                 else if e.task in old(stored) then old(stored)[e.task].lastSuccessAt else None)
        && row.lastFailureAt == (if e.result == RFailed then Some(e.ranAt)
                                 else if e.task in old(stored) then old(stored)[e.task].lastFailureAt else None)
    {
      var previous := if e.task in stored then Some(stored[e.task]) else None;
      stored := stored[e.task :=
        Stored(e.ranAt, e.nextRunAt, e.result, e.trigger, e.taskEnabled, e.intervalMinutes,
               if e.result.RQueued? then Some(e.ranAt)
               else if previous.Some? then previous.value.lastSuccessAt else None,
               if e.result.RFailed? then Some(e.ranAt)
               else if previous.Some? then previous.value.lastFailureAt else None,
               e.jobId)];
    }

    /** The active-job guard: some QUEUED or RUNNING job of the kind, if there is one. */
    method FindActive(kind: JobType) returns (active: Option<JobId>)
      ensures active.Some? ==> active.value in service.jobs && Active(service.jobs[active.value], kind)
      ensures active.None? ==> NoActive(service.jobs, kind)
      ensures active.Some? ==>
                && active.value in service.jobs && service.jobs[active.value].kind == kind
                && (service.jobs[active.value].status == Queued || service.jobs[active.value].status == Running)
      ensures active.None? ==> forall i :: i in service.jobs && service.jobs[i].kind == kind ==>
                service.jobs[i].status != Queued && service.jobs[i].status != Running
    {
      active := None;
      var todo := service.jobs.Keys;
      while todo != {} && active.None?
        invariant todo <= service.jobs.Keys
        invariant active.Some? ==> active.value in service.jobs && Active(service.jobs[active.value], kind)
        invariant active.None? ==> forall i :: i in service.jobs && i !in todo ==> !Active(service.jobs[i], kind)
        decreases todo
      {
        var id :| id in todo;
        if Active(service.jobs[id], kind) {
          active := Some(id);
        }
        todo := todo - {id};
      }
    }

    /** A run enqueues: switched on, with an actor, nothing active, and the row written. */
    ghost predicate Enqueues(task: Task, actor: bool, active: Option<JobId>, outcome: EnqueueOutcome) {
      Setting(task).0 && actor && active.None? && !outcome.EnqueueThrows?
    }

    /** How a run ends in the stored state. */
    function Result(task: Task, actor: bool, active: Option<JobId>, outcome: EnqueueOutcome): RunResult {
      if !Setting(task).0 then RSkippedDisabled
      else if !actor then RFailed
      else if active.Some? then RSkippedActive
      else if outcome.EnqueueOk? then RQueued
      else RFailed
    }

    /** Only the task's row changed, and it says this of the run; `queued` if it was at some point recorded as queued. */
    ghost predicate Recorded(before: TaskTable, after: TaskTable, task: Task, now: Time, trigger: Trigger,
                             result: RunResult, jobId: Option<JobId>, queued: bool) {
      && task in after && after == before[task := after[task]]
      && var row := after[task];
         && row.ranAt == now && row.nextRunAt == Next(task, now, trigger) && row.result == result && row.trigger == trigger
         && row.taskEnabled == Setting(task).0 && row.intervalMinutes == Max(Setting(task).1, 0) && row.lastJobId == jobId
         && row.lastSuccessAt == (if queued then Some(now) else if task in before then before[task].lastSuccessAt else None)
         && row.lastFailureAt == (if result == RFailed then Some(now) else if task in before then before[task].lastFailureAt else None)
    }

    /** What the writes of a run leave in the stored state, field by field. */
    lemma RunIsRecorded(before: TaskTable, task: Task, now: Time, trigger: Trigger, actor: bool, active: Option<JobId>,
                        outcome: EnqueueOutcome)
      ensures Recorded(before, PutRun(before, RunWrites(config, task, now, trigger, actor, active, outcome)),
                       task, now, trigger, Result(task, actor, active, outcome),
                       if !Setting(task).0 || !actor then None
                       else if active.Some? then active
                       else if outcome.EnqueueOk? then Some(outcome.id)
                       else None,
                       Enqueues(task, actor, active, outcome) && !outcome.EventThrows?)
    {
      var writes := RunWrites(config, task, now, trigger, actor, active, outcome);
      assert writes == if |writes| == 1 then [writes[0]] else [writes[0], writes[1]];
      PutRunOf(before, writes[0], writes[|writes| - 1]);
    }

    /**
     One `executeTask`, uninterrupted. It writes the run's writes, adds at most one job, and keeps "at most
     one active job" for every kind: it enqueues exactly when the task is enabled, an actor exists and
     no job of the kind is active.
     */
    method ExecuteTask(task: Task, now: Time, trigger: Trigger, actor: bool, outcome: EnqueueOutcome)
      returns (active: Option<JobId>)
      requires !outcome.EnqueueThrows? ==> outcome.id !in service.jobs && outcome.id !in service.events
      modifies this, service
      ensures stored == PutRun(old(stored), RunWrites(config, task, now, trigger, actor, active, outcome))
      ensures active.Some? ==> active.value in old(service.jobs) && Active(old(service.jobs)[active.value], KindOf(task))
      ensures active.None? && actor && config.Definition(task).enabled ==> NoActive(old(service.jobs), KindOf(task))
      ensures service.jobs ==
                if config.Definition(task).enabled && actor && active.None? && !outcome.EnqueueThrows?
                then old(service.jobs)[outcome.id := NewJob(service.config, KindOf(task), now)]
                else old(service.jobs)
      ensures forall kind :: AtMostOneActive(old(service.jobs), kind) ==> AtMostOneActive(service.jobs, kind)
      ensures Enqueues(task, actor, active, outcome) ==>
                && outcome.id in service.jobs && service.jobs[outcome.id].kind == JobKind(task)
                && service.jobs[outcome.id].status == Queued
                && service.jobs == old(service.jobs)[outcome.id := service.jobs[outcome.id]]
      ensures !Enqueues(task, actor, active, outcome) ==> service.jobs == old(service.jobs)
      ensures Setting(task).0 && actor ==>
                (active.None? <==> forall i :: i in old(service.jobs) && old(service.jobs)[i].kind == JobKind(task) ==>
                                     old(service.jobs)[i].status != Queued && old(service.jobs)[i].status != Running)
    {
      active := None;
      ghost var before := stored;
      forall x, y ensures PutRun(before, [x]) == Put(before, x) && PutRun(before, [x, y]) == Put(Put(before, x), y) {
        PutRunOf(before, x, y);
      }
      if !config.Definition(task).enabled {
        WriteTaskState(RunWrite(config, task, now, trigger, RSkippedDisabled, None, false));
        return;
      }
      if !actor {
        WriteTaskState(RunWrite(config, task, now, trigger, RFailed, None, false));
        return;
      }
      active := FindActive(KindOf(task));
      if active.Some? {
        WriteTaskState(RunWrite(config, task, now, trigger, RSkippedActive, active, false));
        return;
      }
      if outcome.EnqueueThrows? {
        WriteTaskState(RunWrite(config, task, now, trigger, RFailed, None, false));
        return;
      }
      var ok := service.Enqueue(outcome.id, KindOf(task), now, outcome.EventThrows?);
      if !ok {
        WriteTaskState(RunWrite(config, task, now, trigger, RFailed, None, false));
        return;
      }
      WriteTaskState(RunWrite(config, task, now, trigger, RQueued, Some(outcome.id), false));
      if outcome.AuditThrows? {
        WriteTaskState(RunWrite(config, task, now, trigger, RFailed, None, true));
      }
    }

    /** The scheduler and the task are switched on, and the task has an interval. */
    predicate OnSchedule(task: Task) {
      config.enabled && Setting(task).0 && Setting(task).1 > 0
    }

    /**
     One `executeTaskIfDue`. A task whose schedule is off is recorded as such once; a task that is not due
     changes nothing; a due task is executed.
     */
    method ExecuteTaskIfDue(task: Task, now: Time, actor: bool, outcome: EnqueueOutcome) returns (active: Option<JobId>)
      requires !outcome.EnqueueThrows? ==> outcome.id !in service.jobs && outcome.id !in service.events
      modifies this, service
      ensures !config.Runs(task) ==> service.View() == old(service.View())
      ensures !config.Runs(task) ==>
                stored == if task in old(stored) && AlreadyOff(config, old(stored)[task], task) then old(stored)
                          else Put(old(stored), OffWrite(config, task, now))
      ensures config.Runs(task) && !IsDue(config, old(stored), task, now) ==>
                stored == old(stored) && service.View() == old(service.View())
      ensures IsDue(config, old(stored), task, now) ==>
                stored == PutRun(old(stored), RunWrites(config, task, now, Scheduled, actor, active, outcome))
      ensures forall kind :: AtMostOneActive(old(service.jobs), kind) ==> AtMostOneActive(service.jobs, kind)
      ensures OnSchedule(task) && (task in old(stored) && old(stored)[task].nextRunAt.Some? ==> old(stored)[task].nextRunAt.value <= now) ==>
                && (active.None? && actor && !outcome.EnqueueThrows? ==>
                      && outcome.id in service.jobs && service.jobs[outcome.id].kind == JobKind(task)
                      && service.jobs[outcome.id].status == Queued)
                && (actor ==> (active.None? <==>
                      forall i :: i in old(service.jobs) && old(service.jobs)[i].kind == JobKind(task) ==>
                        old(service.jobs)[i].status != Queued && old(service.jobs)[i].status != Running))
                && task in stored && stored[task].ranAt == now && stored[task].nextRunAt == Some(now + Setting(task).1 * 60000)
                && stored[task].result == Result(task, actor, active, outcome) && stored[task].trigger == Scheduled
      ensures OnSchedule(task) && task in old(stored) && old(stored)[task].nextRunAt.Some? && old(stored)[task].nextRunAt.value > now ==>
                stored == old(stored) && service.jobs == old(service.jobs)
      ensures !OnSchedule(task) ==>
                && service.jobs == old(service.jobs) && task in stored && stored[task].result == RSkippedDisabled
                && !stored[task].taskEnabled && stored[task].intervalMinutes == Max(Setting(task).1, 0)
                && stored == old(stored)[task := stored[task]]
                && if task in old(stored) && old(stored)[task].result == RSkippedDisabled && !old(stored)[task].taskEnabled
                      && old(stored)[task].intervalMinutes == Max(Setting(task).1, 0)
                   then stored == old(stored)
                   else stored[task].ranAt == now && stored[task].nextRunAt == None
    {
      active := None;
      if !config.Runs(task) {
        if task in stored && AlreadyOff(config, stored[task], task) {
          return;
        }
        WriteTaskState(OffWrite(config, task, now));
        return;
      }
      if task in stored && stored[task].nextRunAt.Some? && stored[task].nextRunAt.value > now {
        return;
      }
      ghost var before := stored;
      active := ExecuteTask(task, now, Scheduled, actor, outcome);
      RunIsRecorded(before, task, now, Scheduled, actor, active, outcome);
    }
  }
}
