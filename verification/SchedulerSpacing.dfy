/**
 How far apart the scheduled runs of a task are, over whole runs of the scheduler system, and that the stored
 task states are the fold of the recorded history.
 */
module SchedulerSpacing {
  import opened Base
  import Jobs
  import opened SchedulerTasks
  import opened SchedulerQueue

  // ---------------------------------------------------------------- invariants

  /** A recorded write carries the next run of its task. */
  ghost predicate WriteOk(c: Config, w: Write) {
    c.tasks.Runs(w.task) ==> w.nextRunAt == Some(w.ranAt + c.tasks.IntervalMs(w.task))
  }

  /** Every recorded run of the task is at least an interval before `now`. */
  ghost predicate Rested(c: Config, history: seq<Write>, task: Task, now: Time) {
    forall i :: 0 <= i < |history| && history[i].task == task ==> history[i].ranAt + c.tasks.IntervalMs(task) <= now
  }

  ghost predicate AllBefore(history: seq<Write>, now: Time) {
    forall i :: 0 <= i < |history| ==> history[i].ranAt <= now
  }

  /** A scheduled run of a task that runs on a schedule, and not the second write of such a run. */
  predicate ScheduledRun(c: Config, w: Write) {
    c.tasks.Runs(w.task) && w.trigger.Scheduled? && !w.again
  }

  /** Recorded times never go back, and a scheduled run is an interval after all earlier runs of its task. */
  ghost predicate Spaced(c: Config, history: seq<Write>) {
    forall i, j :: 0 <= i < j < |history| ==>
      && history[i].ranAt <= history[j].ranAt
      && (ScheduledRun(c, history[j]) && history[i].task == history[j].task ==>
            history[i].ranAt + c.tasks.IntervalMs(history[j].task) <= history[j].ranAt)
  }

  ghost predicate HistoryOk(c: Config, s: State) {
    && s.table == PutAll(s.history)
    && (forall i :: 0 <= i < |s.history| ==> WriteOk(c, s.history[i]))
    && AllBefore(s.history, s.q.clock)
    && Spaced(c, s.history)
  }

  /** What a process inside its section knows, stage by stage. */
  ghost predicate StageOk(c: Config, s: State, p: Proc) {
    InSection(s, p) && !s.At(p).stage.Entered? ==>
      var sec, stage := s.At(p).sec, s.At(p).stage;
      && sec.now <= s.q.clock && AllBefore(s.history, sec.now)
      && match stage
         case Checking(task, trigger) => Due(c, s, sec.now, task, trigger)
         case Clear(task, trigger) => Due(c, s, sec.now, task, trigger)
         case Recording(w) =>
           && w.ranAt == sec.now && WriteOk(c, w)
           && (ScheduledRun(c, w) ==> Rested(c, s.history, w.task, sec.now))
         case _ => true
  }

  ghost predicate Due(c: Config, s: State, now: Time, task: Task, trigger: Trigger) {
    trigger.Scheduled? ==> c.tasks.Runs(task) && Rested(c, s.history, task, now)
  }

  ghost predicate Stages(c: Config, s: State) {
    forall p: Proc :: StageOk(c, s, p)
  }

  // ---------------------------------------------------------------- the due check

  lemma {:induction false} LastIsLatest(c: Config, history: seq<Write>, task: Task, i: nat)
    requires Spaced(c, history) && i < |history| && history[i].task == task
    ensures LastOf(history, task).Some? && history[i].ranAt <= LastOf(history, task).value.ranAt
    ensures LastOf(history, task).value in history && LastOf(history, task).value.task == task
    decreases |history|
  {
    var n := |history| - 1;
    if history[n].task != task {
      LastIsLatest(c, history[..n], task, i);
    }
  }

  /** A task found due at `now` has rested: the stored next run is that of its latest run. */
  lemma DueMeansRested(c: Config, s: State, task: Task, now: Time)
    requires HistoryOk(c, s) && IsDue(c.tasks, s.table, task, now)
    ensures Rested(c, s.history, task, now)
  {
    StoredIsFold(s.history, task);
    forall i | 0 <= i < |s.history| && s.history[i].task == task
      ensures s.history[i].ranAt + c.tasks.IntervalMs(task) <= now
    {
      LastIsLatest(c, s.history, task, i);
      var last := LastOf(s.history, task).value;
      assert WriteOk(c, last);
    }
  }

  /** A task that runs on schedule is due exactly when it has rested for its interval since its latest run. */
  lemma DueIffRested(c: Config, s: State, task: Task, now: Time)
    requires HistoryOk(c, s)
    ensures IsDue(c.tasks, s.table, task, now) <==> c.tasks.Runs(task) && Rested(c, s.history, task, now)
  {
    if IsDue(c.tasks, s.table, task, now) {
      DueMeansRested(c, s, task, now);
    }
    if c.tasks.Runs(task) && Rested(c, s.history, task, now) {
      StoredIsFold(s.history, task);
      if task in s.table {
        LastIsWritten(s.history, task);
        assert WriteOk(c, LastOf(s.history, task).value);
      }
    }
  }

  lemma {:induction false} LastIsWritten(history: seq<Write>, task: Task)
    requires LastOf(history, task).Some?
    ensures exists i :: 0 <= i < |history| && history[i] == LastOf(history, task).value && history[i].task == task
    decreases |history|
  {
    var n := |history| - 1;
    if history[n].task == task {
    } else {
      LastIsWritten(history[..n], task);
      var i :| 0 <= i < n && history[..n][i] == LastOf(history[..n], task).value && history[..n][i].task == task;
      assert history[i] == LastOf(history, task).value;
    }
  }

  // ---------------------------------------------------------------- steps

  /** A process takes up a task. */
  lemma TakeUpStep(c: Config, s: State, a: Action, t: State)
    requires a.Due? || a.Off? || a.RunNow? || a.GuardClear?
    requires HistoryOk(c, s) && StageOk(c, s, a.p) && Step(c, true, s, a, t)
    ensures StageOk(c, t, a.p)
  {
    if a.Due? {
      DueMeansRested(c, s, a.task, s.At(a.p).sec.now);
    }
    assert t.history == s.history;
  }

  /** A process is done with a task and is about to record it. */
  lemma OutcomeStep(c: Config, s: State, a: Action, t: State)
    requires a.NoActor? || a.GuardFinds? || a.EnqueueJob? || a.EnqueueFails?
    requires StageOk(c, s, a.p) && Step(c, true, s, a, t)
    ensures StageOk(c, t, a.p)
  {
    assert t.history == s.history;
    ClockStep(c, true, s, a, t);
  }

  lemma SpacedAppend(c: Config, history: seq<Write>, w: Write)
    requires Spaced(c, history) && AllBefore(history, w.ranAt)
    requires ScheduledRun(c, w) ==> Rested(c, history, w.task, w.ranAt)
    ensures Spaced(c, history + [w])
  {
  }

  lemma RecordHistory(c: Config, s: State, a: Action, t: State)
    requires a.Record? && HistoryOk(c, s) && StageOk(c, s, a.p) && Step(c, true, s, a, t)
    ensures HistoryOk(c, t)
  {
    var w := s.At(a.p).stage.w;
    assert t.history == s.history + [w];
    assert t.history[..|t.history| - 1] == s.history;
    SpacedAppend(c, s.history, w);
    forall i | 0 <= i < |t.history|
      ensures WriteOk(c, t.history[i]) && t.history[i].ranAt <= t.q.clock
    {
      assert i < |s.history| ==> WriteOk(c, s.history[i]);
    }
  }

  lemma RecordStage(c: Config, s: State, a: Action, t: State)
    requires a.Record? && StageOk(c, s, a.p) && Step(c, true, s, a, t)
    ensures StageOk(c, t, a.p)
  {
    assert t.history == s.history + [s.At(a.p).stage.w];
  }

  lemma BeginStep(c: Config, s: State, a: Action, t: State)
    requires HistoryOk(c, s) && Step(c, true, s, a, t) && a.Begin?
    ensures StageOk(c, t, a.p)
  {
  }

  lemma OthersKeep(c: Config, s: State, a: Action, t: State, p: Proc)
    requires LockOk(s) && StageOk(c, s, p) && Step(c, true, s, a, t) && ProcOf(a) != Some(p)
    ensures StageOk(c, t, p)
  {
    ProcFrame(c, true, s, a, t);
    if InSection(t, p) {
      assert InSection(s, p);
      assert t.history == s.history;
    }
  }

  lemma StagesStep(c: Config, s: State, a: Action, t: State, p: Proc)
    requires LockOk(s) && HistoryOk(c, s) && Stages(c, s) && Step(c, true, s, a, t)
    ensures StageOk(c, t, p)
  {
    assert StageOk(c, s, p);
    if ProcOf(a) != Some(p) {
      OthersKeep(c, s, a, t, p);
    } else if a.Record? {
      RecordStage(c, s, a, t);
    } else if a.Begin? {
      BeginStep(c, s, a, t);
    } else if a.NoActor? || a.GuardFinds? || a.EnqueueJob? || a.EnqueueFails? {
      OutcomeStep(c, s, a, t);
    } else if a.Due? || a.Off? || a.RunNow? || a.GuardClear? {
      TakeUpStep(c, s, a, t);
    }
  }

  lemma HistoryStep(c: Config, s: State, a: Action, t: State)
    requires HistoryOk(c, s) && Stages(c, s) && Step(c, true, s, a, t)
    ensures HistoryOk(c, t)
  {
    if a.Record? {
      assert StageOk(c, s, a.p);
      RecordHistory(c, s, a, t);
    } else {
      ProcFrame(c, true, s, a, t);
    }
  }

  lemma {:induction false} HistoriesHold(c: Config, r: Run, n: nat)
    requires c.jobs.Valid() && r.Valid(c, true) && n <= |r.acts|
    ensures HistoryOk(c, r.states[n]) && Stages(c, r.states[n])
  {
    if n == 0 {
    } else {
      HistoriesHold(c, r, n - 1);
      Reachable(c, r, n - 1);
      var s, a, t := r.states[n - 1], r.acts[n - 1], r.states[n];
      assert Step(c, true, s, a, t);
      HistoryStep(c, s, a, t);
      forall p: Proc ensures StageOk(c, t, p) { StagesStep(c, s, a, t, p); }
    }
  }

  // ---------------------------------------------------------------- main results

  /**
   In every run: a scheduled run of a task is at least its interval after every earlier recorded run of the task,
   scheduled or manual.
   */
  lemma ScheduledRunsAreSpaced(c: Config, r: Run, n: nat, i: nat, j: nat)
    requires c.jobs.Valid() && r.Valid(c, true) && n <= |r.acts|
    requires i < j < |r.states[n].history| && ScheduledRun(c, r.states[n].history[j])
    requires r.states[n].history[i].task == r.states[n].history[j].task
    ensures
      var h := r.states[n].history;
      h[i].ranAt + c.tasks.IntervalMs(h[j].task) <= h[j].ranAt
  {
    HistoriesHold(c, r, n);
  }

  /**
   The other half: in every run, a tick inside its section can take up a task exactly when the scheduler and the task
   are on, the task has an interval, and that many minutes have passed since each of its recorded runs.
   */
  lemma RestedTasksAreTakenUp(c: Config, r: Run, n: nat, p: Proc, task: Task)
    requires c.jobs.Valid() && r.Valid(c, true) && n <= |r.acts| && MayRun(r.states[n], p, None)
    ensures
      var h, now := r.states[n].history, r.states[n].At(p).sec.now;
      var (on, minutes) := match task
        case RetentionTask => c.tasks.retention
        case UploadTask => c.tasks.upload
        case SyncTask => c.tasks.sync;
      Enabled(c, r.states[n], Action.Due(p, task)) <==>
        && c.tasks.enabled && on && minutes > 0
        && forall i :: 0 <= i < |h| && h[i].task == task ==> h[i].ranAt + minutes * 60000 <= now
  {
    HistoriesHold(c, r, n);
    DueIffRested(c, r.states[n], task, r.states[n].At(p).sec.now);
  }

  /** In every run the stored row of a task is its last write, with the success and failure times of its history. */
  lemma StoredStateIsHistory(c: Config, r: Run, n: nat, task: Task)
    requires c.jobs.Valid() && r.Valid(c, true) && n <= |r.acts| && task in r.states[n].table
    ensures
      var s := r.states[n];
      && LastOf(s.history, task).Some?
      && s.table[task].ranAt == LastOf(s.history, task).value.ranAt
      && s.table[task].nextRunAt == LastOf(s.history, task).value.nextRunAt
      && s.table[task].lastSuccessAt == LastEnded(s.history, task, RQueued)
      && s.table[task].lastFailureAt == LastEnded(s.history, task, RFailed)
  {
    HistoriesHold(c, r, n);
    StoredIsFold(r.states[n].history, task);
  }

  predicate InWindow(c: Config, w: Write, task: Task, from: Time, to: Time) {
    w.task == task && ScheduledRun(c, w) && from <= w.ranAt <= to
  }

  /** How many of the first `n` writes are scheduled runs of the task within the window. */
  function RunsWithin(c: Config, history: seq<Write>, n: nat, task: Task, from: Time, to: Time): nat
    requires n <= |history|
  {
    if n == 0 then 0
    else RunsWithin(c, history, n - 1, task, from, to) + if InWindow(c, history[n - 1], task, from, to) then 1 else 0
  }

  /** Scheduled runs of the task come at least `step` after every earlier run of it. */
  ghost predicate Gaps(c: Config, history: seq<Write>, task: Task, step: nat) {
    forall i, j :: 0 <= i < j < |history| && history[i].task == task && history[j].task == task && ScheduledRun(c, history[j])
      ==> history[i].ranAt + step <= history[j].ranAt
  }

  lemma OneStepMore(k: nat, step: nat)
    requires k > 0
    ensures (k - 1) * step + step == k * step
  {
  }

  /** The last scheduled run in the window comes late enough to leave room for the others. */
  lemma {:induction false} WindowFills(c: Config, history: seq<Write>, n: nat, task: Task, from: Time, to: Time, step: nat)
    returns (last: nat)
    requires Gaps(c, history, task, step) && n <= |history| && RunsWithin(c, history, n, task, from, to) > 0
    ensures last < n && InWindow(c, history[last], task, from, to)
    ensures from + (RunsWithin(c, history, n, task, from, to) - 1) * step <= history[last].ranAt
  {
    var before := RunsWithin(c, history, n - 1, task, from, to);
    if !InWindow(c, history[n - 1], task, from, to) {
      last := WindowFills(c, history, n - 1, task, from, to, step);
    } else {
      last := n - 1;
      if before > 0 {
        var previous := WindowFills(c, history, n - 1, task, from, to, step);
        assert history[previous].ranAt + step <= history[last].ranAt;
        OneStepMore(before, step);
      }
    }
  }

  /** A bound on a product is a bound on a quotient. */
  lemma DivideBound(k: nat, step: nat, length: nat)
    requires step > 0 && k * step <= length
    ensures k <= length / step
  {
    var q := length / step;
    assert length < (q + 1) * step;
    if q < k {
      MulMono(q + 1, k, step);
      assert false;
    }
  }

  lemma SpacedWindow(c: Config, history: seq<Write>, task: Task, from: Time, length: nat, step: nat)
    requires Gaps(c, history, task, step) && step > 0
    ensures RunsWithin(c, history, |history|, task, from, from + length) <= 1 + length / step
  {
    var k := RunsWithin(c, history, |history|, task, from, from + length);
    if k > 0 {
      var last := WindowFills(c, history, |history|, task, from, from + length, step);
      DivideBound(k - 1, step, length);
    }
  }

  /** Any window of length L holds at most 1 + floor(L / interval) scheduled runs of a task. */
  lemma WindowBound(c: Config, r: Run, n: nat, task: Task, from: Time, length: nat)
    requires c.jobs.Valid() && r.Valid(c, true) && n <= |r.acts| && c.tasks.Runs(task)
    ensures
      var h := r.states[n].history;
      RunsWithin(c, h, |h|, task, from, from + length) <= 1 + length / c.tasks.IntervalMs(task)
  {
    HistoriesHold(c, r, n);
    SpacedWindow(c, r.states[n].history, task, from, length, c.tasks.IntervalMs(task));
  }
}
