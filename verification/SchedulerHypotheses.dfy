/**
 Why lock values must differ. A tick locks with `scheduler-<pid>:<millisecond>`, and processes in separate containers
 can share both. Then the tick that lost the lock frees the winner's, and two jobs of one kind become active.
 */
module SchedulerHypotheses {
  import opened Base
  import Jobs
  import opened SchedulerTasks
  import opened SchedulerQueue
  import Q = JobQueue

  // ---------------------------------------------------------------- exactly when releases are harmless

  /** The release, if the action is one, leaves the lock of every process inside its section alone. */
  ghost predicate Harmless(s: State, a: Action, t: State) {
    Releases(a) ==> forall x: Proc :: x != a.p && InSection(s, x) ==> t.lock == s.lock
  }

  lemma HarmlessIffSpares(c: Config, s: State, a: Action, t: State)
    requires LockOk(s) && Step(c, false, s, a, t)
    ensures Harmless(s, a, t) <==> Spares(s, a)
  {
    if Releases(a) {
      forall x: Proc | x != a.p && InSection(s, x)
        ensures t.lock == s.lock <==> ValueOf(s.At(x)) != ValueOf(s.At(a.p))
      {
        assert s.lock == Some(Lease(s.At(x).sec.value, s.At(x).sec.deadline));
      }
    }
  }

  ghost predicate HarmlessThrough(r: Run, n: nat)
    requires n <= |r.acts| && |r.states| == |r.acts| + 1
  {
    forall i: nat :: i < n ==> Harmless(r.states[i], r.acts[i], r.states[i + 1])
  }

  ghost predicate SparesThrough(r: Run, n: nat)
    requires n <= |r.acts| && |r.states| == |r.acts| + 1
  {
    forall i: nat :: i < n ==> Spares(r.states[i], r.acts[i])
  }

  lemma HarmlessNext(c: Config, r: Run, n: nat)
    requires c.jobs.Valid() && r.Valid(c, false) && n < |r.acts| && SparesThrough(r, n)
    ensures Harmless(r.states[n], r.acts[n], r.states[n + 1]) <==> Spares(r.states[n], r.acts[n])
  {
    ReachableSparing(c, false, r, n);
    assert Step(c, false, r.states[n], r.acts[n], r.states[n + 1]);
    HarmlessIffSpares(c, r.states[n], r.acts[n], r.states[n + 1]);
  }

  lemma {:induction false} HarmlessUpTo(c: Config, r: Run, n: nat)
    requires c.jobs.Valid() && r.Valid(c, false) && n <= |r.acts|
    ensures HarmlessThrough(r, n) <==> SparesThrough(r, n)
  {
    if n == 0 {
    } else {
      HarmlessUpTo(c, r, n - 1);
      if SparesThrough(r, n - 1) {
        HarmlessNext(c, r, n - 1);
      }
    }
  }

  /**
   In every run, whatever values are drawn: no release ever frees the lock of a process inside its section if and only
   if every release finds nobody else inside with the value it releases, that is, with the same process id, trigger
   and millisecond.
   */
  lemma ReleasesAreHarmlessIff(c: Config, r: Run)
    requires c.jobs.Valid() && r.Valid(c, false)
    ensures HarmlessThrough(r, |r.acts|) <==> SparesThrough(r, |r.acts|)
  {
    HarmlessUpTo(c, r, |r.acts|);
  }

  // ---------------------------------------------------------------- a shared process id

  ghost function Last(r: Run): State
    requires r.states != []
  {
    r.states[|r.states| - 1]
  }

  /** The run continued by one action. */
  lemma Extend(c: Config, r: Run, a: Action) returns (x: Run)
    requires r.Valid(c, false) && Enabled(c, Last(r), a)
    ensures x.Valid(c, false) && Last(x) == Apply(c, Last(r), a)
    ensures x.acts == r.acts + [a] && x.states == r.states + [Apply(c, Last(r), a)]
  {
    x := Run(r.states + [Apply(c, Last(r), a)], r.acts + [a]);
    forall i | 0 <= i < |x.acts|
      ensures Step(c, false, x.states[i], x.acts[i], x.states[i + 1])
    {
      if i < |r.acts| {
        assert Step(c, false, r.states[i], r.acts[i], r.states[i + 1]);
      }
    }
  }

  const EMPTY_QUEUE: Q.State := Q.State(0, map[], map[], map[], map[], 0, {})

  function Ttl(c: Config): nat {
    c.tasks.LockTtlSeconds() * 1000
  }

  /** The section of process `p` that ticked at time 0. */
  function TickSection(c: Config, p: Proc): Section {
    Section(LockValue(c.pid(p), None, 0), Ttl(c), 0)
  }

  /** Nothing has been recorded or enqueued yet. */
  ghost predicate Untouched(s: State) {
    s.q == EMPTY_QUEUE && s.table == map[] && s.history == []
  }

  /** Process 2 loses the lock to process 1 and is about to give up the value they share. */
  lemma LosesLock(c: Config) returns (r: Run)
    requires c.jobs.Valid() && c.pid(1) == c.pid(2)
    ensures r.Valid(c, false) && Untouched(Last(r))
    ensures
      var s := Last(r);
      && s.At(1) == In(TickSection(c, 1), Entered) && s.At(2) == Leaving(LockValue(c.pid(1), None, 0)) && s.At(3) == Out
      && s.lock == Some(Lease(LockValue(c.pid(1), None, 0), Ttl(c)))
  {
    var s := State(EMPTY_QUEUE, None, map[], map[], []);
    r := Run([s], []);
    r := Extend(c, r, TryEnter(1, None, 0));
    r := Extend(c, r, TryEnter(2, None, 0));
  }

  /** Process 2 frees the lock of process 1, and process 3 enters beside it. */
  lemma TwoEnter(c: Config) returns (r: Run)
    requires c.jobs.Valid() && c.pid(1) == c.pid(2)
    ensures r.Valid(c, false) && Untouched(Last(r))
    ensures Last(r).At(1) == In(TickSection(c, 1), Entered) && Last(r).At(3) == In(TickSection(c, 3), Entered)
  {
    r := LosesLock(c);
    r := Extend(c, r, ReleaseUnheld(2));
    r := Extend(c, r, TryEnter(3, None, 0));
  }

  /** Both find the task due. */
  lemma BothDue(c: Config, task: Task) returns (r: Run)
    requires c.jobs.Valid() && c.pid(1) == c.pid(2) && c.tasks.Runs(task)
    ensures r.Valid(c, false) && Untouched(Last(r))
    ensures Last(r).At(1) == In(TickSection(c, 1), Checking(task, Scheduled))
    ensures Last(r).At(3) == In(TickSection(c, 3), Checking(task, Scheduled))
  {
    r := TwoEnter(c);
    r := Extend(c, r, Begin(1));
    r := Extend(c, r, Begin(3));
    r := Extend(c, r, Due(1, task));
    r := Extend(c, r, Due(3, task));
  }

  /** Both see no active job. */
  lemma BothClear(c: Config, task: Task) returns (r: Run)
    requires c.jobs.Valid() && c.pid(1) == c.pid(2) && c.tasks.Runs(task)
    ensures r.Valid(c, false) && Untouched(Last(r))
    ensures Last(r).At(1) == In(TickSection(c, 1), Clear(task, Scheduled))
    ensures Last(r).At(3) == In(TickSection(c, 3), Clear(task, Scheduled))
  {
    r := BothDue(c, task);
    r := Extend(c, r, GuardClear(1));
    r := Extend(c, r, GuardClear(3));
  }

  /**
   Without H4 uniqueness fails: if two instances share a process id and tick in the same millisecond, some run, within
   H5, ends with two processes inside the critical section and two active jobs of one kind.
   */
  lemma SharedPidBreaksUniqueness(c: Config, task: Task) returns (r: Run)
    requires c.jobs.Valid() && c.pid(1) == c.pid(2) && c.tasks.Runs(task)
    ensures r.Valid(c, false)
    ensures InSection(Last(r), 1) && InSection(Last(r), 3)
    ensures !AtMostOneActive(Last(r).q.jobs, KindOf(task))
  {
    r := BothClear(c, task);
    var first := Jobs.NewJob(c.jobs, KindOf(task), 0);
    r := Extend(c, r, EnqueueJob(1, 0, 0, false));
    assert Last(r).q.jobs == map[0 := first] && Last(r).q.log == map[];
    assert Last(r).q.At(1).Idle?;
    r := Extend(c, r, EnqueueJob(3, 1, 1, false));
    assert Last(r).q.jobs == map[0 := first, 1 := first];
    assert Active(Last(r).q.jobs[0], KindOf(task)) && Active(Last(r).q.jobs[1], KindOf(task));
  }
}
