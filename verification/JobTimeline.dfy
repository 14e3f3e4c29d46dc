/**
 The event timeline of a job. Under H1 a timeline never holds two terminal events, holds none while the
 job is not terminal, and holds exactly the event that matches its status once the job is terminal,
 unless a crash cut the actor that still had to write it.
 */
module JobTimeline {
  import opened Base
  import opened Jobs
  import opened JobQueue
  import opened JobSafety

  /** How many terminal events a timeline holds. */
  function Ends(events: seq<Event>): nat {
    multiset(events)[EvCompleted] + multiset(events)[EvFailed] + multiset(events)[EvCanceled]
  }

  /** Every terminal event in the timeline says what the status says. */
  ghost predicate Matches(events: seq<Event>, s: Status) {
    && (EvCompleted in events ==> s.Completed?)
    && (EvFailed in events ==> s.Failed?)
    && (EvCanceled in events ==> s.Canceled?)
  }

  lemma EndsAppend(events: seq<Event>, e: Event)
    ensures Ends(events + [e]) == Ends(events) + if TerminalEvent(e) then 1 else 0
  {
    assert multiset(events + [e]) == multiset(events) + multiset{e};
  }

  lemma EndsPop(events: seq<Event>)
    requires events != []
    ensures Ends(events) == Ends(events[1..]) + if TerminalEvent(events[0]) then 1 else 0
  {
    assert events == [events[0]] + events[1..];
    assert multiset(events) == multiset{events[0]} + multiset(events[1..]);
  }

  lemma EndsZero(events: seq<Event>)
    ensures Ends(events) == 0 <==> forall e :: e in events ==> !TerminalEvent(e)
  {
    assert forall e :: e in multiset(events) <==> e in events;
    if Ends(events) > 0 {
      assert EvCompleted in events || EvFailed in events || EvCanceled in events;
    } else {
      assert EvCompleted !in multiset(events) && EvFailed !in multiset(events) && EvCanceled !in multiset(events);
    }
  }

  /** The terminal events that an actor still has to write for a job. */
  ghost function Due(s: State, w: Actor, id: JobId): nat {
    if s.At(w).Tail? && s.At(w).id == id then Ends(s.At(w).pending) else 0
  }

  ghost predicate TimelineOk(s: State, id: JobId)
    requires id in s.jobs
  {
    var status := s.jobs[id].status;
    && Matches(s.Logged(id), status)
    && (!Terminal(status) ==> Ends(s.Logged(id)) == 0)
    && (Ends(s.Logged(id)) <= 1)
    && (forall w: Actor :: Due(s, w, id) > 0 ==>
          && Terminal(status) && Due(s, w, id) == 1 && Ends(s.Logged(id)) == 0
          && Matches(s.At(w).pending, status))
    && (forall v: Actor, w: Actor :: Due(s, v, id) > 0 && Due(s, w, id) > 0 ==> v == w)
    && (Terminal(status) && id !in s.cut && (forall w: Actor :: Due(s, w, id) == 0) ==> Ends(s.Logged(id)) == 1)
  }

  ghost predicate Timelines(s: State) {
    forall id :: id in s.jobs ==> TimelineOk(s, id)
  }

  /** What the finishing calls leave to be written: one matching terminal event, or none for a retry. */
  lemma FinishEvents(c: Config, row: Job, now: Time)
    ensures Ends([EvCompleted]) == 1 && Matches([EvCompleted], CompleteRow(row, now).status)
    ensures Ends([EvCanceled]) == 1 && Matches([EvCanceled], CancelRow(row, now).status)
    ensures Ends(FailEvents(row)) == (if Terminal(FailRow(c, row, now).status) then 1 else 0)
    ensures Matches(FailEvents(row), FailRow(c, row, now).status)
    ensures Ends(RequestCancelEvents(row)) == (if row.status.Queued? then 1 else 0)
    ensures Matches(RequestCancelEvents(row), RequestCancelRow(row, now).status)
    ensures Ends([Created]) == 0
  {
  }

  /** An action on another job, or of nobody's, leaves a timeline as it was. */
  ghost predicate SameView(s: State, t: State, id: JobId) {
    && id in s.jobs && id in t.jobs
    && (s.jobs[id].status == t.jobs[id].status || (!Terminal(s.jobs[id].status) && !Terminal(t.jobs[id].status)))
    && (id in s.cut <==> id in t.cut)
  }

  lemma Unmoved(s: State, t: State, id: JobId, m: Option<Actor>)
    requires SameView(s, t, id) && TimelineOk(s, id)
    requires Ends(t.Logged(id)) == Ends(s.Logged(id))
    requires Matches(t.Logged(id), t.jobs[id].status)
    requires forall w: Actor :: m != Some(w) ==> t.At(w) == s.At(w)
    requires m.Some? ==> Due(s, m.value, id) == 0 && Due(t, m.value, id) == 0
    ensures TimelineOk(t, id)
  {
    forall w: Actor
      ensures Due(t, w, id) == Due(s, w, id)
      ensures Due(t, w, id) > 0 ==> t.At(w) == s.At(w)
    {
    }
  }

  /** A finish of a non-terminal job, by an actor that had nothing due. */
  lemma Finished(s: State, t: State, id: JobId, w: Actor)
    requires id in s.jobs && id in t.jobs && TimelineOk(s, id)
    requires !Terminal(s.jobs[id].status)
    requires forall v: Actor :: v != w ==> t.At(v) == s.At(v)
    requires t.Logged(id) == s.Logged(id)
    requires t.At(w).Tail? && t.At(w).id == id && Matches(t.At(w).pending, t.jobs[id].status)
    requires Ends(t.At(w).pending) == if Terminal(t.jobs[id].status) then 1 else 0
    ensures TimelineOk(t, id)
  {
    EndsZero(s.Logged(id));
    forall v: Actor
      ensures v != w ==> Due(t, v, id) == 0
    {
      assert Due(s, v, id) == 0;
    }
    assert Due(t, w, id) == Ends(t.At(w).pending);
  }

  /** Writing an event that is not terminal, or another job's event, changes neither what is logged nor what is due. */
  lemma EmitQuiet(s: State, w: Actor, id: JobId)
    requires (s.At(w).Starting? || s.At(w).Tail?) && s.At(w).pending != []
    requires s.At(w).id != id || !TerminalEvent(s.At(w).pending[0])
    requires id in s.jobs && TimelineOk(s, id)
    ensures TimelineOk(ApplyEmit(s, w), id)
  {
    var t, pc := ApplyEmit(s, w), s.At(w);
    EndsAppend(s.Logged(pc.id), pc.pending[0]);
    EndsPop(pc.pending);
    forall v: Actor
      ensures Due(t, v, id) == Due(s, v, id)
      ensures Due(t, v, id) > 0 ==> forall x :: x in t.At(v).pending ==> x in s.At(v).pending
    {
      assert v != w ==> t.At(v) == s.At(v);
    }
  }

  /** Writing the terminal event: it was the one due, and nothing is due any more. */
  lemma EmitTerminal(s: State, w: Actor, id: JobId)
    requires s.At(w).Tail? && s.At(w).pending != [] && s.At(w).id == id && TerminalEvent(s.At(w).pending[0])
    requires id in s.jobs && TimelineOk(s, id)
    ensures TimelineOk(ApplyEmit(s, w), id)
  {
    var t, pc := ApplyEmit(s, w), s.At(w);
    EndsAppend(s.Logged(id), pc.pending[0]);
    EndsPop(pc.pending);
    assert Due(s, w, id) == 1 && Due(t, w, id) == 0;
    forall v: Actor
      ensures Due(t, v, id) == 0
    {
      assert v != w ==> t.At(v) == s.At(v) && Due(s, v, id) == Due(t, v, id);
    }
    EndsZero(s.Logged(id));
  }

  lemma EmitTimeline(s: State, w: Actor, id: JobId)
    requires (s.At(w).Starting? || s.At(w).Tail?) && s.At(w).pending != []
    requires s.At(w).Starting? ==> !TerminalEvent(s.At(w).pending[0])
    requires id in s.jobs && TimelineOk(s, id)
    ensures TimelineOk(ApplyEmit(s, w), id)
  {
    if s.At(w).id == id && TerminalEvent(s.At(w).pending[0]) {
      EmitTerminal(s, w, id);
    } else {
      EmitQuiet(s, w, id);
    }
  }

  lemma CrashTimeline(c: Config, s: State, w: Actor, id: JobId)
    requires Enabled(c, s, Crash(w)) && id in s.jobs && TimelineOk(s, id)
    ensures TimelineOk(Apply(c, s, Crash(w)), id)
  {
    var t, pc := Apply(c, s, Crash(w)), s.At(w);
    if pc.Tail? {
      EndsZero(pc.pending);
    }
    forall v: Actor
      ensures Due(t, v, id) == if v == w then 0 else Due(s, v, id)
      ensures Due(t, v, id) > 0 ==> t.At(v) == s.At(v)
    {
    }
    if id !in t.cut && forall v: Actor :: Due(t, v, id) == 0 {
      forall v: Actor ensures Due(s, v, id) == 0 { assert v != w ==> Due(t, v, id) == 0; }
    }
  }

  /** Writing a non-terminal event changes no count. */
  lemma WriteNonTerminal(s: State, id: JobId, e: Event, other: JobId)
    requires !TerminalEvent(e)
    ensures Ends(s.Write(id, e).Logged(other)) == Ends(s.Logged(other))
    ensures forall status :: Matches(s.Logged(other), status) ==> Matches(s.Write(id, e).Logged(other), status)
  {
    EndsAppend(s.Logged(id), e);
  }

  /** A finish of a running job, seen from that job. */
  lemma FinishOwn(s: State, w: Actor, row: Job, events: seq<Event>)
    requires s.At(w).Owns() && s.At(w).id in s.jobs && TimelineOk(s, s.At(w).id)
    requires s.jobs[s.At(w).id].status.Running?
    requires Matches(events, row.status) && Ends(events) == (if Terminal(row.status) then 1 else 0)
    ensures TimelineOk(Finish(s, w, row, events), s.At(w).id)
  {
    var id, t := s.At(w).id, Finish(s, w, row, events);
    assert t.jobs[id] == row && t.log == s.log && t.cut == s.cut;
    Finished(s, t, id, w);
  }

  lemma FinishElsewhere(s: State, w: Actor, row: Job, events: seq<Event>, id: JobId)
    requires s.At(w).Owns() && s.At(w).id in s.jobs && id in s.jobs && TimelineOk(s, id) && id != s.At(w).id
    ensures TimelineOk(Finish(s, w, row, events), id)
  {
    var t := Finish(s, w, row, events);
    assert t.jobs[id] == s.jobs[id] && t.log == s.log && t.cut == s.cut;
    Unmoved(s, t, id, Some(w));
  }

  lemma FinishTimelineOf(s: State, w: Actor, row: Job, events: seq<Event>, id: JobId)
    requires s.At(w).Owns() && s.At(w).id in s.jobs && id in s.jobs && TimelineOk(s, id)
    requires s.jobs[s.At(w).id].status.Running?
    requires Matches(events, row.status) && Ends(events) == (if Terminal(row.status) then 1 else 0)
    ensures id in Finish(s, w, row, events).jobs && TimelineOk(Finish(s, w, row, events), id)
  {
    if id == s.At(w).id {
      FinishOwn(s, w, row, events);
    } else {
      FinishElsewhere(s, w, row, events, id);
    }
  }

  /** What a finishing action leaves: the updated row and the events still to write. */
  function FinishEnd(c: Config, a: Action, row: Job, now: Time): (Job, seq<Event>)
    requires a.Complete? || a.Fail? || a.Cancel?
  {
    match a
    case Complete(_) => (CompleteRow(row, now), [EvCompleted])
    case Fail(_) => (FailRow(c, row, now), FailEvents(row))
    case Cancel(_) => (CancelRow(row, now), [EvCanceled])
  }

  lemma FinishApplies(c: Config, s: State, a: Action)
    requires Enabled(c, s, a) && (a.Complete? || a.Fail? || a.Cancel?)
    ensures s.At(a.w).Owns() && s.At(a.w).id in s.jobs
    ensures
      var (row, events) := FinishEnd(c, a, s.jobs[s.At(a.w).id], s.clock);
      Apply(c, s, a) == Finish(s, a.w, row, events)
  {
  }

  /** The finishing actions: under H1 the row is Running, so nothing terminal has been written or is due. */
  lemma FinishTimeline(c: Config, s: State, a: Action, t: State, id: JobId)
    requires Owners(c, s) && Step(c, true, s, a, t) && (a.Complete? || a.Fail? || a.Cancel?)
    requires id in s.jobs && TimelineOk(s, id)
    ensures id in t.jobs && TimelineOk(t, id)
  {
    FinishApplies(c, s, a);
    FinishInTime(c, s, a);
    var existing := s.jobs[s.At(a.w).id];
    FinishEvents(c, existing, s.clock);
    var (row, events) := FinishEnd(c, a, existing, s.clock);
    FinishTimelineOf(s, a.w, row, events, id);
  }

  lemma FinishInTime(c: Config, s: State, a: Action)
    requires Owners(c, s) && Enabled(c, s, a) && Timely(c, s, a) && (a.Complete? || a.Fail? || a.Cancel?)
    ensures s.At(a.w).id in s.jobs && s.jobs[s.At(a.w).id].status.Running?
  {
    assert OwnerOk(c, s, a.w);
  }

  /** What a cancel request leaves: the updated row and the events still to write. */
  ghost predicate RequestCanceled(s: State, t: State, w: Actor, id: JobId)
    requires id in s.jobs
  {
    && t.jobs == s.jobs[id := RequestCancelRow(s.jobs[id], s.clock)] && t.log == s.log && t.cut == s.cut
    && t.At(w).Tail? && t.At(w).id == id && t.At(w).pending == RequestCancelEvents(s.jobs[id])
    && s.At(w).Idle? && forall v: Actor :: v != w ==> t.At(v) == s.At(v)
  }

  lemma RequestCancelApplies(c: Config, s: State, w: Actor, id: JobId)
    requires Enabled(c, s, RequestCancel(w, id))
    ensures RequestCanceled(s, Apply(c, s, RequestCancel(w, id)), w, id)
  {
  }

  lemma RequestCancelOwn(c: Config, s: State, t: State, w: Actor, id: JobId)
    requires id in s.jobs && RequestCanceled(s, t, w, id) && TimelineOk(s, id)
    ensures TimelineOk(t, id)
  {
    FinishEvents(c, s.jobs[id], s.clock);
    assert t.Logged(id) == s.Logged(id);
    if s.jobs[id].status.Queued? {
      Finished(s, t, id, w);
    } else {
      Unmoved(s, t, id, Some(w));
    }
  }

  lemma RequestCancelElsewhere(s: State, t: State, w: Actor, other: JobId, id: JobId)
    requires other in s.jobs && RequestCanceled(s, t, w, other) && id in s.jobs && TimelineOk(s, id) && id != other
    ensures id in t.jobs && TimelineOk(t, id)
  {
    assert t.Logged(id) == s.Logged(id);
    Unmoved(s, t, id, Some(w));
  }

  lemma RequestCancelTimeline(c: Config, s: State, a: Action, t: State, id: JobId)
    requires Step(c, true, s, a, t) && a.RequestCancel?
    requires id in s.jobs && TimelineOk(s, id)
    ensures id in t.jobs && TimelineOk(t, id)
  {
    RequestCancelApplies(c, s, a.w, a.id);
    if id == a.id {
      RequestCancelOwn(c, s, t, a.w, id);
    } else {
      RequestCancelElsewhere(s, t, a.w, a.id, id);
    }
  }

  lemma EnqueueTimeline(c: Config, s: State, a: Action, t: State, id: JobId)
    requires Inv(c, s) && Step(c, true, s, a, t) && a.Enqueue?
    requires id in s.jobs ==> TimelineOk(s, id)
    requires id in t.jobs
    ensures TimelineOk(t, id)
  {
    ActorFrame(c, true, s, a, t);
    if id in s.jobs {
      Unmoved(s, t, id, Some(a.w));
    } else {
      assert id == a.id && t.Logged(id) == [];
      forall w: Actor
        ensures Due(t, w, id) == 0
      {
        if w != a.w && w in s.pcs { assert ActorOk(s, s.pcs[w]); }
      }
    }
  }

  /** Nothing is logged, cut or updated, and the actor had and has nothing due. */
  ghost predicate Undisturbed(s: State, t: State, m: Option<Actor>) {
    && t.log == s.log && t.cut == s.cut && t.jobs == s.jobs
    && (m.Some? ==> forall id: JobId :: Due(s, m.value, id) == 0 && Due(t, m.value, id) == 0)
  }

  lemma ScanIsQuiet(c: Config, s: State, a: Action)
    requires Enabled(c, s, a) && (a.Tick? || a.BeginClaim? || a.Pick? || a.NoCandidate?)
    ensures Undisturbed(s, Apply(c, s, a), ActorOf(a))
  {
  }

  lemma LockingIsQuiet(c: Config, s: State, a: Action)
    requires Enabled(c, s, a) && (a.Acquire? || a.UndoLock? || a.Done?)
    ensures Undisturbed(s, Apply(c, s, a), ActorOf(a))
  {
  }

  lemma UndisturbedTimeline(s: State, t: State, id: JobId, m: Option<Actor>)
    requires Undisturbed(s, t, m) && id in s.jobs && TimelineOk(s, id)
    requires forall w: Actor :: m != Some(w) ==> t.At(w) == s.At(w)
    ensures id in t.jobs && TimelineOk(t, id)
  {
    Unmoved(s, t, id, m);
  }

  /** Queue scanning, lock handling and the passing of time leave every timeline alone. */
  lemma QuietTimeline(c: Config, s: State, a: Action, t: State, id: JobId)
    requires Step(c, true, s, a, t)
    requires a.Tick? || a.BeginClaim? || a.Pick? || a.NoCandidate? || a.Acquire? || a.UndoLock? || a.Done?
    requires id in s.jobs && TimelineOk(s, id)
    ensures id in t.jobs && TimelineOk(t, id)
  {
    if a.Acquire? || a.UndoLock? || a.Done? {
      LockingIsQuiet(c, s, a);
    } else {
      ScanIsQuiet(c, s, a);
    }
    ActorFrame(c, true, s, a, t);
    UndisturbedTimeline(s, t, id, ActorOf(a));
  }

  lemma ClaimTimeline(c: Config, s: State, a: Action, t: State, id: JobId)
    requires Step(c, true, s, a, t) && a.ClaimUpdate?
    requires id in s.jobs && TimelineOk(s, id)
    ensures id in t.jobs && TimelineOk(t, id)
  {
    assert t == ApplyClaim(c, s, a.w) && t.log == s.log && t.cut == s.cut;
    assert forall v: Actor :: v != a.w ==> t.At(v) == s.At(v);
    Unmoved(s, t, id, Some(a.w));
  }

  lemma NotingTimeline(c: Config, s: State, a: Action, t: State, id: JobId)
    requires Inv(c, s) && Step(c, true, s, a, t) && (a.CheckStart? || a.Observe?)
    requires id in s.jobs && TimelineOk(s, id)
    ensures id in t.jobs && TimelineOk(t, id)
  {
    var job := s.At(a.w).id;
    WriteNonTerminal(s, job, CancelObserved, id);
    assert t.jobs == s.jobs && t.cut == s.cut && (t.log == s.log || t.log == s.Write(job, CancelObserved).log);
    ActorFrame(c, true, s, a, t);
    Unmoved(s, t, id, Some(a.w));
  }

  /** Actions that write events but update no row. */
  lemma WritingTimeline(c: Config, s: State, a: Action, t: State, id: JobId)
    requires Inv(c, s) && Step(c, true, s, a, t) && (a.Emit? || a.Crash? || a.Annotate?)
    requires id in s.jobs && TimelineOk(s, id)
    ensures id in t.jobs && TimelineOk(t, id)
  {
    match a {
      case Emit(w) =>
        assert ActorOk(s, s.pcs[w]);
        EmitTimeline(s, w, id);
      case Crash(w) => CrashTimeline(c, s, w, id);
      case Annotate(job, e) =>
        WriteNonTerminal(s, job, e, id);
        Unmoved(s, t, id, None);
    }
  }

  /** Actions that may update a row. */
  lemma UpdatingTimeline(c: Config, s: State, a: Action, t: State, id: JobId)
    requires Inv(c, s) && Owners(c, s) && Step(c, true, s, a, t)
    requires a.RequestCancel? || a.Complete? || a.Fail? || a.Cancel? || a.ClaimUpdate?
    requires id in s.jobs && TimelineOk(s, id)
    ensures id in t.jobs && TimelineOk(t, id)
  {
    if a.RequestCancel? {
      RequestCancelTimeline(c, s, a, t, id);
    } else if a.ClaimUpdate? {
      ClaimTimeline(c, s, a, t, id);
    } else {
      FinishTimeline(c, s, a, t, id);
    }
  }

  lemma OldTimelineStep(c: Config, s: State, a: Action, t: State, id: JobId)
    requires id in s.jobs && id in t.jobs && TimelineOk(s, id)
    requires Inv(c, s) && Owners(c, s) && Step(c, true, s, a, t) && !a.Enqueue?
    ensures TimelineOk(t, id)
  {
    if a.RequestCancel? || a.Complete? || a.Fail? || a.Cancel? || a.ClaimUpdate? {
      UpdatingTimeline(c, s, a, t, id);
    } else if a.CheckStart? || a.Observe? {
      NotingTimeline(c, s, a, t, id);
    } else if a.Emit? || a.Crash? || a.Annotate? {
      WritingTimeline(c, s, a, t, id);
    } else {
      QuietTimeline(c, s, a, t, id);
    }
  }

  lemma {:induction false} TimelineStep(c: Config, s: State, a: Action, t: State, id: JobId)
    requires Inv(c, s) && Owners(c, s) && Timelines(s) && Step(c, true, s, a, t) && id in t.jobs
    ensures TimelineOk(t, id)
  {
    if a.Enqueue? {
      EnqueueTimeline(c, s, a, t, id);
    } else {
      RowFrame(c, true, s, a, t);
      OldTimelineStep(c, s, a, t, id);
    }
  }

  lemma {:induction false} TimelinesReachable(c: Config, r: Run, n: nat)
    requires c.Valid() && r.Valid(c, true) && n <= |r.acts|
    ensures Timelines(r.states[n])
  {
    if n == 0 {
    } else {
      TimelinesReachable(c, r, n - 1);
      Reachable(c, true, r, n - 1);
      var s, a, t := r.states[n - 1], r.acts[n - 1], r.states[n];
      assert Step(c, true, s, a, t);
      forall id | id in t.jobs
        ensures TimelineOk(t, id)
      {
        TimelineStep(c, s, a, t, id);
      }
    }
  }

  /** No actor still has an event to write for the job. */
  ghost predicate NothingToWrite(s: State, id: JobId) {
    forall w :: w in s.pcs && s.pcs[w].Tail? && s.pcs[w].id == id ==> s.pcs[w].pending == []
  }

  /**
   In every run, at every point: a timeline holds no terminal event while its job is QUEUED or RUNNING and
   never more than one; the one it holds says what the status says; and once the job is terminal and
   no actor still has events to write, it holds exactly one unless a crash cut its writer.
   */
  lemma SingleTerminalEvent(c: Config, r: Run, n: nat, id: JobId)
    requires c.Valid() && r.Valid(c, true) && n <= |r.acts| && id in r.states[n].jobs
    ensures
      var s := r.states[n];
      var status := s.jobs[id].status;
      && Ends(s.Logged(id)) <= 1
      && (!Terminal(status) ==> Ends(s.Logged(id)) == 0)
      && (EvCompleted in s.Logged(id) ==> status.Completed?)
      && (EvFailed in s.Logged(id) ==> status.Failed?)
      && (EvCanceled in s.Logged(id) ==> status.Canceled?)
      && (Terminal(status) && id !in s.cut && NothingToWrite(s, id) ==> Ends(s.Logged(id)) == 1)
  {
    TimelinesReachable(c, r, n);
    var s := r.states[n];
    assert TimelineOk(s, id);
    if NothingToWrite(s, id) {
      assert forall w: Actor :: Due(s, w, id) == 0;
    }
  }
}
