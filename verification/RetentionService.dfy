/**
 The retention service over the tables it prunes in place: the batched archive-and-delete loops, the job deletion,
 the archive governance and the whole `runCleanup`, each proved against the functions on tables.
 */
module RetentionService {
  import opened Base
  import opened Jobs
  import opened Retention

  /** The counts that `runCleanup` reports. */
  datatype Counts = Counts(
    archivedDone: nat, archivedFailed: nat, archivedGeneral: nat, archivedSecurity: nat,
    deletedDone: nat, deletedFailed: nat, deletedGeneral: nat, deletedSecurity: nat,
    jobsDone: nat, jobsFailed: nat,
    purgedEvents: nat, purgedGeneral: nat, purgedSecurity: nat)

  // ---------------------------------------------------------------- batches

  /** The first `take` rows of `all` by age: no row left out is older than a row taken. */
  ghost predicate OldestFirst(all: set<nat>, created: map<nat, Time>, take: nat, batch: set<nat>) {
    && all <= created.Keys && batch <= all && |batch| == Min(take, |all|)
    && forall x, y :: x in batch && y in all - batch ==> created[x] <= created[y]
  }

  lemma {:induction false} SomeOldest(rows: set<nat>, created: map<nat, Time>)
    requires rows != {} && rows <= created.Keys
    ensures exists x :: x in rows && forall y :: y in rows ==> created[x] <= created[y]
    decreases |rows|
  {
    var x :| x in rows;
    if rows != {x} {
      SomeOldest(rows - {x}, created);
      var z :| z in rows - {x} && forall y :: y in rows - {x} ==> created[z] <= created[y];
      var best := if created[x] <= created[z] then x else z;
      assert forall y :: y in rows ==> created[best] <= created[y];
    } else {
      assert forall y :: y in rows ==> created[x] <= created[y];
    }
  }

  /** Rows taken so far, none younger than a row left. */
  ghost predicate Picking(all: set<nat>, created: map<nat, Time>, batch: set<nat>, rest: set<nat>) {
    && all <= created.Keys && batch + rest == all && batch !! rest
    && forall x, y :: x in batch && y in rest ==> created[x] <= created[y]
  }

  lemma PickNext(all: set<nat>, created: map<nat, Time>, batch: set<nat>, rest: set<nat>, x: nat)
    requires Picking(all, created, batch, rest) && x in rest && forall y :: y in rest ==> created[x] <= created[y]
    ensures Picking(all, created, batch + {x}, rest - {x})
    ensures |batch + {x}| == |batch| + 1
  {
  }

  lemma Picked(all: set<nat>, created: map<nat, Time>, batch: set<nat>, rest: set<nat>, take: nat)
    requires Picking(all, created, batch, rest) && |batch| <= take && (|batch| == take || rest == {})
    ensures OldestFirst(all, created, take, batch)
  {
    assert all - batch == rest;
    assert |all| == |batch| + |rest|;
  }

  /** `findMany` ordered by creation time with a limit. */
  method Oldest(all: set<nat>, created: map<nat, Time>, take: nat) returns (batch: set<nat>)
    requires all <= created.Keys
    ensures OldestFirst(all, created, take, batch)
  {
    batch := {};
    var rest := all;
    while |batch| < take && rest != {}
      invariant Picking(all, created, batch, rest) && |batch| <= take
      decreases rest
    {
      SomeOldest(rest, created);
      var x :| x in rest && forall y :: y in rest ==> created[x] <= created[y];
      PickNext(all, created, batch, rest, x);
      batch, rest := batch + {x}, rest - {x};
    }
    Picked(all, created, batch, rest, take);
  }

  lemma TakeAway(all: set<nat>, moved: set<nat>, left: set<nat>, rows: set<nat>)
    requires moved <= all && left == all - moved && rows <= left
    ensures left - rows == all - (moved + rows) && moved + rows <= all && moved !! rows
    ensures |moved + rows| == |moved| + |rows| && |left - rows| == |left| - |rows|
  {
  }

  lemma EventCopiesJoin(t: Tables, first: set<EventId>, second: set<EventId>, stamp: EventId -> Time)
    requires t.Linked() && first !! second && first + second <= t.events.Keys
    ensures ArchiveEvents(ArchiveEvents(t, first, stamp), second, stamp).eventArchive ==
              ArchiveEvents(t, first + second, stamp).eventArchive
  {
  }

  /** Archiving in two batches is archiving at once. */
  lemma EventBatchesJoin(t: Tables, first: set<EventId>, second: set<EventId>, stamp: EventId -> Time)
    requires t.Linked() && first !! second && first + second <= t.events.Keys
    ensures ArchiveEvents(ArchiveEvents(t, first, stamp), second, stamp) == ArchiveEvents(t, first + second, stamp)
  {
    EventCopiesJoin(t, first, second, stamp);
    var x, y := ArchiveEvents(ArchiveEvents(t, first, stamp), second, stamp), ArchiveEvents(t, first + second, stamp);
    assert x.events == y.events && x.eventArchive == y.eventArchive;
  }

  lemma AuditCopiesJoin(t: Tables, first: set<AuditId>, second: set<AuditId>, stamp: AuditId -> Time)
    requires first !! second && first + second <= t.audits.Keys
    ensures ArchiveAudits(ArchiveAudits(t, first, stamp), second, stamp).auditArchive ==
              ArchiveAudits(t, first + second, stamp).auditArchive
  {
  }

  lemma AuditBatchesJoin(t: Tables, first: set<AuditId>, second: set<AuditId>, stamp: AuditId -> Time)
    requires first !! second && first + second <= t.audits.Keys
    ensures ArchiveAudits(ArchiveAudits(t, first, stamp), second, stamp) == ArchiveAudits(t, first + second, stamp)
  {
    AuditCopiesJoin(t, first, second, stamp);
    var x, y := ArchiveAudits(ArchiveAudits(t, first, stamp), second, stamp), ArchiveAudits(t, first + second, stamp);
    assert x.audits == y.audits && x.auditArchive == y.auditArchive;
  }

  /** Archiving rows takes exactly them from what matches. */
  lemma EventsLeft(t: Tables, w: EventWhere, moved: set<EventId>, stamp: EventId -> Time)
    requires t.Linked()
    ensures MatchingEvents(ArchiveEvents(t, moved, stamp), w) == MatchingEvents(t, w) - moved
  {
  }

  lemma AuditsLeft(t: Tables, w: AuditWhere, moved: set<AuditId>, stamp: AuditId -> Time)
    ensures MatchingAudits(ArchiveAudits(t, moved, stamp), w) == MatchingAudits(t, w) - moved
  {
  }

  /** `mid` is `start` with the rows of `moved`, all matching, archived; these are the matching rows that are left. */
  ghost predicate EventsMoved(start: Tables, w: EventWhere, moved: set<EventId>, stamp: EventId -> Time, mid: Tables) {
    && start.Linked() && mid.Linked() && moved <= MatchingEvents(start, w)
    && mid == ArchiveEvents(start, moved, stamp)
    && MatchingEvents(mid, w) == MatchingEvents(start, w) - moved
  }

  lemma NoEventsMoved(start: Tables, w: EventWhere, stamp: EventId -> Time)
    requires start.Linked()
    ensures EventsMoved(start, w, {}, stamp, start)
  {
    assert ArchiveEvents(start, {}, stamp).eventArchive == start.eventArchive;
  }

  /** One more batch. */
  lemma EventBatch(start: Tables, w: EventWhere, moved: set<EventId>, stamp: EventId -> Time, mid: Tables, rows: set<EventId>)
    requires EventsMoved(start, w, moved, stamp, mid) && rows <= MatchingEvents(mid, w)
    ensures EventsMoved(start, w, moved + rows, stamp, ArchiveEvents(mid, rows, stamp))
    ensures |moved + rows| == |moved| + |rows|
    ensures |MatchingEvents(ArchiveEvents(mid, rows, stamp), w)| == |MatchingEvents(mid, w)| - |rows|
  {
    TakeAway(MatchingEvents(start, w), moved, MatchingEvents(mid, w), rows);
    EventBatchesJoin(start, moved, rows, stamp);
    EventsLeft(mid, w, rows, stamp);
  }

  ghost predicate AuditsMoved(start: Tables, w: AuditWhere, moved: set<AuditId>, stamp: AuditId -> Time, mid: Tables) {
    && moved <= MatchingAudits(start, w)
    && mid == ArchiveAudits(start, moved, stamp)
    && MatchingAudits(mid, w) == MatchingAudits(start, w) - moved
  }

  lemma NoAuditsMoved(start: Tables, w: AuditWhere, stamp: AuditId -> Time)
    ensures AuditsMoved(start, w, {}, stamp, start)
  {
    assert ArchiveAudits(start, {}, stamp).auditArchive == start.auditArchive;
  }

  lemma AuditBatch(start: Tables, w: AuditWhere, moved: set<AuditId>, stamp: AuditId -> Time, mid: Tables, rows: set<AuditId>)
    requires AuditsMoved(start, w, moved, stamp, mid) && rows <= MatchingAudits(mid, w)
    ensures AuditsMoved(start, w, moved + rows, stamp, ArchiveAudits(mid, rows, stamp))
    ensures |moved + rows| == |moved| + |rows|
    ensures |MatchingAudits(ArchiveAudits(mid, rows, stamp), w)| == |MatchingAudits(mid, w)| - |rows|
  {
    TakeAway(MatchingAudits(start, w), moved, MatchingAudits(mid, w), rows);
    AuditBatchesJoin(start, moved, rows, stamp);
    AuditsLeft(mid, w, rows, stamp);
  }

  /** A pass over one kind of event leaves the matches of the other kind as they were. */
  lemma EventKindsAreIndependent(archive: bool, t: Tables, done: Time, failed: Time, stamp: EventId -> Time)
    requires t.Linked()
    ensures MatchingEvents(EventPass(archive, t, DoneBefore(done), stamp), FailedBefore(failed)) ==
              MatchingEvents(t, FailedBefore(failed))
  {
  }

  lemma AuditKindsAreIndependent(archive: bool, t: Tables, general: Time, security: Time, stamp: AuditId -> Time)
    ensures MatchingAudits(AuditPass(archive, t, GeneralBefore(general), stamp), SecurityBefore(security)) ==
              MatchingAudits(t, SecurityBefore(security))
  {
    forall row: AuditRow
      ensures !(AuditMatches(row, GeneralBefore(general)) && AuditMatches(row, SecurityBefore(security)))
    {
      AuditFiltersPartition(row, general, security);
    }
  }

  lemma JobKindsAreIndependent(t: Tables, done: Time, failed: Time)
    requires t.Linked()
    ensures MatchingJobs(DeleteJobs(t, true, done), false, failed) == MatchingJobs(t, false, failed)
  {
  }

  // ---------------------------------------------------------------- the service

  class RetentionService {
    const policy: Retention.Policy
    var jobs: map<JobId, JobRow>
    var events: map<EventId, EventRow>
    var eventArchive: map<EventId, EventCopy>
    var audits: map<AuditId, AuditRow>
    var auditArchive: map<AuditId, AuditCopy>

    constructor (policy: Retention.Policy, t: Tables)
      ensures this.policy == policy && View() == t
    {
      this.policy := policy;
      jobs, events, eventArchive := t.jobs, t.events, t.eventArchive;
      audits, auditArchive := t.audits, t.auditArchive;
    }

    ghost function View(): Tables
      reads this
    {
      Tables(jobs, events, eventArchive, audits, auditArchive)
    }

    /** The rows that match, oldest first, at most `take` of them. */
    method FindEvents(w: EventWhere, take: nat) returns (rows: set<EventId>)
      ensures OldestFirst(MatchingEvents(View(), w), map e | e in events :: events[e].createdAt, take, rows)
    {
      var matching := set e | e in events && EventMatches(jobs, events[e], w);
      rows := Oldest(matching, map e | e in events :: events[e].createdAt, take);
      assert matching == MatchingEvents(View(), w);
    }

    /** One transaction: insert the copies, skipping duplicates, then delete the rows by id. */
    method MoveEvents(rows: set<EventId>, stamp: EventId -> Time)
      requires View().Linked() && rows <= events.Keys
      modifies this`events, this`eventArchive
      ensures View() == ArchiveEvents(old(View()), rows, stamp)
    {
      var copies := map e | e in rows :: EventCopy(events[e], jobs[events[e].jobId].kind, jobs[events[e].jobId].status, stamp(e));
      eventArchive := copies + eventArchive;
      events := map e | e in events && e !in rows :: events[e];
      ghost var u := ArchiveEvents(old(View()), rows, stamp);
      assert eventArchive == u.eventArchive;
      assert events == u.events;
    }

    method ArchiveAndDeleteJobEvents(w: EventWhere, batchSize: nat, stamp: EventId -> Time) returns (archived: nat, deleted: nat)
      requires View().Linked()
      modifies this`events, this`eventArchive
      ensures batchSize > 0 ==> View() == ArchiveEvents(old(View()), MatchingEvents(old(View()), w), stamp)
      ensures batchSize > 0 ==> archived == deleted == |MatchingEvents(old(View()), w)|
      ensures batchSize == 0 ==> View() == old(View()) && archived == deleted == 0
    {
      ghost var start, moved := View(), {};
      archived, deleted := 0, 0;
      NoEventsMoved(start, w, stamp);
      while true
        invariant EventsMoved(start, w, moved, stamp, View())
        invariant archived == deleted == |moved|
        invariant batchSize == 0 ==> moved == {} && View() == start
        decreases |MatchingEvents(View(), w)|
      {
        var rows := FindEvents(w, batchSize);
        if |rows| == 0 {
          break;
        }
        EventBatch(start, w, moved, stamp, View(), rows);
        MoveEvents(rows, stamp);
        archived, deleted := archived + |rows|, deleted + |rows|;
        moved := moved + rows;
      }
      assert batchSize > 0 ==> MatchingEvents(View(), w) == {} && moved == MatchingEvents(start, w);
    }

    method FindAudits(w: AuditWhere, take: nat) returns (rows: set<AuditId>)
      ensures OldestFirst(MatchingAudits(View(), w), map a | a in audits :: audits[a].createdAt, take, rows)
    {
      var matching := set a | a in audits && AuditMatches(audits[a], w);
      rows := Oldest(matching, map a | a in audits :: audits[a].createdAt, take);
      assert matching == MatchingAudits(View(), w);
    }

    method MoveAudits(rows: set<AuditId>, stamp: AuditId -> Time)
      requires rows <= audits.Keys
      modifies this`audits, this`auditArchive
      ensures View() == ArchiveAudits(old(View()), rows, stamp)
    {
      var copies := map a | a in rows :: AuditCopy(audits[a], stamp(a));
      auditArchive := copies + auditArchive;
      audits := map a | a in audits && a !in rows :: audits[a];
      ghost var u := ArchiveAudits(old(View()), rows, stamp);
      assert auditArchive == u.auditArchive;
      assert audits == u.audits;
    }

    method ArchiveAndDeleteAuditLogs(w: AuditWhere, batchSize: nat, stamp: AuditId -> Time) returns (archived: nat, deleted: nat)
      modifies this`audits, this`auditArchive
      ensures batchSize > 0 ==> View() == ArchiveAudits(old(View()), MatchingAudits(old(View()), w), stamp)
      ensures batchSize > 0 ==> archived == deleted == |MatchingAudits(old(View()), w)|
      ensures batchSize == 0 ==> View() == old(View()) && archived == deleted == 0
    {
      ghost var start, moved := View(), {};
      archived, deleted := 0, 0;
      NoAuditsMoved(start, w, stamp);
      while true
        invariant AuditsMoved(start, w, moved, stamp, View())
        invariant archived == deleted == |moved|
        invariant batchSize == 0 ==> moved == {} && View() == start
        decreases |MatchingAudits(View(), w)|
      {
        var rows := FindAudits(w, batchSize);
        if |rows| == 0 {
          break;
        }
        AuditBatch(start, w, moved, stamp, View(), rows);
        MoveAudits(rows, stamp);
        archived, deleted := archived + |rows|, deleted + |rows|;
        moved := moved + rows;
      }
      assert batchSize > 0 ==> MatchingAudits(View(), w) == {} && moved == MatchingAudits(start, w);
    }

    /** Deleting a job deletes its events. */
    method DeleteTerminalJobs(done: bool, threshold: Time) returns (count: nat)
      requires View().Linked()
      modifies this`jobs, this`events
      ensures View() == DeleteJobs(old(View()), done, threshold)
      ensures count == |MatchingJobs(old(View()), done, threshold)|
    {
      var gone := set j | j in jobs && JobMatches(jobs[j], done, threshold);
      count := |gone|;
      jobs := jobs - gone;
      events := map e | e in events && events[e].jobId in jobs :: events[e];
      assert gone == MatchingJobs(old(View()), done, threshold);
      assert events == DeleteJobs(old(View()), done, threshold).events;
    }

    method ApplyArchiveGovernance(before: Time, general: Time, security: Time) returns (purgedEvents: nat, purgedGeneral: nat, purgedSecurity: nat)
      modifies this`eventArchive, this`auditArchive
      ensures View() == PurgeArchives(old(View()), before, general, security)
      ensures purgedEvents == |PurgedEvents(old(View()), before)|
      ensures purgedGeneral == |PurgedAudits(old(View()), GeneralBefore(general))|
      ensures purgedSecurity == |PurgedAudits(old(View()), SecurityBefore(security))|
    {
      var oldEvents := set e | e in eventArchive && eventArchive[e].row.createdAt < before;
      purgedEvents := |oldEvents|;
      eventArchive := eventArchive - oldEvents;
      assert oldEvents == PurgedEvents(old(View()), before);
      var oldGeneral := set a | a in auditArchive && AuditMatches(auditArchive[a].row, GeneralBefore(general));
      purgedGeneral := |oldGeneral|;
      auditArchive := auditArchive - oldGeneral;
      assert oldGeneral == PurgedAudits(old(View()), GeneralBefore(general));
      forall row: AuditRow
        ensures !(AuditMatches(row, GeneralBefore(general)) && AuditMatches(row, SecurityBefore(security)))
      {
        AuditFiltersPartition(row, general, security);
      }
      var oldSecurity := set a | a in auditArchive && AuditMatches(auditArchive[a].row, SecurityBefore(security));
      purgedSecurity := |oldSecurity|;
      auditArchive := auditArchive - oldSecurity;
      assert oldSecurity == PurgedAudits(old(View()), SecurityBefore(security));
    }

    /** One hot pass over events: archived in batches, or deleted outright. */
    method PruneEvents(w: EventWhere, stamp: EventId -> Time) returns (archived: nat, deleted: nat)
      requires View().Linked() && policy.archiveBatchSize > 0
      modifies this`events, this`eventArchive
      ensures View() == EventPass(policy.archiveEnabled, old(View()), w, stamp)
      ensures deleted == |MatchingEvents(old(View()), w)|
      ensures archived == if policy.archiveEnabled then deleted else 0
    {
      if policy.archiveEnabled {
        archived, deleted := ArchiveAndDeleteJobEvents(w, policy.archiveBatchSize, stamp);
      } else {
        var gone := set e | e in events && EventMatches(jobs, events[e], w);
        events := events - gone;
        archived, deleted := 0, |gone|;
        assert gone == MatchingEvents(old(View()), w);
      }
    }

    method PruneAudits(w: AuditWhere, stamp: AuditId -> Time) returns (archived: nat, deleted: nat)
      requires policy.archiveBatchSize > 0
      modifies this`audits, this`auditArchive
      ensures View() == AuditPass(policy.archiveEnabled, old(View()), w, stamp)
      ensures deleted == |MatchingAudits(old(View()), w)|
      ensures archived == if policy.archiveEnabled then deleted else 0
    {
      if policy.archiveEnabled {
        archived, deleted := ArchiveAndDeleteAuditLogs(w, policy.archiveBatchSize, stamp);
      } else {
        var gone := set a | a in audits && AuditMatches(audits[a], w);
        audits := audits - gone;
        archived, deleted := 0, |gone|;
        assert gone == MatchingAudits(old(View()), w);
      }
    }

    /**
     The whole clean-up. Each hot pass deletes exactly the rows that its filter matched at the start and, when
     archiving, archives that many; the batch size is at least 10 in the environment schema.
     */
    method RunCleanup(now: Time, stamp: Stamps) returns (counts: Counts)
      requires View().Linked() && policy.archiveBatchSize > 0
      modifies this
      ensures View() == Cleanup(policy, now, stamp, old(View()))
      ensures counts.deletedDone == |MatchingEvents(old(View()), DoneBefore(Before(now, policy.jobEventsDays)))|
      ensures counts.deletedFailed == |MatchingEvents(old(View()), FailedBefore(Before(now, policy.failedJobDays)))|
      ensures counts.deletedGeneral == |MatchingAudits(old(View()), GeneralBefore(Before(now, policy.auditLogDays)))|
      ensures counts.deletedSecurity == |MatchingAudits(old(View()), SecurityBefore(Before(now, policy.securityAuditDays)))|
      ensures if policy.archiveEnabled
              then counts.archivedDone == counts.deletedDone && counts.archivedFailed == counts.deletedFailed
                   && counts.archivedGeneral == counts.deletedGeneral && counts.archivedSecurity == counts.deletedSecurity
              else counts.archivedDone == counts.archivedFailed == counts.archivedGeneral == counts.archivedSecurity == 0
      ensures counts.jobsDone == |MatchingJobs(old(View()), true, Before(now, policy.terminalJobDays))|
      ensures counts.jobsFailed == |MatchingJobs(old(View()), false, Before(now, policy.failedJobDays))|
      ensures
        var pruned := HotPasses(policy, now, stamp, old(View()));
        && counts.purgedEvents == |PurgedEvents(pruned, Before(now, policy.archiveJobEventDays))|
        && counts.purgedGeneral == |PurgedAudits(pruned, GeneralBefore(Before(now, policy.archiveAuditLogDays)))|
        && counts.purgedSecurity == |PurgedAudits(pruned, SecurityBefore(Before(now, policy.archiveSecurityAuditDays)))|
    {
      var done, failed := DoneBefore(Before(now, policy.jobEventsDays)), FailedBefore(Before(now, policy.failedJobDays));
      var general, security := GeneralBefore(Before(now, policy.auditLogDays)), SecurityBefore(Before(now, policy.securityAuditDays));
      EventKindsAreIndependent(policy.archiveEnabled, View(), done.t, failed.t, stamp.event);
      var aDone, dDone := PruneEvents(done, stamp.event);
      var aFailed, dFailed := PruneEvents(failed, stamp.event);
      AuditKindsAreIndependent(policy.archiveEnabled, View(), general.t, security.t, stamp.audit);
      assert audits == old(audits);
      var aGeneral, dGeneral := PruneAudits(general, stamp.audit);
      var aSecurity, dSecurity := PruneAudits(security, stamp.audit);
      assert View() == HotPasses(policy, now, stamp, old(View()));
      JobKindsAreIndependent(View(), Before(now, policy.terminalJobDays), Before(now, policy.failedJobDays));
      var jobsDone := DeleteTerminalJobs(true, Before(now, policy.terminalJobDays));
      var jobsFailed := DeleteTerminalJobs(false, Before(now, policy.failedJobDays));
      assert eventArchive == HotPasses(policy, now, stamp, old(View())).eventArchive;
      var purgedEvents, purgedGeneral, purgedSecurity :=
        ApplyArchiveGovernance(Before(now, policy.archiveJobEventDays), Before(now, policy.archiveAuditLogDays),
                               Before(now, policy.archiveSecurityAuditDays));
      counts := Counts(aDone, aFailed, aGeneral, aSecurity, dDone, dFailed, dGeneral, dSecurity,
                       jobsDone, jobsFailed, purgedEvents, purgedGeneral, purgedSecurity);
    }
  }
}
