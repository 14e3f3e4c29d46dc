/**
 Retention and archiving: the hot job, event and audit tables, their archives, and the clean-up passes as
 functions on them. The `Swept...` functions say what one whole clean-up does to one job, one event and one
 audit row; `CleanupOn...` proves that the passes, one after the other, do exactly that.
 */
module Retention {
  import opened Base
  import opened Jobs

  type EventId = nat
  type AuditId = nat

  datatype JobRow = JobRow(kind: JobType, status: Status, completedAt: Option<Time>)

  /** `data` stands for correlation id, type, level, message and metadata, which are copied as they are. */
  datatype EventRow = EventRow(jobId: JobId, createdAt: Time, data: string)
  datatype EventCopy = EventCopy(row: EventRow, kind: JobType, status: Status, archivedAt: Time)

  /** `data` stands for actor, entity, metadata and address. */
  datatype AuditRow = AuditRow(action: string, createdAt: Time, data: string)
  datatype AuditCopy = AuditCopy(row: AuditRow, archivedAt: Time)

  datatype Tables = Tables(
    jobs: map<JobId, JobRow>,
    events: map<EventId, EventRow>,
    eventArchive: map<EventId, EventCopy>,
    audits: map<AuditId, AuditRow>,
    auditArchive: map<AuditId, AuditCopy>)
  {
    /** The foreign key: every event belongs to a job. */
    ghost predicate Linked() {
      forall e :: e in events ==> events[e].jobId in jobs
    }

    /** No row is hot and archived at once. */
    ghost predicate Apart() {
      events.Keys !! eventArchive.Keys && audits.Keys !! auditArchive.Keys
    }
  }

  // ---------------------------------------------------------------- policy

  datatype Policy = Policy(
    jobEventsDays: nat, failedJobDays: nat, terminalJobDays: nat,
    auditLogDays: nat, securityAuditDays: nat,
    archiveEnabled: bool, archiveBatchSize: nat,
    archiveAuditLogDays: nat, archiveSecurityAuditDays: nat, archiveJobEventDays: nat)

  const DAY: nat := 24 * 60 * 60 * 1000

  function Before(now: Time, days: nat): Time {
    now - days * DAY
  }

  const SECURITY_PREFIXES: seq<string> :=
    ["auth.", "user.", "settings.", "bucket.grants", "bucket.admin_scope", "connection.", "session."]

  /** `OR` over a list of `startsWith` filters: some filter accepts. */
  predicate SomeAccepts(filters: seq<string>, action: string) {
    filters != [] && (filters[0] <= action || SomeAccepts(filters[1..], action))
  }

  /** `NOT` over a list of filters: every filter refuses. */
  predicate AllRefuse(filters: seq<string>, action: string) {
    filters == [] || (!(filters[0] <= action) && AllRefuse(filters[1..], action))
  }

  /** The two lists of one filter are complementary, whatever the filters. */
  lemma {:induction false} ListsAreComplementary(filters: seq<string>, action: string)
    ensures AllRefuse(filters, action) <==> !SomeAccepts(filters, action)
    ensures SomeAccepts(filters, action) <==> exists i :: 0 <= i < |filters| && filters[i] <= action
  {
    if filters == [] {
    } else {
      ListsAreComplementary(filters[1..], action);
      if i :| 0 <= i < |filters| && filters[i] <= action {
        assert i == 0 || filters[1..][i - 1] == filters[i];
      }
      assert forall i :: 0 <= i < |filters[1..]| ==> filters[1..][i] == filters[i + 1];
    }
  }

  /** A security action starts with one of the prefixes. */
  predicate Security(action: string) {
    exists i :: 0 <= i < |SECURITY_PREFIXES| && SECURITY_PREFIXES[i] <= action
  }

  predicate Done(s: Status) {
    s.Completed? || s.Canceled?
  }

  // ---------------------------------------------------------------- filters

  datatype EventWhere = DoneBefore(t: Time) | FailedBefore(t: Time)
  datatype AuditWhere = GeneralBefore(t: Time) | SecurityBefore(t: Time)

  predicate EventMatches(jobs: map<JobId, JobRow>, row: EventRow, w: EventWhere) {
    && row.createdAt < w.t
    && row.jobId in jobs
    && match w
       case DoneBefore(_) => Done(jobs[row.jobId].status)
       case FailedBefore(_) => jobs[row.jobId].status.Failed?
  }

  predicate AuditMatches(row: AuditRow, w: AuditWhere) {
    match w
    case GeneralBefore(t) => row.createdAt < t && AllRefuse(SECURITY_PREFIXES, row.action)
    case SecurityBefore(t) => row.createdAt < t && SomeAccepts(SECURITY_PREFIXES, row.action)
  }

  predicate JobMatches(row: JobRow, done: bool, threshold: Time) {
    && (if done then Done(row.status) else row.status.Failed?)
    && row.completedAt.Some? && row.completedAt.value < threshold
  }

  function MatchingEvents(t: Tables, w: EventWhere): set<EventId> {
    set e | e in t.events && EventMatches(t.jobs, t.events[e], w)
  }

  function MatchingAudits(t: Tables, w: AuditWhere): set<AuditId> {
    set a | a in t.audits && AuditMatches(t.audits[a], w)
  }

  // ---------------------------------------------------------------- passes

  /** The database clock when it archives each row. */
  datatype Stamps = Stamps(event: EventId -> Time, audit: AuditId -> Time)

  /**
   Copies the chosen events with the type and status their job has now, skips ids that are already archived, and
   removes them from the hot table.
   */
  function ArchiveEvents(t: Tables, chosen: set<EventId>, stamp: EventId -> Time): (r: Tables)
    requires t.Linked()
    ensures r.Linked()
  {
    t.(eventArchive := map e | e in t.eventArchive.Keys + (chosen * t.events.Keys) ::
         if e in t.eventArchive then t.eventArchive[e] else CopyOf(t, e, stamp(e)),
       events := t.events - chosen)
  }

  function CopyOf(t: Tables, e: EventId, stamp: Time): EventCopy
    requires e in t.events && t.events[e].jobId in t.jobs
  {
    var job := t.jobs[t.events[e].jobId];
    EventCopy(t.events[e], job.kind, job.status, stamp)
  }

  function ArchiveAudits(t: Tables, chosen: set<AuditId>, stamp: AuditId -> Time): Tables {
    t.(auditArchive := map a | a in t.auditArchive.Keys + (chosen * t.audits.Keys) ::
         if a in t.auditArchive then t.auditArchive[a] else AuditCopy(t.audits[a], stamp(a)),
       audits := t.audits - chosen)
  }

  /** `deleteMany` on jobs; their events go with them. */
  function DeleteJobs(t: Tables, done: bool, threshold: Time): (r: Tables)
    requires t.Linked()
    ensures r.Linked()
  {
    t.(jobs := t.jobs - MatchingJobs(t, done, threshold),
       events := map e | e in t.events && t.events[e].jobId !in MatchingJobs(t, done, threshold) :: t.events[e])
  }

  function MatchingJobs(t: Tables, done: bool, threshold: Time): set<JobId> {
    set j | j in t.jobs && JobMatches(t.jobs[j], done, threshold)
  }

  function PurgeArchives(t: Tables, events: Time, general: Time, security: Time): Tables {
    t.(eventArchive := t.eventArchive - PurgedEvents(t, events),
       auditArchive := t.auditArchive - PurgedAudits(t, GeneralBefore(general)) - PurgedAudits(t, SecurityBefore(security)))
  }

  function PurgedEvents(t: Tables, before: Time): set<EventId> {
    set e | e in t.eventArchive && t.eventArchive[e].row.createdAt < before
  }

  function PurgedAudits(t: Tables, w: AuditWhere): set<AuditId> {
    set a | a in t.auditArchive && AuditMatches(t.auditArchive[a].row, w)
  }

  function EventPass(archive: bool, t: Tables, w: EventWhere, stamp: EventId -> Time): (r: Tables)
    requires t.Linked()
    ensures r.Linked()
  {
    if archive then ArchiveEvents(t, MatchingEvents(t, w), stamp) else t.(events := t.events - MatchingEvents(t, w))
  }

  function AuditPass(archive: bool, t: Tables, w: AuditWhere, stamp: AuditId -> Time): Tables {
    if archive then ArchiveAudits(t, MatchingAudits(t, w), stamp) else t.(audits := t.audits - MatchingAudits(t, w))
  }

  /** The four hot-row passes of `runCleanup`. */
  function HotPasses(p: Policy, now: Time, stamp: Stamps, t: Tables): (r: Tables)
    requires t.Linked()
    ensures r.Linked()
  {
    var t1 := EventPass(p.archiveEnabled, t, DoneBefore(Before(now, p.jobEventsDays)), stamp.event);
    var t2 := EventPass(p.archiveEnabled, t1, FailedBefore(Before(now, p.failedJobDays)), stamp.event);
    var t3 := AuditPass(p.archiveEnabled, t2, GeneralBefore(Before(now, p.auditLogDays)), stamp.audit);
    AuditPass(p.archiveEnabled, t3, SecurityBefore(Before(now, p.securityAuditDays)), stamp.audit)
  }

  /** `runCleanup`, pass by pass. */
  function Cleanup(p: Policy, now: Time, stamp: Stamps, t: Tables): (r: Tables)
    requires t.Linked()
    ensures r.Linked()
  {
    var t4 := HotPasses(p, now, stamp, t);
    var t5 := DeleteJobs(t4, true, Before(now, p.terminalJobDays));
    var t6 := DeleteJobs(t5, false, Before(now, p.failedJobDays));
    PurgeArchives(t6, Before(now, p.archiveJobEventDays), Before(now, p.archiveAuditLogDays),
                  Before(now, p.archiveSecurityAuditDays))
  }

  // ---------------------------------------------------------------- one row through a clean-up

  function Lookup<K, V>(m: map<K, V>, k: K): Option<V> {
    if k in m then Some(m[k]) else None
  }

  lemma SameLookups<K(!new), V>(x: map<K, V>, y: map<K, V>)
    requires forall k :: Lookup(x, k) == Lookup(y, k)
    ensures x == y
  {
    forall k
      ensures k in x <==> k in y
      ensures k in x && k in y ==> x[k] == y[k]
    {
      assert Lookup(x, k) == Lookup(y, k);
    }
  }

  /** An event: its hot row with its job's row, and its archived copy. */
  datatype EventSlot = EventSlot(hot: Option<(EventRow, JobRow)>, copy: Option<EventCopy>)

  function EventAt(t: Tables, e: EventId): EventSlot
    requires t.Linked()
  {
    EventSlot(if e in t.events then Some((t.events[e], t.jobs[t.events[e].jobId])) else None, Lookup(t.eventArchive, e))
  }

  datatype AuditSlot = AuditSlot(hot: Option<AuditRow>, copy: Option<AuditCopy>)

  function AuditAt(t: Tables, a: AuditId): AuditSlot {
    AuditSlot(Lookup(t.audits, a), Lookup(t.auditArchive, a))
  }

  /** The event has outlived the window of its job's outcome. */
  predicate EventExpired(p: Policy, now: Time, row: EventRow, job: JobRow) {
    || (Done(job.status) && row.createdAt < Before(now, p.jobEventsDays))
    || (job.status.Failed? && row.createdAt < Before(now, p.failedJobDays))
  }

  predicate JobExpired(p: Policy, now: Time, job: JobRow) {
    && job.completedAt.Some?
    && (|| (Done(job.status) && job.completedAt.value < Before(now, p.terminalJobDays))
        || (job.status.Failed? && job.completedAt.value < Before(now, p.failedJobDays)))
  }

  predicate AuditExpired(p: Policy, now: Time, row: AuditRow) {
    row.createdAt < Before(now, if Security(row.action) then p.securityAuditDays else p.auditLogDays)
  }

  predicate EventCopyExpired(p: Policy, now: Time, row: EventRow) {
    row.createdAt < Before(now, p.archiveJobEventDays)
  }

  predicate AuditCopyExpired(p: Policy, now: Time, row: AuditRow) {
    row.createdAt < Before(now, if Security(row.action) then p.archiveSecurityAuditDays else p.archiveAuditLogDays)
  }

  /** What a whole clean-up makes of an event. */
  function SweptEvent(p: Policy, now: Time, stamp: Time, x: EventSlot): EventSlot {
    var expired := x.hot.Some? && EventExpired(p, now, x.hot.value.0, x.hot.value.1);
    var copy :=
      if x.copy.Some? then x.copy
      else if p.archiveEnabled && expired then
        Some(EventCopy(x.hot.value.0, x.hot.value.1.kind, x.hot.value.1.status, stamp))
      else None;
    EventSlot(
      if x.hot.Some? && !expired && !JobExpired(p, now, x.hot.value.1) then x.hot else None,
      if copy.Some? && EventCopyExpired(p, now, copy.value.row) then None else copy)
  }

  /** What a whole clean-up makes of an audit row. */
  function SweptAudit(p: Policy, now: Time, stamp: Time, x: AuditSlot): AuditSlot {
    var expired := x.hot.Some? && AuditExpired(p, now, x.hot.value);
    var copy :=
      if x.copy.Some? then x.copy
      else if p.archiveEnabled && expired then Some(AuditCopy(x.hot.value, stamp))
      else None;
    AuditSlot(
      if expired then None else x.hot,
      if copy.Some? && AuditCopyExpired(p, now, copy.value.row) then None else copy)
  }

  /** What a whole clean-up makes of a job. */
  function SweptJob(p: Policy, now: Time, job: Option<JobRow>): Option<JobRow> {
    if job.Some? && JobExpired(p, now, job.value) then None else job
  }

  /** The security and the general filter split the audit log: each row is judged by exactly one window. */
  lemma AuditFiltersPartition(row: AuditRow, general: Time, security: Time)
    ensures !(AuditMatches(row, GeneralBefore(general)) && AuditMatches(row, SecurityBefore(security)))
    ensures AuditMatches(row, GeneralBefore(general)) || AuditMatches(row, SecurityBefore(security)) <==>
              row.createdAt < (if Security(row.action) then security else general)
  {
    ListsAreComplementary(SECURITY_PREFIXES, row.action);
  }

  // ---------------------------------------------------------------- the passes add up

  /** One event pass, seen from one event. */
  lemma EventPassOnEvent(archive: bool, t: Tables, w: EventWhere, stamp: EventId -> Time, e: EventId)
    requires t.Linked()
    ensures
      var x, y := EventAt(t, e), EventAt(EventPass(archive, t, w, stamp), e);
      var hit := x.hot.Some? && x.hot.value.0.createdAt < w.t
                 && (if w.DoneBefore? then Done(x.hot.value.1.status) else x.hot.value.1.status.Failed?);
      && y.hot == (if hit then None else x.hot)
      && y.copy == (if x.copy.None? && archive && hit
                    then Some(EventCopy(x.hot.value.0, x.hot.value.1.kind, x.hot.value.1.status, stamp(e))) else x.copy)
    ensures
      var u := EventPass(archive, t, w, stamp);
      u.jobs == t.jobs && u.audits == t.audits && u.auditArchive == t.auditArchive
  {
    var chosen := MatchingEvents(t, w);
    assert e in t.events ==> (e in chosen <==> EventMatches(t.jobs, t.events[e], w));
    var u := EventPass(archive, t, w, stamp);
    assert e in u.events <==> e in t.events && e !in chosen;
  }

  lemma AuditPassOnAudit(archive: bool, t: Tables, w: AuditWhere, stamp: AuditId -> Time, a: AuditId)
    ensures
      var x, y := AuditAt(t, a), AuditAt(AuditPass(archive, t, w, stamp), a);
      var hit := x.hot.Some? && AuditMatches(x.hot.value, w);
      && y.hot == (if hit then None else x.hot)
      && y.copy == (if x.copy.None? && archive && hit then Some(AuditCopy(x.hot.value, stamp(a))) else x.copy)
    ensures
      var u := AuditPass(archive, t, w, stamp);
      u.jobs == t.jobs && u.events == t.events && u.eventArchive == t.eventArchive
  {
    var chosen := MatchingAudits(t, w);
    assert a in t.audits ==> (a in chosen <==> AuditMatches(t.audits[a], w));
  }

  lemma HotPassesOnEvent(p: Policy, now: Time, stamp: Stamps, t: Tables, e: EventId)
    requires t.Linked()
    ensures
      var x, y := EventAt(t, e), EventAt(HotPasses(p, now, stamp, t), e);
      var expired := x.hot.Some? && EventExpired(p, now, x.hot.value.0, x.hot.value.1);
      && y.hot == (if expired then None else x.hot)
      && y.copy == (if x.copy.None? && p.archiveEnabled && expired
                    then Some(EventCopy(x.hot.value.0, x.hot.value.1.kind, x.hot.value.1.status, stamp.event(e))) else x.copy)
    ensures HotPasses(p, now, stamp, t).jobs == t.jobs
  {
    var w1, w2 := DoneBefore(Before(now, p.jobEventsDays)), FailedBefore(Before(now, p.failedJobDays));
    EventPassOnEvent(p.archiveEnabled, t, w1, stamp.event, e);
    var t1 := EventPass(p.archiveEnabled, t, w1, stamp.event);
    EventPassOnEvent(p.archiveEnabled, t1, w2, stamp.event, e);
    var t2 := EventPass(p.archiveEnabled, t1, w2, stamp.event);
    var w3, w4 := GeneralBefore(Before(now, p.auditLogDays)), SecurityBefore(Before(now, p.securityAuditDays));
    AuditPassOnAudit(p.archiveEnabled, t2, w3, stamp.audit, 0);
    AuditPassOnAudit(p.archiveEnabled, AuditPass(p.archiveEnabled, t2, w3, stamp.audit), w4, stamp.audit, 0);
  }

  lemma HotPassesOnAudit(p: Policy, now: Time, stamp: Stamps, t: Tables, a: AuditId)
    requires t.Linked()
    ensures
      var x, y := AuditAt(t, a), AuditAt(HotPasses(p, now, stamp, t), a);
      var expired := x.hot.Some? && AuditExpired(p, now, x.hot.value);
      && y.hot == (if expired then None else x.hot)
      && y.copy == (if x.copy.None? && p.archiveEnabled && expired then Some(AuditCopy(x.hot.value, stamp.audit(a))) else x.copy)
  {
    var w1, w2 := DoneBefore(Before(now, p.jobEventsDays)), FailedBefore(Before(now, p.failedJobDays));
    EventPassOnEvent(p.archiveEnabled, t, w1, stamp.event, 0);
    var t1 := EventPass(p.archiveEnabled, t, w1, stamp.event);
    EventPassOnEvent(p.archiveEnabled, t1, w2, stamp.event, 0);
    var t2 := EventPass(p.archiveEnabled, t1, w2, stamp.event);
    var w3, w4 := GeneralBefore(Before(now, p.auditLogDays)), SecurityBefore(Before(now, p.securityAuditDays));
    AuditPassOnAudit(p.archiveEnabled, t2, w3, stamp.audit, a);
    AuditPassOnAudit(p.archiveEnabled, AuditPass(p.archiveEnabled, t2, w3, stamp.audit), w4, stamp.audit, a);
    if a in t.audits {
      AuditFiltersPartition(t.audits[a], w3.t, w4.t);
    }
  }

  lemma DeleteJobsOnEvent(t: Tables, done: bool, threshold: Time, e: EventId)
    requires t.Linked()
    ensures
      var x, y := EventAt(t, e), EventAt(DeleteJobs(t, done, threshold), e);
      y == x.(hot := if x.hot.Some? && JobMatches(x.hot.value.1, done, threshold) then None else x.hot)
    ensures
      var u := DeleteJobs(t, done, threshold);
      u.audits == t.audits && u.auditArchive == t.auditArchive
  {
    var u := DeleteJobs(t, done, threshold);
    if e in t.events {
      var j := t.events[e].jobId;
      assert j in MatchingJobs(t, done, threshold) <==> JobMatches(t.jobs[j], done, threshold);
    }
    assert e in u.events ==> u.events[e] == t.events[e];
  }

  lemma DeleteJobsOnJob(t: Tables, done: bool, threshold: Time, j: JobId)
    requires t.Linked()
    ensures
      var x, y := Lookup(t.jobs, j), Lookup(DeleteJobs(t, done, threshold).jobs, j);
      y == if x.Some? && JobMatches(x.value, done, threshold) then None else x
  {
    assert j in MatchingJobs(t, done, threshold) <==> j in t.jobs && JobMatches(t.jobs[j], done, threshold);
  }

  lemma PurgeOnRows(t: Tables, events: Time, general: Time, security: Time, id: nat)
    requires t.Linked()
    ensures
      var u := PurgeArchives(t, events, general, security);
      var copy, audit := Lookup(t.eventArchive, id), Lookup(t.auditArchive, id);
      && u.events == t.events && u.jobs == t.jobs && u.audits == t.audits
      && Lookup(u.eventArchive, id) == (if copy.Some? && copy.value.row.createdAt < events then None else copy)
      && Lookup(u.auditArchive, id) ==
           (if audit.Some? && audit.value.row.createdAt < (if Security(audit.value.row.action) then security else general)
            then None else audit)
  {
    assert id in PurgedEvents(t, events) <==> id in t.eventArchive && t.eventArchive[id].row.createdAt < events;
    if id in t.auditArchive {
      AuditFiltersPartition(t.auditArchive[id].row, general, security);
    }
  }

  /** The passes, run one after the other, make of an event what `SweptEvent` says. */
  lemma CleanupOnEvent(p: Policy, now: Time, stamp: Stamps, t: Tables, e: EventId)
    requires t.Linked()
    ensures EventAt(Cleanup(p, now, stamp, t), e) == SweptEvent(p, now, stamp.event(e), EventAt(t, e))
  {
    HotPassesOnEvent(p, now, stamp, t, e);
    var t4 := HotPasses(p, now, stamp, t);
    DeleteJobsOnEvent(t4, true, Before(now, p.terminalJobDays), e);
    var t5 := DeleteJobs(t4, true, Before(now, p.terminalJobDays));
    DeleteJobsOnEvent(t5, false, Before(now, p.failedJobDays), e);
    var t6 := DeleteJobs(t5, false, Before(now, p.failedJobDays));
    PurgeOnRows(t6, Before(now, p.archiveJobEventDays), Before(now, p.archiveAuditLogDays),
                Before(now, p.archiveSecurityAuditDays), e);
  }

  lemma CleanupOnAudit(p: Policy, now: Time, stamp: Stamps, t: Tables, a: AuditId)
    requires t.Linked()
    ensures AuditAt(Cleanup(p, now, stamp, t), a) == SweptAudit(p, now, stamp.audit(a), AuditAt(t, a))
  {
    HotPassesOnAudit(p, now, stamp, t, a);
    var t4 := HotPasses(p, now, stamp, t);
    DeleteJobsOnEvent(t4, true, Before(now, p.terminalJobDays), 0);
    var t5 := DeleteJobs(t4, true, Before(now, p.terminalJobDays));
    DeleteJobsOnEvent(t5, false, Before(now, p.failedJobDays), 0);
    var t6 := DeleteJobs(t5, false, Before(now, p.failedJobDays));
    PurgeOnRows(t6, Before(now, p.archiveJobEventDays), Before(now, p.archiveAuditLogDays),
                Before(now, p.archiveSecurityAuditDays), a);
  }

  lemma CleanupOnJob(p: Policy, now: Time, stamp: Stamps, t: Tables, j: JobId)
    requires t.Linked()
    ensures Lookup(Cleanup(p, now, stamp, t).jobs, j) == SweptJob(p, now, Lookup(t.jobs, j))
  {
    HotPassesOnEvent(p, now, stamp, t, 0);
    var t4 := HotPasses(p, now, stamp, t);
    DeleteJobsOnJob(t4, true, Before(now, p.terminalJobDays), j);
    var t5 := DeleteJobs(t4, true, Before(now, p.terminalJobDays));
    DeleteJobsOnJob(t5, false, Before(now, p.failedJobDays), j);
  }

  /** Hot and archive ids stay disjoint. */
  lemma CleanupKeepsApart(p: Policy, now: Time, stamp: Stamps, t: Tables)
    requires t.Linked() && t.Apart()
    ensures Cleanup(p, now, stamp, t).Apart()
  {
    var u := Cleanup(p, now, stamp, t);
    forall e | e in u.events
      ensures e !in u.eventArchive
    {
      CleanupOnEvent(p, now, stamp, t, e);
      assert EventAt(u, e).hot.Some?;
    }
    forall a | a in u.audits
      ensures a !in u.auditArchive
    {
      CleanupOnAudit(p, now, stamp, t, a);
      assert AuditAt(u, a).hot.Some?;
    }
  }

  // ---------------------------------------------------------------- conservation

  /** The event would go with its job although its own window has not passed. */
  predicate Cascaded(p: Policy, now: Time, x: EventSlot) {
    x.hot.Some? && !EventExpired(p, now, x.hot.value.0, x.hot.value.1) && JobExpired(p, now, x.hot.value.1)
  }

  /** Conservation, seen from one hot event. */
  lemma SweptEventIsConserved(p: Policy, now: Time, stamp: Time, x: EventSlot)
    requires p.archiveEnabled && x.hot.Some? && x.copy.None?
    ensures
      var y, (row, job) := SweptEvent(p, now, stamp, x), x.hot.value;
      && (|| y.hot == x.hot
          || (y.copy.Some? && y.copy.value.row == row)
          || EventCopyExpired(p, now, row)
          || Cascaded(p, now, x))
      && (job.status in {Queued, Running} ==> y.hot == x.hot)
  {
  }

  /**
   Archive-mode conservation. After a clean-up an event that was hot is still hot; or archived with equal content;
   or older than the archive window; or it went with its job. An event of a queued or running job is untouched.
   */
  lemma EventsAreConserved(p: Policy, now: Time, stamp: Stamps, t: Tables, e: EventId)
    requires t.Linked() && t.Apart() && p.archiveEnabled && e in t.events
    ensures
      var u, row := Cleanup(p, now, stamp, t), t.events[e];
      && (|| (e in u.events && u.events[e] == row)
          || (e in u.eventArchive && u.eventArchive[e].row == row)
          || EventCopyExpired(p, now, row)
          || Cascaded(p, now, EventAt(t, e)))
      && (t.jobs[row.jobId].status in {Queued, Running} ==> e in u.events && u.events[e] == row)
  {
    var u := Cleanup(p, now, stamp, t);
    CleanupOnEvent(p, now, stamp, t, e);
    SlotShowsRow(u, e);
    SlotShowsRow(t, e);
    SweptEventIsConserved(p, now, stamp.event(e), EventAt(t, e));
  }

  /** The same for audit rows, which nothing cascades away. */
  lemma AuditsAreConserved(p: Policy, now: Time, stamp: Stamps, t: Tables, a: AuditId)
    requires t.Linked() && t.Apart() && p.archiveEnabled && a in t.audits
    ensures
      var u, row := Cleanup(p, now, stamp, t), t.audits[a];
      || (a in u.audits && u.audits[a] == row)
      || (a in u.auditArchive && u.auditArchive[a].row == row)
      || AuditCopyExpired(p, now, row)
  {
    var u := Cleanup(p, now, stamp, t);
    CleanupOnAudit(p, now, stamp, t, a);
    assert AuditAt(u, a).hot.Some? <==> a in u.audits;
    assert AuditAt(u, a).copy.Some? <==> a in u.auditArchive;
    assert AuditAt(t, a).copy.None?;
  }

  /** Nothing else appears: the archive keeps what it had within its window and gains only expired hot events. */
  lemma ArchiveGainsOnlyExpired(p: Policy, now: Time, stamp: Stamps, t: Tables, e: EventId)
    requires t.Linked()
    ensures
      var u := Cleanup(p, now, stamp, t);
      && (e in t.eventArchive ==>
            (e in u.eventArchive <==> !EventCopyExpired(p, now, t.eventArchive[e].row))
            && (e in u.eventArchive ==> u.eventArchive[e] == t.eventArchive[e]))
      && (e !in t.eventArchive && e in u.eventArchive ==>
            && p.archiveEnabled && e in t.events && u.eventArchive[e].row == t.events[e]
            && EventExpired(p, now, t.events[e], t.jobs[t.events[e].jobId]))
  {
    var u := Cleanup(p, now, stamp, t);
    CleanupOnEvent(p, now, stamp, t, e);
    assert EventAt(u, e).copy == Lookup(u.eventArchive, e);
    assert EventAt(t, e).copy == Lookup(t.eventArchive, e);
  }

  /**
   The event is younger than its job's end by more than the windows allow: by more than terminalJobDays - jobEventsDays
   days for a completed or canceled job, and at all for a failed job, whose events and row share one window.
   */
  predicate Exposed(p: Policy, x: EventSlot) {
    && x.hot.Some? && x.hot.value.1.completedAt.Some?
    && var (row, job) := x.hot.value;
       var gap := row.createdAt - job.completedAt.value;
       (Done(job.status) && gap > (p.terminalJobDays - p.jobEventsDays) * DAY) || (job.status.Failed? && gap > 0)
  }

  /** Some clean-up would cascade the event away if and only if it is exposed. */
  lemma CascadesSometimeIff(p: Policy, x: EventSlot)
    ensures (exists now :: Cascaded(p, now, x)) <==> Exposed(p, x)
  {
    if now :| Cascaded(p, now, x) {
      CascadedIsExposed(p, now, x);
    }
    if Exposed(p, x) {
      var (row, job) := x.hot.value;
      var days := if job.status.Failed? then p.failedJobDays else p.jobEventsDays;
      var now := row.createdAt + days * DAY;
      DayGap(now, p.terminalJobDays, p.jobEventsDays);
      assert Before(now, days) == row.createdAt;
      assert Cascaded(p, now, x);
    }
  }

  lemma CascadedIsExposed(p: Policy, now: Time, x: EventSlot)
    requires Cascaded(p, now, x)
    ensures Exposed(p, x)
  {
    DayGap(now, p.terminalJobDays, p.jobEventsDays);
  }

  lemma DayGap(now: Time, older: nat, newer: nat)
    ensures Before(now, newer) - Before(now, older) == (older - newer) * DAY
  {
  }

  // ---------------------------------------------------------------- absorption

  /** Clean-ups at t1 and then at t2 >= t1, against the one at t2 alone, for one event. */
  lemma EventAbsorbs(p: Policy, t1: Time, t2: Time, s1: Time, s2: Time, x: EventSlot)
    requires t1 <= t2 && (x.hot.Some? ==> x.copy.None?)
    ensures
      var twice, once := SweptEvent(p, t2, s2, SweptEvent(p, t1, s1, x)), SweptEvent(p, t2, s2, x);
      && twice.hot == once.hot
      && (LostCopy(p, t1, t2, x) ==> twice.copy.None? && once.copy.Some?)
      && (!LostCopy(p, t1, t2, x) ==> SameCopy(twice.copy, once.copy))
  {
    var y := SweptEvent(p, t1, s1, x);
    if x.hot.Some? {
      var (row, job) := x.hot.value;
      assert EventExpired(p, t1, row, job) ==> EventExpired(p, t2, row, job);
      assert JobExpired(p, t1, job) ==> JobExpired(p, t2, job);
      assert EventCopyExpired(p, t1, row) ==> EventCopyExpired(p, t2, row);
    } else {
      assert y.hot.None?;
    }
  }

  lemma AuditAbsorbs(p: Policy, t1: Time, t2: Time, s1: Time, s2: Time, x: AuditSlot)
    requires t1 <= t2 && (x.hot.Some? ==> x.copy.None?)
    ensures
      var twice, once := SweptAudit(p, t2, s2, SweptAudit(p, t1, s1, x)), SweptAudit(p, t2, s2, x);
      twice.hot == once.hot && SameAuditCopy(twice.copy, once.copy)
  {
  }

  /** Equal up to the time of archiving. */
  predicate SameCopy(x: Option<EventCopy>, y: Option<EventCopy>) {
    x.Some? == y.Some? && (x.Some? ==> x.value.(archivedAt := 0) == y.value.(archivedAt := 0))
  }

  predicate SameAuditCopy(x: Option<AuditCopy>, y: Option<AuditCopy>) {
    x.Some? == y.Some? && (x.Some? ==> x.value.(archivedAt := 0) == y.value.(archivedAt := 0))
  }

  /** An event that the early clean-up lets go with its job, and that the late one alone would archive and keep. */
  predicate LostCopy(p: Policy, t1: Time, t2: Time, x: EventSlot) {
    && p.archiveEnabled && Cascaded(p, t1, x)
    && EventExpired(p, t2, x.hot.value.0, x.hot.value.1) && !EventCopyExpired(p, t2, x.hot.value.0)
  }

  /**
   Absorption: with no writes in between, a clean-up at t1 and one at t2 >= t1 leave the hot tables of the one at
   t2 alone, whatever the mode. With t1 == t2 this is idempotence.
   */
  lemma HotTablesAbsorb(p: Policy, t1: Time, t2: Time, s1: Stamps, s2: Stamps, t: Tables)
    requires t.Linked() && t.Apart() && t1 <= t2
    ensures
      var twice, once := Cleanup(p, t2, s2, Cleanup(p, t1, s1, t)), Cleanup(p, t2, s2, t);
      twice.jobs == once.jobs && twice.events == once.events && twice.audits == once.audits
  {
    var u := Cleanup(p, t1, s1, t);
    var twice, once := Cleanup(p, t2, s2, u), Cleanup(p, t2, s2, t);
    forall j: JobId
      ensures Lookup(twice.jobs, j) == Lookup(once.jobs, j)
    {
      CleanupOnJob(p, t1, s1, t, j);
      CleanupOnJob(p, t2, s2, u, j);
      CleanupOnJob(p, t2, s2, t, j);
    }
    SameLookups(twice.jobs, once.jobs);
    forall e: EventId
      ensures Lookup(twice.events, e) == Lookup(once.events, e)
    {
      EventTwice(p, t1, t2, s1, s2, t, e);
    }
    SameLookups(twice.events, once.events);
    forall a: AuditId
      ensures Lookup(twice.audits, a) == Lookup(once.audits, a)
    {
      AuditTwice(p, t1, t2, s1, s2, t, a);
    }
    SameLookups(twice.audits, once.audits);
  }

  lemma EventTwice(p: Policy, t1: Time, t2: Time, s1: Stamps, s2: Stamps, t: Tables, e: EventId)
    requires t.Linked() && t.Apart() && t1 <= t2
    ensures
      var twice, once := Cleanup(p, t2, s2, Cleanup(p, t1, s1, t)), Cleanup(p, t2, s2, t);
      && Lookup(twice.events, e) == Lookup(once.events, e)
      && (SameCopy(Lookup(twice.eventArchive, e), Lookup(once.eventArchive, e)) <==> !LostCopy(p, t1, t2, EventAt(t, e)))
  {
    var u := Cleanup(p, t1, s1, t);
    CleanupOnEvent(p, t1, s1, t, e);
    CleanupOnEvent(p, t2, s2, u, e);
    CleanupOnEvent(p, t2, s2, t, e);
    EventAbsorbs(p, t1, t2, s1.event(e), s2.event(e), EventAt(t, e));
    SlotShowsRow(Cleanup(p, t2, s2, u), e);
    SlotShowsRow(Cleanup(p, t2, s2, t), e);
  }

  lemma SlotShowsRow(t: Tables, e: EventId)
    requires t.Linked()
    ensures
      var x := EventAt(t, e);
      && Lookup(t.events, e) == (if x.hot.Some? then Some(x.hot.value.0) else None)
      && Lookup(t.eventArchive, e) == x.copy
  {
  }

  lemma AuditTwice(p: Policy, t1: Time, t2: Time, s1: Stamps, s2: Stamps, t: Tables, a: AuditId)
    requires t.Linked() && t.Apart() && t1 <= t2
    ensures
      var twice, once := Cleanup(p, t2, s2, Cleanup(p, t1, s1, t)), Cleanup(p, t2, s2, t);
      && Lookup(twice.audits, a) == Lookup(once.audits, a)
      && SameAuditCopy(Lookup(twice.auditArchive, a), Lookup(once.auditArchive, a))
  {
    var u := Cleanup(p, t1, s1, t);
    CleanupOnAudit(p, t1, s1, t, a);
    CleanupOnAudit(p, t2, s2, u, a);
    CleanupOnAudit(p, t2, s2, t, a);
    AuditAbsorbs(p, t1, t2, s1.audit(a), s2.audit(a), AuditAt(t, a));
  }

  /** Archives equal up to the time of archiving. */
  ghost predicate SameArchives(x: Tables, y: Tables) {
    && (forall e: EventId :: SameCopy(Lookup(x.eventArchive, e), Lookup(y.eventArchive, e)))
    && (forall a: AuditId :: SameAuditCopy(Lookup(x.auditArchive, a), Lookup(y.auditArchive, a)))
  }

  /**
   The archives absorb too, up to the time of archiving, exactly when the early clean-up cascades away no event
   that the late one would archive and keep.
   */
  lemma ArchivesAbsorbIff(p: Policy, t1: Time, t2: Time, s1: Stamps, s2: Stamps, t: Tables)
    requires t.Linked() && t.Apart() && t1 <= t2
    ensures SameArchives(Cleanup(p, t2, s2, Cleanup(p, t1, s1, t)), Cleanup(p, t2, s2, t)) <==>
              forall e: EventId :: !LostCopy(p, t1, t2, EventAt(t, e))
  {
    var twice, once := Cleanup(p, t2, s2, Cleanup(p, t1, s1, t)), Cleanup(p, t2, s2, t);
    forall e: EventId
      ensures SameCopy(Lookup(twice.eventArchive, e), Lookup(once.eventArchive, e)) <==> !LostCopy(p, t1, t2, EventAt(t, e))
    {
      EventTwice(p, t1, t2, s1, s2, t, e);
    }
    forall a: AuditId
      ensures SameAuditCopy(Lookup(twice.auditArchive, a), Lookup(once.auditArchive, a))
    {
      AuditTwice(p, t1, t2, s1, s2, t, a);
    }
  }

  /** While no hot event is exposed, nothing cascades, so the archives absorb. */
  lemma UnexposedLogsAbsorb(p: Policy, t1: Time, t2: Time, s1: Stamps, s2: Stamps, t: Tables)
    requires t.Linked() && t.Apart() && t1 <= t2
    requires forall e :: e in t.events ==> !Exposed(p, EventAt(t, e))
    ensures SameArchives(Cleanup(p, t2, s2, Cleanup(p, t1, s1, t)), Cleanup(p, t2, s2, t))
  {
    forall e: EventId
      ensures !LostCopy(p, t1, t2, EventAt(t, e))
    {
      UnexposedIsKept(p, t1, t2, t, e);
    }
    ArchivesAbsorbIff(p, t1, t2, s1, s2, t);
  }

  lemma UnexposedIsKept(p: Policy, t1: Time, t2: Time, t: Tables, e: EventId)
    requires t.Linked() && (e in t.events ==> !Exposed(p, EventAt(t, e)))
    ensures !LostCopy(p, t1, t2, EventAt(t, e))
  {
    var x := EventAt(t, e);
    SlotShowsRow(t, e);
    if Cascaded(p, t1, x) {
      CascadedIsExposed(p, t1, x);
    }
  }

  /** A failed job's own `failed` event, written after the row was updated, is exposed under every policy. */
  lemma FailureEventIsExposed(p: Policy, t: Tables, e: EventId)
    requires t.Linked() && e in t.events && t.jobs[t.events[e].jobId].status.Failed?
    requires
      var ended := t.jobs[t.events[e].jobId].completedAt;
      ended.Some? && ended.value < t.events[e].createdAt
    ensures exists now :: Cascaded(p, now, EventAt(t, e))
  {
    CascadesSometimeIff(p, EventAt(t, e));
  }
}
