/**
 One whole clean-up, rule by rule: what becomes of each event, job and audit row, said of its status, its age in
 milliseconds, its action and the days configured, without the passes' own filters.
 */
module RetentionRules {
  import opened Base
  import opened Jobs
  import opened Retention

  /** The rule for a hot event, between two states of the tables. */
  ghost predicate EventSwept(p: Retention.Policy, now: Time, stamp: Time, t: Tables, u: Tables, e: EventId)
    requires t.Linked() && e in t.events
  {
    var row, job := t.events[e], t.jobs[t.events[e].jobId];
    var age, done, failed := now - row.createdAt, job.status == Completed || job.status == Canceled, job.status == Failed;
    var aged := (done && age > p.jobEventsDays * 24 * 60 * 60 * 1000) || (failed && age > p.failedJobDays * 24 * 60 * 60 * 1000);
    && (e in u.events <==> !aged && row.jobId in u.jobs)
    && (e in u.events ==> u.events[e] == row)
    && (e in u.eventArchive <==> p.archiveEnabled && aged && age <= p.archiveJobEventDays * 24 * 60 * 60 * 1000)
    && (e in u.eventArchive ==> u.eventArchive[e] == EventCopy(row, job.kind, job.status, stamp))
  }

  lemma SlotSwept(p: Retention.Policy, now: Time, stamp: Time, t: Tables, u: Tables, e: EventId)
    requires t.Linked() && u.Linked() && t.Apart() && e in t.events
    requires EventAt(u, e) == SweptEvent(p, now, stamp, EventAt(t, e))
    requires
      var j := t.events[e].jobId;
      Lookup(u.jobs, j) == SweptJob(p, now, Lookup(t.jobs, j))
    ensures EventSwept(p, now, stamp, t, u, e)
  {
    SlotShowsRow(t, e);
    SlotShowsRow(u, e);
  }

  /**
   A hot event leaves the hot table exactly if its job is completed or canceled and the event is older than
   `jobEventsDays`, or its job has failed and it is older than `failedJobDays`, or its job is deleted. It is in the archive
   afterwards exactly if it left for its own age, archiving is on, and it is within the archive's window; its copy holds the
   row and its job's kind and status.
   */
  lemma EventRule(p: Retention.Policy, now: Time, stamp: Stamps, t: Tables, e: EventId)
    requires t.Linked() && t.Apart() && e in t.events
    ensures EventSwept(p, now, stamp.event(e), t, Cleanup(p, now, stamp, t), e)
  {
    CleanupOnEvent(p, now, stamp, t, e);
    CleanupOnJob(p, now, stamp, t, t.events[e].jobId);
    SlotSwept(p, now, stamp.event(e), t, Cleanup(p, now, stamp, t), e);
  }

  /**
   A job is deleted exactly if it has ended and its end is further back than `terminalJobDays` if it is completed or
   canceled, or than `failedJobDays` if it has failed. Nothing else about jobs changes.
   */
  lemma JobRule(p: Retention.Policy, now: Time, stamp: Stamps, t: Tables, j: JobId)
    requires t.Linked()
    ensures
      var u := Cleanup(p, now, stamp, t);
      && (j in u.jobs ==> j in t.jobs && u.jobs[j] == t.jobs[j])
      && (j in t.jobs ==>
            var row := t.jobs[j];
            var days := if row.status == Failed then p.failedJobDays else p.terminalJobDays;
            j !in u.jobs <==>
              && (row.status == Completed || row.status == Canceled || row.status == Failed)
              && row.completedAt.Some? && now - row.completedAt.value > days * 24 * 60 * 60 * 1000)
  {
    CleanupOnJob(p, now, stamp, t, j);
    var u := Cleanup(p, now, stamp, t);
    assert Lookup(u.jobs, j).Some? <==> j in u.jobs;
  }

  /** The actions kept for the longer, security window, by how they begin. */
  predicate SecurityAction(action: string) {
    || "auth." <= action || "user." <= action || "settings." <= action || "bucket.grants" <= action
    || "bucket.admin_scope" <= action || "connection." <= action || "session." <= action
  }

  lemma SecurityActions(action: string)
    ensures Security(action) <==> SecurityAction(action)
  {
    var s := SECURITY_PREFIXES;
    assert |s| == 7 && s[0] == "auth." && s[1] == "user." && s[2] == "settings." && s[3] == "bucket.grants"
           && s[4] == "bucket.admin_scope" && s[5] == "connection." && s[6] == "session.";
  }

  /** The rule for an audit row, hot or archived, between two states of the tables. */
  ghost predicate AuditSwept(p: Retention.Policy, now: Time, stamp: Time, t: Tables, u: Tables, a: AuditId)
    requires a in t.audits || a in t.auditArchive
  {
    var hot := a in t.audits;
    var row := if hot then t.audits[a] else t.auditArchive[a].row;
    var age, secure := now - row.createdAt, SecurityAction(row.action);
    var aged := age > (if secure then p.securityAuditDays else p.auditLogDays) * 24 * 60 * 60 * 1000;
    var kept := age <= (if secure then p.archiveSecurityAuditDays else p.archiveAuditLogDays) * 24 * 60 * 60 * 1000;
    && (a in u.audits <==> hot && !aged)
    && (a in u.audits ==> u.audits[a] == row)
    && (a in u.auditArchive <==> kept && (!hot || (p.archiveEnabled && aged)))
    && (a in u.auditArchive ==> u.auditArchive[a] == if hot then AuditCopy(row, stamp) else t.auditArchive[a])
  }

  lemma AuditSlotSwept(p: Retention.Policy, now: Time, stamp: Time, t: Tables, u: Tables, a: AuditId)
    requires t.Apart() && (a in t.audits || a in t.auditArchive)
    requires AuditAt(u, a) == SweptAudit(p, now, stamp, AuditAt(t, a))
    ensures AuditSwept(p, now, stamp, t, u, a)
  {
    SecurityActions(if a in t.audits then t.audits[a].action else t.auditArchive[a].row.action);
    assert AuditAt(u, a).hot == Lookup(u.audits, a) && AuditAt(u, a).copy == Lookup(u.auditArchive, a);
  }

  /**
   An audit row leaves the hot table exactly if it is older than the window of its action, and is in the archive afterwards
   exactly if archiving is on and the archive's window for its action has not passed. An archived row stays exactly
   while that window lasts.
   */
  lemma AuditRule(p: Retention.Policy, now: Time, stamp: Stamps, t: Tables, a: AuditId)
    requires t.Linked() && t.Apart() && (a in t.audits || a in t.auditArchive)
    ensures AuditSwept(p, now, stamp.audit(a), t, Cleanup(p, now, stamp, t), a)
  {
    CleanupOnAudit(p, now, stamp, t, a);
    AuditSlotSwept(p, now, stamp.audit(a), t, Cleanup(p, now, stamp, t), a);
  }

  /** What the filters whose matches are counted select: a status or a kind of action, and an age beyond the days given. */
  lemma FilterRules(t: Tables, now: Time, days: nat, e: EventId, a: AuditId, j: JobId)
    ensures e in MatchingEvents(t, DoneBefore(Before(now, days))) <==>
              && e in t.events && t.events[e].jobId in t.jobs && t.jobs[t.events[e].jobId].status in {Completed, Canceled}
              && now - t.events[e].createdAt > days * 24 * 60 * 60 * 1000
    ensures e in MatchingEvents(t, FailedBefore(Before(now, days))) <==>
              && e in t.events && t.events[e].jobId in t.jobs && t.jobs[t.events[e].jobId].status == Failed
              && now - t.events[e].createdAt > days * 24 * 60 * 60 * 1000
    ensures a in MatchingAudits(t, SecurityBefore(Before(now, days))) <==>
              && a in t.audits && SecurityAction(t.audits[a].action)
              && now - t.audits[a].createdAt > days * 24 * 60 * 60 * 1000
    ensures a in MatchingAudits(t, GeneralBefore(Before(now, days))) <==>
              && a in t.audits && !SecurityAction(t.audits[a].action)
              && now - t.audits[a].createdAt > days * 24 * 60 * 60 * 1000
    ensures forall done ::
              j in MatchingJobs(t, done, Before(now, days)) <==>
                && j in t.jobs && t.jobs[j].completedAt.Some?
                && t.jobs[j].status in (if done then {Completed, Canceled} else {Failed})
                && now - t.jobs[j].completedAt.value > days * 24 * 60 * 60 * 1000
  {
    if a in t.audits {
      ListsAreComplementary(SECURITY_PREFIXES, t.audits[a].action);
      SecurityActions(t.audits[a].action);
    }
  }
}
