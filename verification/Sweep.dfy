/** The background sweeps over stuck tasks and over reviews nobody answered: they act on exactly the rows
    they should, and leave none behind. */
module Sweep {
  import opened Common
  import opened TaskModel
  import opened TaskLifecycle

  function VerdictFor(db: Db, id: TaskId, clock: Time): Option<Event>
    requires id in db.tasks && db.tasks[id].node in db.nodes
  {
    Verdict(db.tasks[id], db.nodes[db.tasks[id].node], LatestCancel(db.audit, id), clock)
  }

  function VerdictEvents(db: Db, id: TaskId, clock: Time): seq<AuditEvent>
    requires id in db.tasks && db.tasks[id].node in db.nodes
  {
    match VerdictFor(db, id, clock)
    case None => []
    case Some(e) => [AuditEvent(VerdictAction(e), id, Seconds(clock))]
  }

  /** The audit events of one sweep, in the order of its rows. */
  function SweepEvents(db: Db, ids: seq<TaskId>, clock: Time): seq<AuditEvent>
    requires AllKnown(db, ids)
  {
    if ids == [] then []
    else
      assert AllKnown(db, ids[..|ids| - 1]);
      SweepEvents(db, ids[..|ids| - 1], clock) + VerdictEvents(db, ids[|ids| - 1], clock)
  }

  function EventsAbout(events: seq<AuditEvent>, id: TaskId): nat {
    if events == [] then 0
    else EventsAbout(events[..|events| - 1], id) + if events[|events| - 1].task == id then 1 else 0
  }

  function Ended(t: Task, s: Status, clock: Time): Task {
    t.(status := s, finishedAt := Some(Seconds(clock)))
  }

  lemma LatestCancelIgnoresSweep(audit: seq<AuditEvent>, e: Event, other: TaskId, at: Time, id: TaskId)
    ensures LatestCancel(audit + [AuditEvent(VerdictAction(e), other, at)], id) == LatestCancel(audit, id)
  {
    LatestCancelOfAppended(audit, AuditEvent(VerdictAction(e), other, at), id);
  }

  /** What the sweep makes of one row. */
  function Swept(db: Db, id: TaskId, clock: Time): Task
    requires id in db.tasks && db.tasks[id].node in db.nodes
  {
    match VerdictFor(db, id, clock)
    case None => db.tasks[id]
    case Some(e) => Ended(db.tasks[id], if e.BackgroundTimeout? then TimedOut else Lost, clock)
  }

  lemma BackgroundEnds(t: Task, e: Event, clock: Time)
    requires e.BackgroundTimeout? || e.BackgroundLost?
    ensures Transition(t, e, Seconds(clock), None, Some(Seconds(clock)))
            == Success(Ended(t, if e.BackgroundTimeout? then TimedOut else Lost, clock))
  {
  }

  lemma SweepTaskWrites(db: Db, last: TaskId, clock: Time)
    requires last in db.tasks && db.tasks[last].node in db.nodes
    ensures var after := SweepTask(db, last, clock);
            && after.tasks == db.tasks[last := Swept(db, last, clock)]
            && after.audit == db.audit + VerdictEvents(db, last, clock)
  {
    var e := VerdictFor(db, last, clock);
    if e.Some? {
      BackgroundEnds(db.tasks[last], e.value, clock);
    } else {
      assert db.tasks[last := db.tasks[last]] == db.tasks;
      assert db.audit + [] == db.audit;
    }
  }

  lemma SweepTaskEffect(db: Db, last: TaskId, clock: Time, id: TaskId)
    requires last in db.tasks && db.tasks[last].node in db.nodes && id in db.tasks
    ensures var after := SweepTask(db, last, clock);
            && id in after.tasks
            && after.tasks[id] == (if id == last then Swept(db, last, clock) else db.tasks[id])
            && after.audit == db.audit + VerdictEvents(db, last, clock)
            && LatestCancel(after.audit, id) == LatestCancel(db.audit, id)
  {
    SweepTaskWrites(db, last, clock);
    NoCancelInVerdict(db, last, clock, id);
  }

  lemma NoCancelInVerdict(db: Db, last: TaskId, clock: Time, id: TaskId)
    requires last in db.tasks && db.tasks[last].node in db.nodes
    ensures LatestCancel(db.audit + VerdictEvents(db, last, clock), id) == LatestCancel(db.audit, id)
  {
    var e := VerdictFor(db, last, clock);
    if e.Some? {
      LatestCancelIgnoresSweep(db.audit, e.value, last, Seconds(clock), id);
    } else {
      assert db.audit + [] == db.audit;
    }
  }

  lemma LastIsNew(ids: seq<TaskId>)
    requires NoRepeats(ids) && ids != []
    ensures var front, last := ids[..|ids| - 1], ids[|ids| - 1];
            NoRepeats(front) && last !in front && forall id :: id in ids <==> id in front || id == last
  {
    assert ids == ids[..|ids| - 1] + [ids[|ids| - 1]];
  }

  /** The loop over the rows does to each row what it would do to it alone: it neither meets a row it has
      already changed nor depends on the order of the query's answer. */
  lemma {:induction false} SweepRowByRow(db: Db, ids: seq<TaskId>, clock: Time, id: TaskId)
    requires AllKnown(db, ids) && NoRepeats(ids)
    requires id in db.tasks && db.tasks[id].node in db.nodes
    ensures var after := SweepAll(db, ids, clock);
            && LatestCancel(after.audit, id) == LatestCancel(db.audit, id)
            && after.tasks[id] == (if id in ids then Swept(db, id, clock) else db.tasks[id])
  {
    if ids != [] {
      var front, last := ids[..|ids| - 1], ids[|ids| - 1];
      LastIsNew(ids);
      SweepRowByRow(db, front, clock, id);
      SweepTaskEffect(SweepAll(db, front, clock), last, clock, id);
    }
  }

  lemma {:induction false} SweepAudit(db: Db, ids: seq<TaskId>, clock: Time)
    requires AllKnown(db, ids) && NoRepeats(ids)
    ensures SweepAll(db, ids, clock).audit == db.audit + SweepEvents(db, ids, clock)
  {
    if ids != [] {
      var front, last := ids[..|ids| - 1], ids[|ids| - 1];
      LastIsNew(ids);
      SweepAudit(db, front, clock);
      SweepRowByRow(db, front, clock, last);
      var mid := SweepAll(db, front, clock);
      SweepTaskEffect(mid, last, clock, last);
      var events, more := SweepEvents(db, front, clock), VerdictEvents(db, last, clock);
      assert VerdictEvents(mid, last, clock) == more;
      assert db.audit + (events + more) == db.audit + events + more;
    }
  }

  lemma EventsAboutAppended(events: seq<AuditEvent>, e: AuditEvent, id: TaskId)
    ensures EventsAbout(events + [e], id) == EventsAbout(events, id) + if e.task == id then 1 else 0
  {
    assert (events + [e])[..|events|] == events;
  }

  lemma {:induction false} OneEventPerVerdict(db: Db, ids: seq<TaskId>, clock: Time, id: TaskId)
    requires AllKnown(db, ids) && NoRepeats(ids)
    ensures EventsAbout(SweepEvents(db, ids, clock), id)
            == if id in ids && VerdictFor(db, id, clock).Some? then 1 else 0
  {
    if ids != [] {
      var front, last := ids[..|ids| - 1], ids[|ids| - 1];
      LastIsNew(ids);
      OneEventPerVerdict(db, front, clock, id);
      var events := SweepEvents(db, front, clock);
      var e := VerdictFor(db, last, clock);
      if e.Some? {
        EventsAboutAppended(events, AuditEvent(VerdictAction(e.value), last, Seconds(clock)), id);
      } else {
        assert events + [] == events;
      }
    }
  }

  predicate CancelOf(e: AuditEvent, id: TaskId) {
    e.action == CancelTaskAction && e.task == id
  }

  /** The task was asked to cancel, and every time it was is over five minutes ago. */
  ghost predicate CancelOverdue(audit: seq<AuditEvent>, id: TaskId, clock: Time) {
    && (exists e :: e in audit && CancelOf(e, id))
    && (forall e :: e in audit && CancelOf(e, id) ==> clock - e.at > 300_000_000)
  }

  /** What the audit query answers: the latest of the task's cancellations, if there is one. */
  lemma {:induction false} LatestCancelIs(audit: seq<AuditEvent>, id: TaskId)
    ensures LatestCancel(audit, id).None? <==> forall e :: e in audit ==> !CancelOf(e, id)
    ensures LatestCancel(audit, id).Some? ==>
              var at := LatestCancel(audit, id).value;
              && (exists e :: e in audit && CancelOf(e, id) && e.at == at)
              && (forall e :: e in audit && CancelOf(e, id) ==> e.at <= at)
  {
    if audit != [] {
      var front, last := audit[..|audit| - 1], audit[|audit| - 1];
      LatestCancelIs(front, id);
      assert audit == front + [last];
      assert last in audit;
      if LatestCancel(front, id).Some? {
        var e :| e in front && CancelOf(e, id) && e.at == LatestCancel(front, id).value;
        assert e in audit;
      }
    }
  }

  lemma CancelOverdueIff(audit: seq<AuditEvent>, id: TaskId, clock: Time)
    ensures CancelOverdue(audit, id, clock) <==>
            LatestCancel(audit, id).Some? && CANCEL_ACK_TIMEOUT < clock - LatestCancel(audit, id).value
  {
    LatestCancelIs(audit, id);
  }

  /** A task the sweep must not leave behind: running past its deadline, claimed or running on a node that
      has been silent for over three intervals, or with a cancellation unanswered for five minutes. */
  ghost predicate Stuck(db: Db, id: TaskId, clock: Time)
    requires id in db.tasks && db.tasks[id].node in db.nodes
  {
    var t, n := db.tasks[id], db.nodes[db.tasks[id].node];
    var silence := 3 * SECOND * if n.heartbeatIntervalSec == 0 then 5 else n.heartbeatIntervalSec;
    || Overrun(t, clock)
    || ((t.status.Claimed? || t.status.Running?) && n.lastSeenAt.Some? && clock - n.lastSeenAt.value > silence)
    || ((t.status.Claimed? || t.status.Running?) && n.lastSeenAt.None? && t.claimedAt.Some?
        && clock - t.claimedAt.value > silence)
    || (t.status.CancelRequested? && CancelOverdue(db.audit, id, clock))
  }

  predicate Overrun(t: Task, clock: Time) {
    t.status.Running? && t.startedAt.Some? && clock > t.startedAt.value + t.timeoutSec * SECOND
  }

  /** What one sweep must make of a row. */
  ghost function SweepTarget(db: Db, id: TaskId, clock: Time): Task
    requires id in db.tasks && db.tasks[id].node in db.nodes
  {
    if !Stuck(db, id, clock) then db.tasks[id]
    else if Overrun(db.tasks[id], clock) then
      db.tasks[id].(status := TimedOut, finishedAt := Some(clock - clock % 1_000_000))
    else db.tasks[id].(status := Lost, finishedAt := Some(clock - clock % 1_000_000))
  }

  lemma VerdictIffStuck(db: Db, id: TaskId, clock: Time)
    requires id in db.tasks && db.tasks[id].node in db.nodes
    ensures VerdictFor(db, id, clock).Some? <==> Stuck(db, id, clock)
    ensures Swept(db, id, clock) == SweepTarget(db, id, clock)
    ensures Stuck(db, id, clock) ==> Active(db.tasks[id].status)
  {
    CancelOverdueIff(db.audit, id, clock);
  }

  /** A row that is as it must be after a sweep is not stuck, and differs from the row before if that was. */
  lemma TargetIsSettled(db: Db, after: Db, id: TaskId, clock: Time)
    requires id in db.tasks && db.tasks[id].node in db.nodes && id in after.tasks && after.nodes == db.nodes
    requires after.tasks[id] == SweepTarget(db, id, clock)
    requires LatestCancel(after.audit, id) == LatestCancel(db.audit, id)
    ensures !Stuck(after, id, clock)
    ensures after.tasks[id] != db.tasks[id] <==> Stuck(db, id, clock)
  {
    VerdictIffStuck(db, id, clock);
    CancelOverdueIff(db.audit, id, clock);
    CancelOverdueIff(after.audit, id, clock);
  }

  lemma SweepRow(db: Db, ids: seq<TaskId>, clock: Time, id: TaskId)
    requires ActiveRows(db, ids)
    requires id in db.tasks && db.tasks[id].node in db.nodes
    ensures AllKnown(db, ids)
    ensures var after := SweepAll(db, ids, clock);
            after.tasks[id] == SweepTarget(db, id, clock) && LatestCancel(after.audit, id) == LatestCancel(db.audit, id)
    ensures id in ids && VerdictFor(db, id, clock).Some? <==> Stuck(db, id, clock)
  {
    VerdictIffStuck(db, id, clock);
    SweepRowByRow(db, ids, clock, id);
  }

  lemma SweepNotes(db: Db, ids: seq<TaskId>, clock: Time, id: TaskId)
    requires ActiveRows(db, ids)
    requires id in db.tasks && db.tasks[id].node in db.nodes
    ensures AllKnown(db, ids)
    ensures var after := SweepAll(db, ids, clock);
            && db.audit <= after.audit
            && EventsAbout(after.audit[|db.audit|..], id) == if Stuck(db, id, clock) then 1 else 0
  {
    SweepRow(db, ids, clock, id);
    SweepAudit(db, ids, clock);
    OneEventPerVerdict(db, ids, clock, id);
    assert SweepAll(db, ids, clock).audit[|db.audit|..] == SweepEvents(db, ids, clock);
  }

  lemma RunOfSweep(steps: seq<Step>, ids: seq<TaskId>, clock: Time)
    requires ActiveRows(Run(steps), ids)
    ensures AllKnown(Run(steps), ids)
    ensures Run(steps + [MarkLostStep(ids, clock)]) == SweepAll(Run(steps), ids, clock)
  {
    assert (steps + [MarkLostStep(ids, clock)])[..|steps|] == steps;
  }

  /** Sound and complete: one sweep ends exactly the stuck tasks, a task past its deadline as timed out and
      any other as lost; all other rows are unchanged and there is one audit event for each changed row. */
  lemma SweepSoundAndComplete(steps: seq<Step>, ids: seq<TaskId>, clock: Time, id: TaskId)
    requires ActiveRows(Run(steps), ids)
    requires id in Run(steps).tasks
    ensures var db, after := Run(steps), Run(steps + [MarkLostStep(ids, clock)]);
            && id in after.tasks && db.tasks[id].node in db.nodes && after.nodes == db.nodes
            && after.tasks[id] == SweepTarget(db, id, clock)
            && (after.tasks[id] != db.tasks[id] <==> Stuck(db, id, clock))
            && !Stuck(after, id, clock)
            && db.audit <= after.audit
            && EventsAbout(after.audit[|db.audit|..], id) == if after.tasks[id] != db.tasks[id] then 1 else 0
  {
    RunOk(steps);
    RunOfSweep(steps, ids, clock);
    SweepRow(Run(steps), ids, clock, id);
    TargetIsSettled(Run(steps), Run(steps + [MarkLostStep(ids, clock)]), id, clock);
    SweepNotes(Run(steps), ids, clock, id);
  }

  /** After a sweep no running task is past its deadline, because every running task has a start time, and
      no cancellation is unanswered for too long, because every one is in the audit trail. */
  lemma NothingOverdueAfterSweep(steps: seq<Step>, ids: seq<TaskId>, clock: Time, id: TaskId)
    requires ActiveRows(Run(steps), ids)
    requires id in Run(steps).tasks
    ensures var after := Run(steps + [MarkLostStep(ids, clock)]);
            id in after.tasks
            && (after.tasks[id].status.Running? ==>
                  after.tasks[id].startedAt.Some?
                  && clock <= after.tasks[id].startedAt.value + after.tasks[id].timeoutSec * SECOND)
            && (after.tasks[id].status.CancelRequested? ==>
                  exists e :: e in after.audit && CancelOf(e, id) && clock - e.at <= 300_000_000)
  {
    SweepSoundAndComplete(steps, ids, clock, id);
    RunOk(steps + [MarkLostStep(ids, clock)]);
    LatestCancelIs(Run(steps + [MarkLostStep(ids, clock)]).audit, id);
  }

  function Expiry(t: Task, clock: Time): Task {
    t.(status := ReviewExpired, reviewDecision := Some(Expired), reviewFinishedAt := Some(Seconds(clock)))
  }

  lemma ExpireTaskEffect(db: Db, last: TaskId, clock: Time, id: TaskId)
    requires last in db.tasks && db.tasks[last].status.Reviewing? && id in db.tasks
    ensures var after := TransitionTask(db, last, ReviewExpire, Seconds(clock), None, None).0;
            && after.tasks.Keys == db.tasks.Keys
            && after.tasks[id] == if id == last then Expiry(db.tasks[id], clock) else db.tasks[id]
  {
    assert Transition(db.tasks[last], ReviewExpire, Seconds(clock), None, None)
           == Success(Expiry(db.tasks[last], clock));
  }

  lemma {:induction false} ExpireRowByRow(db: Db, ids: seq<TaskId>, clock: Time, id: TaskId)
    requires NoRepeats(ids) && id in db.tasks
    requires forall i :: i in ids ==> i in db.tasks && db.tasks[i].status.Reviewing?
    ensures ExpireAll(db, ids, clock).tasks.Keys == db.tasks.Keys
    ensures ExpireAll(db, ids, clock).tasks[id] == if id in ids then Expiry(db.tasks[id], clock) else db.tasks[id]
  {
    if ids != [] {
      var front, last := ids[..|ids| - 1], ids[|ids| - 1];
      LastIsNew(ids);
      ExpireRowByRow(db, front, clock, id);
      ExpireRowByRow(db, front, clock, last);
      ExpireTaskEffect(ExpireAll(db, front, clock), last, clock, id);
    }
  }

  /** The review sweep expires exactly the reviews that started before the cutoff: every task under review
      has a start time, and escalation restarts it. */
  lemma ExpireSoundAndComplete(steps: seq<Step>, ids: seq<TaskId>, clock: Time, id: TaskId)
    requires OverdueRows(Run(steps), ids, clock)
    requires id in Run(steps).tasks
    ensures var db, after := Run(steps), Run(steps + [ExpireStep(ids, clock)]);
            && id in after.tasks
            && (after.tasks[id].status.Reviewing? ==>
                  after.tasks[id].reviewStartedAt.Some?
                  && Seconds(clock - REVIEW_TIMEOUT) <= after.tasks[id].reviewStartedAt.value)
            && (after.tasks[id] != db.tasks[id] <==> ReviewOverdue(db.tasks[id], clock))
            && (after.tasks[id] != db.tasks[id] ==> after.tasks[id].status.ReviewExpired?)
  {
    var after := Run(steps + [ExpireStep(ids, clock)]);
    RunOk(steps);
    assert (steps + [ExpireStep(ids, clock)])[..|steps|] == steps;
    ExpireRowByRow(Run(steps), ids, clock, id);
  }
}
