/** What the caller of each request or job may rely on when it returns, in any state a run can reach. */
module Answers {
  import opened Common
  import opened Sweep
  import opened TaskLifecycle
  import opened TaskModel

  /** One row is written, or created, and no other; nodes do not change. */
  ghost predicate Writes(db: Db, db': Db, id: TaskId, row: Task) {
    db'.tasks == db.tasks[id := row] && db'.nodes == db.nodes
  }

  /** At most one counter grows, by one. */
  ghost predicate Counts(before: map<ResultLabel, nat>, after: map<ResultLabel, nat>, result: Option<ResultLabel>) {
    forall l :: CompletedCount(after, l) == CompletedCount(before, l) + if result == Some(l) then 1 else 0
  }

  /** The statuses stand for the ranks of a task's way: active between claim and end, terminal at the end. */
  lemma StatusClasses(t: Task)
    ensures Active(t.status) <==> 3 <= Rank(t) <= 5
    ensures Terminal(t.status) <==> Rank(t) == 6
    ensures LevelTwo(t.taskType) <==> t.taskType in {Shell, PythonScript, ModalCommand}
  {
  }

  /** `now` is what was given, or else what was stored before. */
  predicate Merged<T(==)>(given: Option<T>, before: Option<T>, now: Option<T>) {
    if given.Some? then now == given else now == before
  }

  /** An attempt records the status reported and each value given, keeps each value not given, and no other
      attempt changes; a first attempt has nothing to keep and an empty summary. */
  ghost predicate AttemptRecords(attempts: map<TaskId, Attempt>, after: map<TaskId, Attempt>, id: TaskId,
                                 status: Status, startedAt: Option<Time>, finishedAt: Option<Time>, d: Detail)
  {
    var none := Attempt(status, None, None, Process(None, None, None, None), "{}");
    var a := if id in attempts then attempts[id] else none;
    && after.Keys == attempts.Keys + {id}
    && (forall other :: other in attempts && other != id ==> after[other] == attempts[other])
    && after[id].status == status
    && Merged(startedAt, a.startedAt, after[id].startedAt)
    && Merged(finishedAt, a.finishedAt, after[id].finishedAt)
    && Merged(d.process.bootId, a.process.bootId, after[id].process.bootId)
    && Merged(d.process.pid, a.process.pid, after[id].process.pid)
    && Merged(d.process.group, a.process.group, after[id].process.group)
    && Merged(d.process.exitCode, a.process.exitCode, after[id].process.exitCode)
    && after[id].summary == (if d.summary.Some? then d.summary.value else a.summary)
  }

  lemma AttemptMeans(attempts: map<TaskId, Attempt>, id: TaskId, status: Status, startedAt: Option<Time>,
                     finishedAt: Option<Time>, d: Detail)
    ensures AttemptRecords(attempts, UpsertAttempt(attempts, id, status, startedAt, finishedAt, d),
                           id, status, startedAt, finishedAt, d)
  {
  }

  /** Which reports a status allows: a claimed task may report anything, a running one all but its claim, and
      one asked to stop only how it ended. */
  predicate MayReport(s: Status, target: Status) {
    match target
    case Claimed => s == Claimed
    case Running => s == Claimed || s == Running
    case _ => FinalStatus(target) && (s == Claimed || s == Running || s == CancelRequested)
  }

  /** A node's event is taken exactly for its own task in a status that allows it; the first start and the
      first end are dated. */
  ghost predicate EventAnswer(db: Db, db': Db, node: NodeId, id: TaskId, target: Status, now: Time, p: Process,
                              r: Result<Status, TaskError>)
  {
    var own := id in db.tasks && db.tasks[id].node == node;
    && (r == Success(target) <==> own && MayReport(db.tasks[id].status, target))
    && (r == Failure(TaskNotFound) <==> !own)
    && (r == Failure(InvalidTransition) <==> own && !MayReport(db.tasks[id].status, target))
    && (r.Success? ==>
          && own && id in db'.tasks && db'.audit == db.audit
          && var t, u := db.tasks[id], db'.tasks[id];
             && Writes(db, db', id, t.(status := target, startedAt := u.startedAt, finishedAt := u.finishedAt))
             && u.startedAt == (if target == Running && t.startedAt == None then Some(now) else t.startedAt)
             && u.finishedAt == (if FinalStatus(target) && t.finishedAt == None then Some(now) else t.finishedAt)
             && AttemptRecords(db.attempts, db'.attempts, id, target, u.startedAt, u.finishedAt,
                               Detail(Process(p.bootId, p.pid, p.group, None), None))
             && Counts(db.completed, db'.completed,
                       if FinalStatus(target) then Some(TerminalResult(target)) else None))
    && (r.Failure? ==> db' == db)
  }

  lemma EventRow(t: Task, target: Status, now: Time)
    ensures var r := Transition(t, Report(target), now, Some(now), Some(now));
            && (r.Success? <==> MayReport(t.status, target))
            && (r.Failure? ==> r.error == InvalidTransition)
            && (r.Success? ==>
                  && r.value == t.(status := target, startedAt := r.value.startedAt, finishedAt := r.value.finishedAt)
                  && r.value.startedAt == (if target == Running && t.startedAt == None then Some(now) else t.startedAt)
                  && r.value.finishedAt ==
                     (if FinalStatus(target) && t.finishedAt == None then Some(now) else t.finishedAt)
                  && (FinalStatus(target) <==> Terminal(target)))
  {
  }

  lemma CompletionCounts(completed: map<ResultLabel, nat>, s: Status)
    ensures Counts(completed, RecordCompletion(completed, s), if Terminal(s) then Some(TerminalResult(s)) else None)
  {
  }

  lemma EventMeans(db: Db, node: NodeId, id: TaskId, target: Status, now: Time, p: Process)
    ensures var (db', r) := TaskEvent(db, node, id, target, now, p);
            EventAnswer(db, db', node, id, target, now, p, r)
  {
    if id in db.tasks && db.tasks[id].node == node {
      EventRow(db.tasks[id], target, now);
      var r := Transition(db.tasks[id], Report(target), now, Some(now), Some(now));
      if r.Success? {
        AttemptMeans(db.attempts, id, target, r.value.startedAt, r.value.finishedAt, Progress(p));
        CompletionCounts(db.completed, target);
      }
    }
  }

  /** A result of the node's own task is late exactly when the task is terminal; then nothing changes and the
      stored status is the answer. For an active task it is taken, dated, counted and locked. */
  ghost predicate ResultAnswer(db: Db, db': Db, node: NodeId, id: TaskId, finalStatus: Status,
                               startedAt: Option<Time>, finishedAt: Option<Time>, d: Detail, now: Time,
                               r: Result<ResultReply, TaskError>)
  {
    var own := id in db.tasks && db.tasks[id].node == node;
    && (r == Failure(TaskNotFound) <==> !own)
    && (own ==>
          && (r == Success(ResultReply(db.tasks[id].status, true)) <==> Terminal(db.tasks[id].status))
          && (r == Success(ResultReply(finalStatus, false)) <==> Active(db.tasks[id].status))
          && (r == Failure(NotAcceptingResult) <==> !Terminal(db.tasks[id].status) && !Active(db.tasks[id].status)))
    && (r.Success? && !r.value.duplicate ==>
          && own && db'.audit == db.audit
          && var started := if startedAt != None then startedAt else Or(db.tasks[id].startedAt, now);
             var finished := if finishedAt != None then finishedAt else Some(now);
             && Writes(db, db', id, db.tasks[id].(status := finalStatus, startedAt := started, finishedAt := finished,
                                                  resultLockedAt := Some(now)))
             && AttemptRecords(db.attempts, db'.attempts, id, finalStatus, started, finished, d)
             && Counts(db.completed, db'.completed, Some(TerminalResult(finalStatus))))
    && (r.Failure? || r.value.duplicate ==> db' == db)
  }

  lemma FinalizeMeans(db: Db, id: TaskId, finalStatus: Status, startedAt: Time, finishedAt: Time, now: Time)
    requires id in db.tasks && RowOk(db.tasks[id]) && FinalStatus(finalStatus)
    ensures var (db', r) := FinalizeTaskResult(db, id, finalStatus, startedAt, finishedAt, now);
            var t := db.tasks[id];
            && (Terminal(t.status) ==> r == Success(ResultReply(t.status, true)) && db' == db)
            && (Active(t.status) ==>
                  && r == Success(ResultReply(finalStatus, false))
                  && db' == db.(tasks := db.tasks[id := t.(status := finalStatus, startedAt := Some(startedAt),
                                                           finishedAt := Some(finishedAt),
                                                           resultLockedAt := Some(now))],
                                completed := db'.completed)
                  && Counts(db.completed, db'.completed, Some(TerminalResult(finalStatus))))
            && (!Terminal(t.status) && !Active(t.status) ==> r == Failure(NotAcceptingResult) && db' == db)
  {
    CompletionCounts(db.completed, finalStatus);
  }

  lemma ResultMeans(db: Db, node: NodeId, id: TaskId, finalStatus: Status, startedAt: Option<Time>,
                    finishedAt: Option<Time>, d: Detail, now: Time)
    requires DbOk(db) && FinalStatus(finalStatus)
    ensures var (db', r) := TaskResult(db, node, id, finalStatus, startedAt, finishedAt, d, now);
            ResultAnswer(db, db', node, id, finalStatus, startedAt, finishedAt, d, now, r)
  {
    if TaskOfNode(db, node, id) {
      assert RowOk(db.tasks[id]);
      var started := if startedAt.Some? then startedAt else Or(db.tasks[id].startedAt, now);
      var finished := Or(finishedAt, now);
      FinalizeMeans(db, id, finalStatus, started.value, finished.value, now);
      AttemptMeans(db.attempts, id, finalStatus, started, finished, d);
    }
  }

  /** The node takes such a task: a modal runner only modal commands and health checks, and no other node a
      modal command; shell and modal commands only where they are allowed. */
  predicate Accepts(n: Node, t: TaskType) {
    && n.enabled
    && (n.modalRunner ==> t == ModalCommand || t == HealthCheck)
    && (t == ModalCommand ==> n.modalRunner && n.allowModal)
    && (t == Shell || t == PythonScript ==> n.allowShell)
  }

  /** A new row: waiting exactly when its type needs no review or the reviewer approved it, and with a human at
      once exactly when there is no reviewer or the reviewer is uncertain. */
  ghost predicate IsNewRow(t: Task, n: NewTask, now: Time, reviewedAt: Time) {
    var limits := map[HealthCheck := 300, GitPull := 600, PipInstall := 1200, DownloadFile := 900,
                      UploadAndUnpack := 1800, ModalCommand := 7200];
    var needsReview := n.taskType in {Shell, PythonScript, ModalCommand};
    && t.node == n.node && t.taskType == n.taskType && t.createdAt == now
    && (n.timeoutSec.Some? ==> t.timeoutSec == n.timeoutSec.value)
    && (n.timeoutSec.None? ==> t.timeoutSec == if t.taskType in limits then limits[t.taskType] else 3600)
    && t.claimedAt == t.startedAt == t.finishedAt == t.resultLockedAt == None
    && t.status == (if needsReview && n.review != Some(Approve) then Reviewing else Pending)
    && (t.reviewStage == Some(3) <==> needsReview && (n.review.None? || n.review == Some(Uncertain)))
    && (t.reviewStage == None <==> !needsReview)
    && (t.reviewStage.Some? && t.reviewStage != Some(3) ==> t.reviewStage == Some(1))
    && t.reviewDecision == (if !needsReview then None else if n.review.None? then Some(Skipped) else n.review)
    && t.reviewStartedAt == (if needsReview then Some(now) else None)
    && t.reviewFinishedAt == (if needsReview && n.review.Some? then Some(reviewedAt) else None)
  }

  /** A task is created exactly if its id is new, its node takes such tasks and its directory is allowed. */
  ghost predicate CreateAnswer(db: Db, db': Db, id: TaskId, n: NewTask, now: Time, reviewedAt: Time,
                               r: Result<Task, TaskError>)
  {
    && (r.Success? <==>
          n.node in db.nodes && Accepts(db.nodes[n.node], n.taskType) && n.workdirAllowed && id !in db.tasks)
    && (r.Success? ==>
          && Writes(db, db', id, r.value) && IsNewRow(r.value, n, now, reviewedAt)
          && db'.audit == db.audit + [AuditEvent(CreateTaskAction, id, now)]
          && db'.attempts == db.attempts && db'.completed == db.completed)
    && (r.Failure? ==> db' == db)
  }

  lemma NewRowMeans(rowId: nat, n: NewTask, now: Time, reviewedAt: Time)
    requires n.review.Some? ==> VerdictOfReviewer(n.review.value)
    ensures IsNewRow(NewRow(rowId, n, now, reviewedAt), n, now, reviewedAt)
  {
  }

  lemma CreateWrites(db: Db, id: TaskId, n: NewTask, now: Time, reviewedAt: Time)
    ensures var (db', r) := CreateTask(db, id, n, now, reviewedAt);
            && (r.Success? <==>
                  n.node in db.nodes && Accepts(db.nodes[n.node], n.taskType) && n.workdirAllowed && id !in db.tasks)
            && (r.Failure? ==> db' == db)
            && (r.Success? ==>
                  && r.value == NewRow(|db.tasks|, n, now, reviewedAt)
                  && db' == db.(tasks := db.tasks[id := r.value],
                                audit := db.audit + [AuditEvent(CreateTaskAction, id, now)]))
  {
  }

  lemma CreateMeans(db: Db, id: TaskId, n: NewTask, now: Time, reviewedAt: Time)
    requires n.review.Some? ==> VerdictOfReviewer(n.review.value)
    ensures var (db', r) := CreateTask(db, id, n, now, reviewedAt);
            CreateAnswer(db, db', id, n, now, reviewedAt, r)
  {
    CreateWrites(db, id, n, now, reviewedAt);
    if CreateTask(db, id, n, now, reviewedAt).1.Success? {
      NewRowMeans(|db.tasks|, n, now, reviewedAt);
    }
  }

  /** What a successful request of an admin leaves: the row, its audit event, and at most one counter. */
  ghost predicate AdminWrites(db: Db, db': Db, id: TaskId, row: Task, e: AuditEvent, result: Option<ResultLabel>) {
    && Writes(db, db', id, row) && db'.audit == db.audit + [e]
    && db'.attempts == db.attempts && Counts(db.completed, db'.completed, result)
  }

  /** A waiting task is cancelled, an active one asked to stop, and both are on record; any other is refused. */
  ghost predicate CancelAnswer(db: Db, db': Db, id: TaskId, now: Time, r: Result<Task, TaskError>) {
    && (r == Failure(TaskNotFound) <==> id !in db.tasks)
    && (r == Failure(AlreadyTerminal) <==> id in db.tasks && Terminal(db.tasks[id].status))
    && (r == Failure(CannotCancelNow) <==> id in db.tasks && db.tasks[id].status == Reviewing)
    && (r.Success? <==> id in db.tasks && (db.tasks[id].status == Pending || Active(db.tasks[id].status)))
    && (r.Success? ==>
          var (s, counted) := if db.tasks[id].status == Pending then (Cancelled, Some(CancelledLabel))
                              else (CancelRequested, None);
          && r.value == db.tasks[id].(status := s, finishedAt := Some(now))
          && AdminWrites(db, db', id, r.value, AuditEvent(CancelTaskAction, id, now), counted))
    && (r.Failure? ==> db' == db)
  }

  lemma CancelMeans(db: Db, id: TaskId, now: Time)
    ensures var (db', r) := CancelTask(db, id, now);
            CancelAnswer(db, db', id, now, r)
  {
    CompletionCounts(db.completed, Cancelled);
  }

  /** Escalation works once, and restarts the review's clock. */
  ghost predicate EscalateAnswer(db: Db, db': Db, id: TaskId, now: Time, r: Result<Task, TaskError>) {
    && (r == Failure(TaskNotFound) <==> id !in db.tasks)
    && (r == Failure(NotUnderReview) <==> id in db.tasks && db.tasks[id].status != Reviewing)
    && (r == Failure(AlreadyHumanStage) <==>
          id in db.tasks && db.tasks[id].status == Reviewing && db.tasks[id].reviewStage == Some(3))
    && (r.Success? <==> id in db.tasks && db.tasks[id].status == Reviewing && db.tasks[id].reviewStage == Some(1))
    && (r.Success? ==>
          && r.value == db.tasks[id].(reviewStage := Some(3), reviewDecision := Some(PendingHuman),
                                      reviewStartedAt := Some(now), reviewFinishedAt := None)
          && AdminWrites(db, db', id, r.value, AuditEvent(EscalateAction, id, now), None))
    && (r.Failure? ==> db' == db)
  }

  lemma EscalateMeans(db: Db, id: TaskId, now: Time)
    requires DbOk(db)
    ensures var (db', r) := EscalateReview(db, id, now);
            EscalateAnswer(db, db', id, now, r)
  {
    if id in db.tasks {
      assert RowOk(db.tasks[id]);
    }
  }

  /** Approval works exactly in the human stage and ten seconds or more after the review started. */
  ghost predicate ApproveAnswer(db: Db, db': Db, id: TaskId, clock: Time, r: Result<Task, TaskError>) {
    var waiting := id in db.tasks && db.tasks[id].status == Reviewing && db.tasks[id].reviewStage == Some(3);
    && (r == Failure(TaskNotFound) <==> id !in db.tasks)
    && (r == Failure(NotAwaitingApproval) <==> id in db.tasks && !waiting)
    && (waiting ==>
          && db.tasks[id].reviewStartedAt.Some?
          && var elapsed := clock - db.tasks[id].reviewStartedAt.value;
             && (r == Failure(CooldownNotReached) <==> elapsed < 10_000_000)
             && (r.Success? <==> 10_000_000 <= elapsed))
    && (r.Success? ==>
          && waiting
          && var now := clock - clock % 1_000_000;
             && r.value == db.tasks[id].(status := Pending, reviewDecision := Some(HumanApproved),
                                         reviewFinishedAt := Some(now))
             && AdminWrites(db, db', id, r.value, AuditEvent(ApproveAction, id, now), None))
    && (r.Failure? ==> db' == db)
  }

  lemma ApproveMeans(db: Db, id: TaskId, clock: Time)
    requires DbOk(db)
    ensures var (db', r) := ApproveReview(db, id, clock);
            ApproveAnswer(db, db', id, clock, r)
  {
    if id in db.tasks {
      assert RowOk(db.tasks[id]);
    }
  }

  /** Rejection ends a review in any stage, and nothing else. */
  ghost predicate RejectAnswer(db: Db, db': Db, id: TaskId, now: Time, r: Result<Task, TaskError>) {
    && (r == Failure(TaskNotFound) <==> id !in db.tasks)
    && (r == Failure(NotUnderReview) <==> id in db.tasks && db.tasks[id].status != Reviewing)
    && (r.Success? <==> id in db.tasks && db.tasks[id].status == Reviewing)
    && (r.Success? ==>
          && r.value == db.tasks[id].(status := Rejected, reviewDecision := Some(HumanRejected),
                                      reviewFinishedAt := Some(now))
          && AdminWrites(db, db', id, r.value, AuditEvent(RejectAction, id, now), Some(FailLabel)))
    && (r.Failure? ==> db' == db)
  }

  lemma RejectMeans(db: Db, id: TaskId, now: Time)
    ensures var (db', r) := RejectReview(db, id, now);
            RejectAnswer(db, db', id, now, r)
  {
    CompletionCounts(db.completed, Rejected);
  }

  /** The node's row takes the interval it sent and the time it was heard; nothing else of any node changes. */
  ghost predicate NodeHeard(nodes: map<NodeId, Node>, nodes': map<NodeId, Node>, node: NodeId, intervalSec: nat,
                            now: Time)
    requires node in nodes
  {
    && nodes'.Keys == nodes.Keys
    && (forall other :: other in nodes && other != node ==> nodes'[other] == nodes[other])
    && nodes'[node].lastSeenAt == Some(now) && nodes'[node].heartbeatIntervalSec == intervalSec
    && nodes'[node].enabled == nodes[node].enabled && nodes'[node].modalRunner == nodes[node].modalRunner
    && nodes'[node].allowShell == nodes[node].allowShell && nodes'[node].allowModal == nodes[node].allowModal
  }

  ghost predicate BusyNode(tasks: map<TaskId, Task>, node: NodeId) {
    exists id :: id in tasks && tasks[id].node == node && tasks[id].status in {Claimed, Running, CancelRequested}
  }

  predicate Waiting(tasks: map<TaskId, Task>, node: NodeId, id: TaskId) {
    id in tasks && tasks[id].node == node && tasks[id].status == Pending
  }

  predicate NotLater(t: Task, u: Task) {
    t.createdAt <= u.createdAt && (t.createdAt == u.createdAt ==> t.rowId <= u.rowId)
  }

  /** A node that reports a task of its own gets none, and the task is claimed if it still waited. Any other
      gets the oldest of its waiting tasks, now claimed, exactly if it has no active one and any waits. */
  ghost predicate HeartbeatAnswer(db: Db, db': Db, node: NodeId, reported: Option<TaskId>, intervalSec: nat,
                                  now: Time, reply: HeartbeatReply)
    requires node in db.nodes
  {
    var own := reported.Some? && reported.value in db.tasks && db.tasks[reported.value].node == node;
    && NodeHeard(db.nodes, db'.nodes, node, intervalSec, now)
    && db'.audit == db.audit && db'.attempts == db.attempts && db'.completed == db.completed
    && (reply.task.Some? <==> !own && !BusyNode(db.tasks, node) && exists id :: Waiting(db.tasks, node, id))
    && (reply.task.Some? ==>
          var id := reply.task.value;
          && Waiting(db.tasks, node, id)
          && (forall other :: Waiting(db.tasks, node, other) ==> NotLater(db.tasks[id], db.tasks[other]))
          && db'.tasks == db.tasks[id := db.tasks[id].(status := Claimed, claimedAt := Some(now))])
    && (reply.task.None? ==>
          if own && db.tasks[reported.value].status == Pending then
            var t := db.tasks[reported.value];
            db'.tasks == db.tasks[reported.value := t.(status := Claimed, claimedAt := Or(t.claimedAt, now))]
          else db'.tasks == db.tasks)
    && (forall id :: id in reply.cancels <==>
                       id in db'.tasks && db'.tasks[id].node == node && db'.tasks[id].status == CancelRequested)
  }

  lemma SelectedIsOldest(tasks: map<TaskId, Task>, node: NodeId, pick: Option<TaskId>)
    requires Selected(tasks, node, pick)
    ensures pick.Some? <==> !BusyNode(tasks, node) && exists id :: Waiting(tasks, node, id)
    ensures pick.Some? ==>
              && Waiting(tasks, node, pick.value)
              && (forall other :: Waiting(tasks, node, other) ==> NotLater(tasks[pick.value], tasks[other]))
  {
    assert BusyNode(tasks, node) <==> HasActiveTask(tasks, node);
    assert forall id :: Waiting(tasks, node, id) <==> PendingFor(tasks, node, id);
    if pick.Some? {
      forall other | Waiting(tasks, node, other) ensures NotLater(tasks[pick.value], tasks[other]) {
        assert !Before(tasks[other], tasks[pick.value]);
      }
    }
  }

  lemma HeartbeatMeans(db: Db, node: NodeId, reported: Option<TaskId>, intervalSec: nat, now: Time,
                       pick: Option<TaskId>)
    requires node in db.nodes && (OwnTask(db, node, reported) || Selected(db.tasks, node, pick))
    ensures var (db', reply) := Heartbeat(db, node, reported, intervalSec, now, pick);
            HeartbeatAnswer(db, db', node, reported, intervalSec, now, reply)
  {
    if !OwnTask(db, node, reported) {
      SelectedIsOldest(db.tasks, node, pick);
    }
  }

  /** A sweep ends the stuck tasks, as timed out past the deadline and as lost otherwise, dates and records
      each once, leaves none stuck, and touches no other row. */
  ghost predicate SweepAnswer(db: Db, db': Db, clock: Time)
    requires forall id :: id in db.tasks ==> db.tasks[id].node in db.nodes
  {
    var now := clock - clock % 1_000_000;
    && db'.nodes == db.nodes && db'.tasks.Keys == db.tasks.Keys && db'.attempts == db.attempts
    && db.audit <= db'.audit
    && (forall id :: id in db.tasks ==> SweptRow(db, db', id, now, clock))
    && (forall e :: e in db'.audit[|db.audit|..] ==>
          && e.task in db.tasks && Stuck(db, e.task, clock) && e.at == now
          && e.action == (if Overrun(db.tasks[e.task], clock) then TaskTimeoutAction else TaskLostAction))
  }

  ghost predicate SweptRow(db: Db, db': Db, id: TaskId, now: Time, clock: Time)
    requires id in db.tasks && db.tasks[id].node in db.nodes && id in db'.tasks && db'.nodes == db.nodes
    requires db.audit <= db'.audit
  {
    var t, u := db.tasks[id], db'.tasks[id];
    && u.node in db'.nodes && !Stuck(db', id, clock)
    && (Stuck(db, id, clock) ==> u == t.(status := u.status, finishedAt := Some(now)))
    && (Stuck(db, id, clock) ==> u.status == if Overrun(t, clock) then TimedOut else Lost)
    && (!Stuck(db, id, clock) ==> u == t)
    && EventsAbout(db'.audit[|db.audit|..], id) == if Stuck(db, id, clock) then 1 else 0
  }

  lemma RowIsSwept(db: Db, ids: seq<TaskId>, clock: Time, id: TaskId)
    requires ActiveRows(db, ids) && id in db.tasks && db.tasks[id].node in db.nodes
    ensures AllKnown(db, ids)
    ensures db.audit <= SweepAll(db, ids, clock).audit
    ensures SweptRow(db, SweepAll(db, ids, clock), id, clock - clock % 1_000_000, clock)
  {
    SweepRow(db, ids, clock, id);
    TargetIsSettled(db, SweepAll(db, ids, clock), id, clock);
    SweepNotes(db, ids, clock, id);
  }

  lemma {:induction false} EventsAreVerdicts(db: Db, ids: seq<TaskId>, clock: Time, e: AuditEvent)
    requires AllKnown(db, ids) && e in SweepEvents(db, ids, clock)
    ensures e.task in db.tasks && db.tasks[e.task].node in db.nodes && Stuck(db, e.task, clock)
    ensures e.at == clock - clock % 1_000_000
    ensures e.action == if Overrun(db.tasks[e.task], clock) then TaskTimeoutAction else TaskLostAction
  {
    var front, last := ids[..|ids| - 1], ids[|ids| - 1];
    assert forall id :: id in front ==> id in ids;
    if e in SweepEvents(db, front, clock) {
      EventsAreVerdicts(db, front, clock, e);
    } else {
      VerdictIffStuck(db, last, clock);
    }
  }

  lemma {:induction false} SweepKeepsAttempts(db: Db, ids: seq<TaskId>, clock: Time)
    requires AllKnown(db, ids)
    ensures SweepAll(db, ids, clock).attempts == db.attempts
  {
    if ids != [] {
      assert forall id :: id in ids[..|ids| - 1] ==> id in ids;
      SweepKeepsAttempts(db, ids[..|ids| - 1], clock);
    }
  }

  lemma SweepMeans(db: Db, ids: seq<TaskId>, clock: Time)
    requires DbOk(db) && ActiveRows(db, ids)
    ensures AllKnown(db, ids) && SweepAnswer(db, SweepAll(db, ids, clock), clock)
  {
    assert AllKnown(db, ids);
    var after, events := SweepAll(db, ids, clock), SweepEvents(db, ids, clock);
    SweepKeepsAttempts(db, ids, clock);
    SweepAudit(db, ids, clock);
    assert after.audit[|db.audit|..] == events;
    forall id | id in db.tasks ensures SweptRow(db, after, id, clock - clock % 1_000_000, clock) {
      RowIsSwept(db, ids, clock, id);
    }
    forall e | e in events
      ensures e.task in db.tasks && Stuck(db, e.task, clock) && e.at == clock - clock % 1_000_000
      ensures e.action == if Overrun(db.tasks[e.task], clock) then TaskTimeoutAction else TaskLostAction
    {
      EventsAreVerdicts(db, ids, clock, e);
    }
  }

  /** The review started before the last whole second that lies thirty minutes back. */
  predicate ReviewTooOld(t: Task, clock: Time) {
    var c := clock - 1_800_000_000;
    t.status == Reviewing && t.reviewStartedAt.Some? && t.reviewStartedAt.value < c - c % 1_000_000
  }

  /** The expiry job ends exactly the reviews that are too old. */
  ghost predicate ExpireAnswer(db: Db, db': Db, clock: Time) {
    && db'.tasks.Keys == db.tasks.Keys
    && forall id :: id in db.tasks ==>
                      var t, now := db.tasks[id], clock - clock % 1_000_000;
                      db'.tasks[id] ==
                        if ReviewTooOld(t, clock) then
                          t.(status := ReviewExpired, reviewDecision := Some(Expired), reviewFinishedAt := Some(now))
                        else t
  }

  lemma OverdueIsTooOld(t: Task, clock: Time)
    ensures ReviewOverdue(t, clock) <==> ReviewTooOld(t, clock)
  {
  }

  lemma ExpireRow(db: Db, ids: seq<TaskId>, clock: Time, id: TaskId)
    requires OverdueRows(db, ids, clock) && id in db.tasks
    ensures ExpireAll(db, ids, clock).tasks.Keys == db.tasks.Keys
    ensures ExpireAll(db, ids, clock).tasks[id] ==
            if ReviewTooOld(db.tasks[id], clock) then Sweep.Expiry(db.tasks[id], clock) else db.tasks[id]
  {
    ExpireRowByRow(db, ids, clock, id);
    OverdueIsTooOld(db.tasks[id], clock);
  }

  lemma ExpireMeans(db: Db, ids: seq<TaskId>, clock: Time)
    requires OverdueRows(db, ids, clock)
    ensures ExpireAnswer(db, ExpireAll(db, ids, clock), clock)
  {
    if ids != [] {
      ExpireRow(db, ids, clock, ids[0]);
    }
    var after := ExpireAll(db, ids, clock);
    forall id | id in db.tasks
      ensures id in after.tasks
      ensures after.tasks[id] ==
              if ReviewTooOld(db.tasks[id], clock) then Sweep.Expiry(db.tasks[id], clock) else db.tasks[id]
    {
      ExpireRow(db, ids, clock, id);
    }
  }
}
