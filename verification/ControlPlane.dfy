/** The control plane as the object its request handlers and background jobs update. Each handler is one
    database transaction: it takes one step of the runs that TaskLifecycle speaks of, so that everything said
    of runs holds of the object, and it answers as Answers says. */
module ControlPlane {
  import opened Answers
  import opened Common
  import opened TaskLifecycle
  import opened TaskModel

  class Server {
    var nodes: map<NodeId, Node>
    var tasks: map<TaskId, Task>
    var attempts: map<TaskId, Attempt>
    var audit: seq<AuditEvent>
    var completed: map<ResultLabel, nat>
    ghost var steps: seq<Step>  // the requests and jobs so far

    function State(): Db
      reads this
    {
      Db(nodes, tasks, attempts, audit, completed)
    }

    /** The state is the one the steps so far lead to. */
    ghost predicate Valid()
      reads this
    {
      State() == Run(steps)
    }

    constructor ()
      ensures Valid() && steps == [] && State() == EMPTY_DB
    {
      nodes, tasks, attempts, audit, completed := map[], map[], map[], [], map[];
      steps := [];
    }

    /** An admin registers or changes a node. */
    method PutNodeRow(node: NodeId, enabled: bool, modalRunner: bool, allowShell: bool, allowModal: bool,
                      intervalSec: nat)
      requires Valid()
      modifies this
      ensures Valid()
      ensures steps == old(steps) + [PutNode(node, enabled, modalRunner, allowShell, allowModal, intervalSec)]
      ensures node in nodes && nodes == old(nodes)[node := nodes[node]] && tasks == old(tasks)
      ensures nodes[node].lastSeenAt == if node in old(nodes) then old(nodes)[node].lastSeenAt else None
      ensures nodes[node] ==
              Node(enabled, modalRunner, allowShell, allowModal, intervalSec, nodes[node].lastSeenAt)
    {
      var seen := if node in nodes then nodes[node].lastSeenAt else None;
      nodes := nodes[node := Node(enabled, modalRunner, allowShell, allowModal, intervalSec, seen)];
      RunStep(steps, PutNode(node, enabled, modalRunner, allowShell, allowModal, intervalSec));
      steps := steps + [PutNode(node, enabled, modalRunner, allowShell, allowModal, intervalSec)];
    }

    method WriteAudit(action: Action, id: TaskId, at: Time)
      modifies this`audit
      ensures audit == old(audit) + [AuditEvent(action, id, at)]
    {
      audit := audit + [AuditEvent(action, id, at)];
    }

    /** Adds one to the counter of a terminal status's result and leaves every other counter. */
    method RecordTaskTransitionMetrics(target: Status)
      modifies this`completed
      ensures completed == RecordCompletion(old(completed), target)
      ensures forall l :: CompletedCount(completed, l) ==
                          CompletedCount(old(completed), l)
                          + if Terminal(target) && TerminalResult(target) == l then 1 else 0
    {
      if Terminal(target) {
        var result := TerminalResult(target);
        completed := completed[result := CompletedCount(completed, result) + 1];
      }
    }

    method UpsertTaskAttempt(id: TaskId, status: Status, startedAt: Option<Time>, finishedAt: Option<Time>, d: Detail)
      modifies this`attempts
      ensures attempts == UpsertAttempt(old(attempts), id, status, startedAt, finishedAt, d)
    {
      if id !in attempts {
        var summary := if d.summary.Some? then d.summary.value else "{}";
        attempts := attempts[id := Attempt(status, startedAt, finishedAt, d.process, summary)];
        return;
      }
      var a, p := attempts[id], d.process;
      var merged := Process(Given(p.bootId, a.process.bootId), Given(p.pid, a.process.pid),
                            Given(p.group, a.process.group), Given(p.exitCode, a.process.exitCode));
      attempts := attempts[id := Attempt(status, Given(startedAt, a.startedAt), Given(finishedAt, a.finishedAt), merged,
                                         if d.summary.Some? then d.summary.value else a.summary)];
    }

    /** The one place that moves a task from status to status. */
    method Transit(id: TaskId, event: Event, now: Time, startedAt: Option<Time>, finishedAt: Option<Time>)
      returns (r: Result<Task, TaskError>)
      modifies this`tasks, this`completed
      ensures (State(), r) == TransitionTask(old(State()), id, event, now, startedAt, finishedAt)
    {
      if id !in tasks {
        return Failure(TaskNotFound);
      }
      var row := tasks[id];
      match event {
        case Report(target) =>
          if row.status !in AllowedFrom(target) {
            return Failure(InvalidTransition);
          }
          var started, finished := row.startedAt, row.finishedAt;
          if target.Running? && started.None? {
            started := if startedAt.Some? then startedAt else Some(now);
          }
          if Terminal(target) && finished.None? {
            finished := if finishedAt.Some? then finishedAt else Some(now);
          }
          row := row.(status := target, startedAt := started, finishedAt := finished);
        case Cancel =>
          if Terminal(row.status) {
            return Failure(AlreadyTerminal);
          }
          if row.status.Pending? {
            row := row.(status := Cancelled, finishedAt := Or(finishedAt, now));
          } else if Active(row.status) {
            row := row.(status := CancelRequested);
            if finishedAt.Some? {
              row := row.(finishedAt := finishedAt);
            }
          } else {
            return Failure(CannotCancelNow);
          }
        case ReviewEscalate =>
          if row.status != Reviewing {
            return Failure(NotUnderReview);
          }
          if row.reviewStage == Some(3) {
            return Failure(AlreadyHumanStage);
          }
          row := row.(reviewStage := Some(3), reviewDecision := Some(PendingHuman),
                      reviewStartedAt := Some(now), reviewFinishedAt := None);
        case ReviewApprove =>
          if row.status != Reviewing || row.reviewStage != Some(3) {
            return Failure(NotAwaitingApproval);
          }
          row := row.(status := Pending, reviewDecision := Some(HumanApproved), reviewFinishedAt := Some(now));
        case ReviewReject =>
          if row.status != Reviewing {
            return Failure(NotUnderReview);
          }
          row := row.(status := Rejected, reviewDecision := Some(HumanRejected), reviewFinishedAt := Some(now));
        case ReviewExpire =>
          if row.status != Reviewing {
            return Failure(NotUnderReview);
          }
          row := row.(status := ReviewExpired, reviewDecision := Some(Expired), reviewFinishedAt := Some(now));
        case BackgroundTimeout =>
          row := row.(status := TimedOut, finishedAt := Or(finishedAt, now));
        case BackgroundLost =>
          row := row.(status := Lost, finishedAt := Or(finishedAt, now));
      }
      tasks := tasks[id := row];
      RecordTaskTransitionMetrics(row.status);
      return Success(row);
    }

    /** The guarded update of a final result: zero rows change when the result is locked or the task is
        not active any more. */
    method Finalize(id: TaskId, finalStatus: Status, startedAt: Time, finishedAt: Time, now: Time)
      returns (r: Result<ResultReply, TaskError>)
      modifies this`tasks, this`completed
      ensures (State(), r) == FinalizeTaskResult(old(State()), id, finalStatus, startedAt, finishedAt, now)
    {
      if id !in tasks {
        return Failure(TaskNotFound);
      }
      var row := tasks[id];
      if !Active(row.status) && !Terminal(row.status) {
        return Failure(NotAcceptingResult);
      }
      var rowcount := 0;
      if row.resultLockedAt.None? && Active(row.status) {
        tasks := tasks[id := row.(status := finalStatus, startedAt := Some(startedAt),
                                  finishedAt := Some(finishedAt), resultLockedAt := Some(now))];
        rowcount := 1;
      }
      if rowcount != 1 {
        if Terminal(tasks[id].status) {
          return Success(ResultReply(tasks[id].status, true));
        }
        return Failure(NotAcceptingResult);
      }
      RecordTaskTransitionMetrics(finalStatus);
      return Success(ResultReply(finalStatus, false));
    }

    method TaskEvents(node: NodeId, id: TaskId, target: Status, now: Time, p: Process)
      returns (r: Result<Status, TaskError>)
      requires Valid()
      modifies this
      ensures Valid() && steps == old(steps) + [EventStep(node, id, target, now, p)]
      ensures r == TaskEvent(old(State()), node, id, target, now, p).1
      ensures EventAnswer(old(State()), State(), node, id, target, now, p, r)
    {
      EventMeans(State(), node, id, target, now, p);
      EventRuns(steps, node, id, target, now, p);
      steps := steps + [EventStep(node, id, target, now, p)];
      r := RecordEvent(node, id, target, now, p);
    }

    method RecordEvent(node: NodeId, id: TaskId, target: Status, now: Time, p: Process)
      returns (r: Result<Status, TaskError>)
      modifies this`tasks, this`completed, this`attempts
      ensures (State(), r) == TaskEvent(old(State()), node, id, target, now, p)
    {
      if id !in tasks || tasks[id].node != node {
        return Failure(TaskNotFound);
      }
      var updated := Transit(id, Report(target), now, Some(now), Some(now));
      if updated.Failure? {
        return Failure(updated.error);
      }
      UpsertTaskAttempt(id, target, updated.value.startedAt, updated.value.finishedAt, Progress(p));
      return Success(target);
    }

    method ReceiveResult(node: NodeId, id: TaskId, finalStatus: Status, startedAt: Option<Time>,
                         finishedAt: Option<Time>, d: Detail, now: Time)
      returns (r: Result<ResultReply, TaskError>)
      requires Valid() && FinalStatus(finalStatus)
      modifies this
      ensures Valid() && steps == old(steps) + [ResultStep(node, id, finalStatus, startedAt, finishedAt, d, now)]
      ensures r == TaskResult(old(State()), node, id, finalStatus, startedAt, finishedAt, d, now).1
      ensures ResultAnswer(old(State()), State(), node, id, finalStatus, startedAt, finishedAt, d, now, r)
    {
      RunOk(steps);
      ResultMeans(State(), node, id, finalStatus, startedAt, finishedAt, d, now);
      ResultRuns(steps, node, id, finalStatus, startedAt, finishedAt, d, now);
      steps := steps + [ResultStep(node, id, finalStatus, startedAt, finishedAt, d, now)];
      r := SettleResult(node, id, finalStatus, startedAt, finishedAt, d, now);
    }

    method SettleResult(node: NodeId, id: TaskId, finalStatus: Status, startedAt: Option<Time>,
                        finishedAt: Option<Time>, d: Detail, now: Time)
      returns (r: Result<ResultReply, TaskError>)
      modifies this`tasks, this`completed, this`attempts
      ensures (State(), r) == TaskResult(old(State()), node, id, finalStatus, startedAt, finishedAt, d, now)
    {
      if id !in tasks || tasks[id].node != node {
        return Failure(TaskNotFound);
      }
      var finished := if finishedAt.Some? then finishedAt.value else now;
      var started :=
        if startedAt.Some? then startedAt.value
        else if tasks[id].startedAt.Some? then tasks[id].startedAt.value
        else now;
      r := Finalize(id, finalStatus, started, finished, now);
      if r.Success? && !r.value.duplicate {
        UpsertTaskAttempt(id, finalStatus, Some(started), Some(finished), d);
      }
    }

    method Create(id: TaskId, n: NewTask, now: Time, reviewedAt: Time) returns (r: Result<Task, TaskError>)
      requires Valid() && (n.review.Some? ==> VerdictOfReviewer(n.review.value))
      modifies this
      ensures Valid() && steps == old(steps) + [CreateStep(id, n, now, reviewedAt)]
      ensures r == CreateTask(old(State()), id, n, now, reviewedAt).1
      ensures CreateAnswer(old(State()), State(), id, n, now, reviewedAt, r)
    {
      CreateMeans(State(), id, n, now, reviewedAt);
      RunStep(steps, CreateStep(id, n, now, reviewedAt));
      steps := steps + [CreateStep(id, n, now, reviewedAt)];
      r := InsertTask(id, n, now, reviewedAt);
    }

    method InsertTask(id: TaskId, n: NewTask, now: Time, reviewedAt: Time) returns (r: Result<Task, TaskError>)
      modifies this`tasks, this`audit
      ensures (State(), r) == CreateTask(old(State()), id, n, now, reviewedAt)
    {
      if n.node !in nodes {
        return Failure(NodeNotFound);
      }
      var node := nodes[n.node];
      if !node.enabled {
        return Failure(NodeDisabled);
      }
      if n.taskType.ModalCommand? && !node.modalRunner {
        return Failure(InvalidTarget);
      }
      if node.modalRunner && !n.taskType.ModalCommand? && !n.taskType.HealthCheck? {
        return Failure(InvalidTarget);
      }
      if !n.workdirAllowed {
        return Failure(WorkdirNotAllowed);
      }
      var status, stage, decision, started, finished :=
        Pending, None, None, None, None;
      if LevelTwo(n.taskType) {
        if (n.taskType.Shell? || n.taskType.PythonScript?) && !node.allowShell {
          return Failure(TypeForbidden);
        }
        if n.taskType.ModalCommand? && !node.allowModal {
          return Failure(TypeForbidden);
        }
        status, stage, started := Reviewing, Some(1), Some(now);
        if n.review.Some? {
          decision, finished := n.review, Some(reviewedAt);
          if n.review.value == Approve {
            status := Pending;
          } else if n.review.value == Uncertain {
            stage := Some(3);
          }
        } else {
          stage, decision := Some(3), Some(Skipped);
        }
      }
      if id in tasks {
        return Failure(DuplicateId);
      }
      var row := Task(|tasks|, n.node, n.taskType, NormalizeTimeout(n.taskType, n.timeoutSec), status, now,
                      None, None, None, None, stage, decision, started, finished);
      tasks := tasks[id := row];
      WriteAudit(CreateTaskAction, id, now);
      return Success(row);
    }

    method CancelByAdmin(id: TaskId, now: Time) returns (r: Result<Task, TaskError>)
      requires Valid()
      modifies this
      ensures Valid() && steps == old(steps) + [CancelStep(id, now)]
      ensures r == CancelTask(old(State()), id, now).1
      ensures CancelAnswer(old(State()), State(), id, now, r)
    {
      CancelMeans(State(), id, now);
      CancelRuns(steps, id, now);
      steps := steps + [CancelStep(id, now)];
      r := Transit(id, Cancel, now, None, Some(now));
      if r.Success? {
        WriteAudit(CancelTaskAction, id, now);
      }
    }

    method Escalate(id: TaskId, now: Time) returns (r: Result<Task, TaskError>)
      requires Valid()
      modifies this
      ensures Valid() && steps == old(steps) + [EscalateStep(id, now)]
      ensures r == EscalateReview(old(State()), id, now).1
      ensures EscalateAnswer(old(State()), State(), id, now, r)
    {
      RunOk(steps);
      EscalateMeans(State(), id, now);
      RunStep(steps, EscalateStep(id, now));
      steps := steps + [EscalateStep(id, now)];
      r := Transit(id, ReviewEscalate, now, None, None);
      if r.Success? {
        WriteAudit(EscalateAction, id, now);
      }
    }

    method ApproveByAdmin(id: TaskId, clock: Time) returns (r: Result<Task, TaskError>)
      requires Valid()
      modifies this
      ensures Valid() && steps == old(steps) + [ApproveStep(id, clock)]
      ensures r == ApproveReview(old(State()), id, clock).1
      ensures ApproveAnswer(old(State()), State(), id, clock, r)
    {
      RunOk(steps);
      ApproveMeans(State(), id, clock);
      RunStep(steps, ApproveStep(id, clock));
      steps := steps + [ApproveStep(id, clock)];
      if id !in tasks {
        return Failure(TaskNotFound);
      }
      var row := tasks[id];
      if row.status != Reviewing || row.reviewStage != Some(3) {
        return Failure(NotAwaitingApproval);
      }
      if row.reviewStartedAt.Some? {
        if clock - row.reviewStartedAt.value < HUMAN_REVIEW_COOLDOWN {
          return Failure(CooldownNotReached);
        }
      }
      r := Transit(id, ReviewApprove, Seconds(clock), None, None);
      if r.Success? {
        WriteAudit(ApproveAction, id, Seconds(clock));
      }
    }

    method RejectByAdmin(id: TaskId, now: Time) returns (r: Result<Task, TaskError>)
      requires Valid()
      modifies this
      ensures Valid() && steps == old(steps) + [RejectStep(id, now)]
      ensures r == RejectReview(old(State()), id, now).1
      ensures RejectAnswer(old(State()), State(), id, now, r)
    {
      RejectMeans(State(), id, now);
      RunStep(steps, RejectStep(id, now));
      steps := steps + [RejectStep(id, now)];
      r := Transit(id, ReviewReject, now, None, None);
      if r.Success? {
        WriteAudit(RejectAction, id, now);
      }
    }

    /** The claiming update: at most one row, the oldest pending one, and none while another is active. */
    method ClaimNextTaskForNode(node: NodeId, claimedAt: Time) returns (pick: Option<TaskId>)
      modifies this`tasks
      ensures Selected(old(tasks), node, pick)
      ensures pick.Some? ==> pick.value in old(tasks)
      ensures tasks == Claim(old(tasks), pick, claimedAt)
    {
      if HasActiveTask(tasks, node) || forall id :: id in tasks ==> !PendingFor(tasks, node, id) {
        return None;
      }
      ghost var waiting :| waiting in tasks && PendingFor(tasks, node, waiting);
      ghost var _ := OldestPending(tasks, node, tasks.Keys, waiting);
      var id :| id in tasks && PendingFor(tasks, node, id)
                && forall other :: other in tasks && PendingFor(tasks, node, other) ==>
                                     !Before(tasks[other], tasks[id]);
      tasks := tasks[id := tasks[id].(status := Claimed, claimedAt := Some(claimedAt))];
      return Some(id);
    }

    method SyncReportedActiveTask(node: NodeId, reported: Option<TaskId>, now: Time) returns (found: bool)
      modifies this`tasks
      ensures found <==> OwnTask(old(State()), node, reported)
      ensures tasks == if found then SyncReported(old(tasks), reported.value, now) else old(tasks)
    {
      if reported.None? || reported.value !in tasks || tasks[reported.value].node != node {
        return false;
      }
      var row := tasks[reported.value];
      if row.status == Pending {
        row := row.(status := Claimed);
        if row.claimedAt.None? {
          row := row.(claimedAt := Some(now));
        }
        tasks := tasks[reported.value := row];
      }
      return true;
    }

    method ReceiveHeartbeat(node: NodeId, reported: Option<TaskId>, intervalSec: nat, now: Time)
      returns (reply: HeartbeatReply)
      requires Valid() && node in nodes && nodes[node].enabled
      modifies this
      ensures Valid()
      ensures exists pick :: steps == old(steps) + [HeartbeatStep(node, reported, intervalSec, now, pick)]
      ensures HeartbeatAnswer(old(State()), State(), node, reported, intervalSec, now, reply)
    {
      ghost var before := State();
      ghost var pick;
      reply, pick := Dispatch(node, reported, intervalSec, now);
      HeartbeatMeans(before, node, reported, intervalSec, now, pick);
      RunStep(steps, HeartbeatStep(node, reported, intervalSec, now, pick));
      steps := steps + [HeartbeatStep(node, reported, intervalSec, now, pick)];
    }

    /** Sync first, claim only if that found nothing, then list what the node shall cancel. */
    method Dispatch(node: NodeId, reported: Option<TaskId>, intervalSec: nat, now: Time)
      returns (reply: HeartbeatReply, ghost pick: Option<TaskId>)
      requires node in nodes
      modifies this`nodes, this`tasks
      ensures OwnTask(old(State()), node, reported) || Selected(old(tasks), node, pick)
      ensures (State(), reply) == Heartbeat(old(State()), node, reported, intervalSec, now, pick)
    {
      nodes := nodes[node := nodes[node].(heartbeatIntervalSec := intervalSec, lastSeenAt := Some(now))];
      var found := SyncReportedActiveTask(node, reported, now);
      var claimed := None;
      if !found {
        claimed := ClaimNextTaskForNode(node, now);
      }
      pick := claimed;
      var cancelling := set id | id in tasks && tasks[id].node == node && tasks[id].status.CancelRequested?;
      reply := HeartbeatReply(claimed, cancelling);
    }

    /** `activeTasks` is what the query returned, in any order. */
    method MarkLostTasks(activeTasks: seq<TaskId>, clock: Time)
      requires Valid() && ActiveRows(State(), activeTasks)
      modifies this
      ensures Valid() && steps == old(steps) + [MarkLostStep(activeTasks, clock)]
      ensures forall id :: id in old(tasks) ==> old(tasks)[id].node in old(nodes)
      ensures SweepAnswer(old(State()), State(), clock)
    {
      RunOk(steps);
      SweepMeans(State(), activeTasks, clock);
      RunStep(steps, MarkLostStep(activeTasks, clock));
      steps := steps + [MarkLostStep(activeTasks, clock)];
      SweepRows(activeTasks, clock);
    }

    /** One pass over the rows, checking the deadline first. */
    method SweepRows(activeTasks: seq<TaskId>, clock: Time)
      requires AllKnown(State(), activeTasks)
      modifies this`tasks, this`completed, this`audit
      ensures AllKnown(old(State()), activeTasks)
      ensures State() == SweepAll(old(State()), activeTasks, clock)
    {
      var now := Seconds(clock);
      ghost var before := State();
      assert activeTasks[..0] == [];
      for i := 0 to |activeTasks|
        invariant AllKnown(before, activeTasks[..i])
        invariant State() == SweepAll(before, activeTasks[..i], clock)
      {
        var id := activeTasks[i];
        assert activeTasks[..i + 1][..i] == activeTasks[..i];
        assert id in activeTasks;
        SweepOne(id, clock, now);
      }
      assert activeTasks[..|activeTasks|] == activeTasks;
    }

    method SweepOne(id: TaskId, clock: Time, now: Time)
      requires id in tasks && tasks[id].node in nodes && now == Seconds(clock)
      modifies this`tasks, this`completed, this`audit
      ensures State() == SweepTask(old(State()), id, clock)
    {
      var task := tasks[id];
      var node := nodes[task.node];
      if task.status == Running && task.startedAt.Some? {
        var deadline := task.startedAt.value + task.timeoutSec * SECOND;
        if clock > deadline {
          var _ := Transit(id, BackgroundTimeout, now, None, Some(now));
          WriteAudit(TaskTimeoutAction, id, now);
          return;
        }
      }
      if task.status == CancelRequested {
        var cancelRequestedAt := LatestCancel(audit, id);
        if cancelRequestedAt.Some? && clock - cancelRequestedAt.value > CANCEL_ACK_TIMEOUT {
          var _ := Transit(id, BackgroundLost, now, None, Some(now));
          WriteAudit(TaskLostAction, id, now);
          return;
        }
      }
      if task.status == Claimed || task.status == Running {
        var since := if node.lastSeenAt.Some? then node.lastSeenAt else task.claimedAt;
        if since.Some? && clock - since.value > 3 * IntervalSec(node) * SECOND {
          var _ := Transit(id, BackgroundLost, now, None, Some(now));
          WriteAudit(TaskLostAction, id, now);
        }
      }
    }

    method ExpireReviewingTasks(expired: seq<TaskId>, clock: Time)
      requires Valid() && OverdueRows(State(), expired, clock)
      modifies this
      ensures Valid() && steps == old(steps) + [ExpireStep(expired, clock)]
      ensures ExpireAnswer(old(State()), State(), clock)
    {
      ghost var before := State();
      ExpireMeans(before, expired, clock);
      RunStep(steps, ExpireStep(expired, clock));
      steps := steps + [ExpireStep(expired, clock)];
      assert expired[..0] == [];
      for i := 0 to |expired|
        invariant State() == ExpireAll(before, expired[..i], clock)
        invariant steps == old(steps) + [ExpireStep(expired, clock)]
      {
        assert expired[..i + 1][..i] == expired[..i];
        var _ := Transit(expired[i], ReviewExpire, Seconds(clock), None, None);
      }
      assert expired[..|expired|] == expired;
    }
  }

  lemma EventRuns(steps: seq<Step>, node: NodeId, id: TaskId, target: Status, now: Time, p: Process)
    ensures Run(steps + [EventStep(node, id, target, now, p)]) == TaskEvent(Run(steps), node, id, target, now, p).0
  {
    RunStep(steps, EventStep(node, id, target, now, p));
  }

  lemma ResultRuns(steps: seq<Step>, node: NodeId, id: TaskId, finalStatus: Status, startedAt: Option<Time>,
                   finishedAt: Option<Time>, d: Detail, now: Time)
    requires FinalStatus(finalStatus)
    ensures Run(steps + [ResultStep(node, id, finalStatus, startedAt, finishedAt, d, now)])
            == TaskResult(Run(steps), node, id, finalStatus, startedAt, finishedAt, d, now).0
  {
    RunStep(steps, ResultStep(node, id, finalStatus, startedAt, finishedAt, d, now));
  }

  lemma CancelRuns(steps: seq<Step>, id: TaskId, now: Time)
    ensures Run(steps + [CancelStep(id, now)]) == CancelTask(Run(steps), id, now).0
  {
    RunStep(steps, CancelStep(id, now));
  }

  /** Among the pending tasks of a node one is the oldest. */
  lemma {:induction false} OldestPending(tasks: map<TaskId, Task>, node: NodeId, among: set<TaskId>, some: TaskId)
    returns (best: TaskId)
    requires some in among && PendingFor(tasks, node, some)
    ensures best in among && PendingFor(tasks, node, best)
    ensures forall other :: other in among && PendingFor(tasks, node, other) ==> !Before(tasks[other], tasks[best])
    decreases among
  {
    var rest := among - {some};
    if other :| other in rest && PendingFor(tasks, node, other) {
      best := OldestPending(tasks, node, rest, other);
      if Before(tasks[some], tasks[best]) {
        best := some;
      }
    } else {
      best := some;
    }
  }
}
