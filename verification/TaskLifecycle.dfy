/** Runs of the control plane: what every request and job keeps, and what follows for whole runs. */
module TaskLifecycle {
  import opened Common
  import opened TaskModel

  // ---- what one row keeps ----

  /** The position of a row on its only way: machine review, human review, pending, claimed, running,
      cancel requested, terminal. */
  function Rank(t: Task): nat {
    match t.status
    case Reviewing => if t.reviewStage == Some(3) then 1 else 0
    case Pending => 2
    case Claimed => 3
    case Running => 4
    case CancelRequested => 5
    case _ => 6
  }

  /** A level-two task that got past review carries an approval. */
  predicate Reviewed(t: Task) {
    LevelTwo(t.taskType) && !t.status.Reviewing? && !t.status.Rejected? && !t.status.ReviewExpired? ==>
      t.reviewDecision == Some(Approve) || t.reviewDecision == Some(HumanApproved)
  }

  predicate RowOk(t: Task) {
    && Reviewed(t)
    && (t.status.Running? ==> t.startedAt.Some?)
    && (t.status.Claimed? || t.status.Running? ==> t.claimedAt.Some?)
    && (t.resultLockedAt.Some? ==> Terminal(t.status))
    && (t.status.Reviewing? ==> t.reviewStartedAt.Some? && (t.reviewStage == Some(1) || t.reviewStage == Some(3)))
  }

  /** Forward or unchanged; the review decision is settled when review ends, and a terminal row never
      changes in any column. */
  predicate Advances(t: Task, u: Task) {
    && u.node == t.node && u.taskType == t.taskType && u.timeoutSec == t.timeoutSec && u.createdAt == t.createdAt
    && Rank(t) <= Rank(u)
    && (Rank(t) == Rank(u) ==> u.status == t.status && u.reviewStage == t.reviewStage)
    && (!t.status.Reviewing? ==> u.reviewDecision == t.reviewDecision && !u.status.Reviewing?)
    && (Terminal(t.status) ==> u == t)
  }

  lemma AdvancesTransitive(t: Task, u: Task, v: Task)
    requires Advances(t, u) && Advances(u, v)
    ensures Advances(t, v)
  {
  }

  /** Every transition moves a row forward and keeps it well-formed. The two background transitions have
      no guard of their own, so they need a caller that picks active rows. */
  lemma TransitionAdvances(t: Task, e: Event, now: Time, startedAt: Option<Time>, finishedAt: Option<Time>)
    requires RowOk(t)
    requires e.BackgroundTimeout? || e.BackgroundLost? ==> Active(t.status)
    requires Transition(t, e, now, startedAt, finishedAt).Success?
    ensures var u := Transition(t, e, now, startedAt, finishedAt).value;
            RowOk(u) && Advances(t, u) && !Terminal(t.status)
  {
  }

  // ---- counting terminal tasks ----

  function Settled(tasks: map<TaskId, Task>, result: ResultLabel): set<TaskId> {
    set id | id in tasks && Terminal(tasks[id].status) && TerminalResult(tasks[id].status) == result
  }

  /** The completion counter of every result is the number of tasks that ended with it. */
  ghost predicate Accounted(db: Db) {
    forall result :: CompletedCount(db.completed, result) == |Settled(db.tasks, result)|
  }

  lemma AccountedWrite(db: Db, id: TaskId, t: Task)
    requires Accounted(db)
    requires id in db.tasks ==> !Terminal(db.tasks[id].status)
    ensures Accounted(db.(tasks := db.tasks[id := t], completed := RecordCompletion(db.completed, t.status)))
  {
    forall result
      ensures CompletedCount(RecordCompletion(db.completed, t.status), result) == |Settled(db.tasks[id := t], result)|
    {
      SettledWrite(db.tasks, id, t, result);
    }
  }

  lemma SettledMember(tasks: map<TaskId, Task>, id: TaskId, t: Task, result: ResultLabel, other: TaskId)
    ensures other in Settled(tasks[id := t], result) <==>
            if other == id then Terminal(t.status) && TerminalResult(t.status) == result
            else other in Settled(tasks, result)
  {
  }

  lemma SettledWrite(tasks: map<TaskId, Task>, id: TaskId, t: Task, result: ResultLabel)
    requires id in tasks ==> !Terminal(tasks[id].status)
    ensures |Settled(tasks[id := t], result)| ==
            |Settled(tasks, result)| + if Terminal(t.status) && TerminalResult(t.status) == result then 1 else 0
  {
    var before, after := Settled(tasks, result), Settled(tasks[id := t], result);
    assert id !in before;
    forall other ensures other in after <==> other in before || (other == id && id in after) {
      SettledMember(tasks, id, t, result, other);
    }
    SettledMember(tasks, id, t, result, id);
    if id in after {
      assert after == before + {id};
    } else {
      assert after == before;
    }
  }

  // ---- what the database keeps ----

  ghost predicate DbOk(db: Db) {
    && (forall id :: id in db.tasks ==> RowOk(db.tasks[id]) && db.tasks[id].node in db.nodes)
    && (forall id :: id in db.tasks && db.tasks[id].status.CancelRequested? ==> LatestCancel(db.audit, id).Some?)
    && Accounted(db)
  }

  ghost predicate AllAdvance(tasks: map<TaskId, Task>, tasks': map<TaskId, Task>) {
    forall id :: id in tasks ==> id in tasks' && Advances(tasks[id], tasks'[id])
  }

  ghost predicate Good(db: Db, db': Db) {
    DbOk(db') && AllAdvance(db.tasks, db'.tasks)
  }

  lemma AllAdvanceTransitive(a: map<TaskId, Task>, b: map<TaskId, Task>, c: map<TaskId, Task>)
    requires AllAdvance(a, b) && AllAdvance(b, c)
    ensures AllAdvance(a, c)
  {
    forall id | id in a ensures id in c && Advances(a[id], c[id]) {
      AdvancesTransitive(a[id], b[id], c[id]);
    }
  }

  lemma GoodTransitive(a: Db, b: Db, c: Db)
    requires Good(a, b) && Good(b, c)
    ensures Good(a, c)
  {
    AllAdvanceTransitive(a.tasks, b.tasks, c.tasks);
  }

  lemma LatestCancelOfAppended(audit: seq<AuditEvent>, e: AuditEvent, id: TaskId)
    ensures LatestCancel(audit, id).Some? ==> LatestCancel(audit + [e], id).Some?
    ensures e.action.CancelTaskAction? && e.task == id ==> LatestCancel(audit + [e], id).Some?
    ensures !(e.action.CancelTaskAction? && e.task == id) ==> LatestCancel(audit + [e], id) == LatestCancel(audit, id)
  {
    assert (audit + [e])[..|audit|] == audit;
  }

  /** One row written, at most one audit event added, attempts arbitrary: the shape of every transaction. */
  ghost predicate Wrote(db: Db, db': Db, id: TaskId, t: Task) {
    && db'.tasks == db.tasks[id := t]
    && db'.completed == RecordCompletion(db.completed, t.status)
    && db'.nodes.Keys == db.nodes.Keys
    && (db'.audit == db.audit || exists e :: db'.audit == db.audit + [e])
  }

  lemma WriteIsGood(db: Db, db': Db, id: TaskId, t: Task)
    requires DbOk(db) && Wrote(db, db', id, t)
    requires RowOk(t) && t.node in db.nodes
    requires id in db.tasks ==> !Terminal(db.tasks[id].status) && Advances(db.tasks[id], t)
    requires t.status.CancelRequested? ==> LatestCancel(db'.audit, id).Some?
    ensures Good(db, db')
  {
    AccountedWrite(db, id, t);
    forall other | other in db'.tasks && db'.tasks[other].status.CancelRequested?
      ensures LatestCancel(db'.audit, other).Some?
    {
      if other != id && db'.audit != db.audit {
        var e :| db'.audit == db.audit + [e];
        LatestCancelOfAppended(db.audit, e, other);
      }
    }
  }

  lemma TransitionIsGood(db: Db, id: TaskId, e: Event, now: Time, startedAt: Option<Time>, finishedAt: Option<Time>)
    requires DbOk(db)
    requires (e.BackgroundTimeout? || e.BackgroundLost?) && id in db.tasks ==> Active(db.tasks[id].status)
    requires !e.Cancel?
    ensures Good(db, TransitionTask(db, id, e, now, startedAt, finishedAt).0)
  {
    var (db', r) := TransitionTask(db, id, e, now, startedAt, finishedAt);
    if r.Success? {
      TransitionAdvances(db.tasks[id], e, now, startedAt, finishedAt);
      assert !r.value.status.CancelRequested?;
      WriteIsGood(db, db', id, r.value);
    }
  }

  lemma AdminStepIsGood(db: Db, id: TaskId, e: Event, action: Action, now: Time, finishedAt: Option<Time>)
    requires DbOk(db)
    requires !e.BackgroundTimeout? && !e.BackgroundLost?
    requires e.Cancel? ==> action.CancelTaskAction?
    ensures Good(db, AdminStep(db, id, e, action, now, finishedAt).0)
  {
    var (db', r) := AdminStep(db, id, e, action, now, finishedAt);
    if r.Success? {
      TransitionAdvances(db.tasks[id], e, now, None, finishedAt);
      LatestCancelOfAppended(db.audit, AuditEvent(action, id, now), id);
      WriteIsGood(db, db', id, r.value);
    }
  }

  lemma TaskEventIsGood(db: Db, node: NodeId, id: TaskId, target: Status, now: Time, p: Process)
    requires DbOk(db)
    ensures Good(db, TaskEvent(db, node, id, target, now, p).0)
  {
    if TaskOfNode(db, node, id) {
      var (db', r) := TransitionTask(db, id, Report(target), now, Some(now), Some(now));
      TransitionIsGood(db, id, Report(target), now, Some(now), Some(now));
      if r.Success? {
        var t := r.value;
        AttemptsAreFree(db, db', UpsertAttempt(db.attempts, id, target, t.startedAt, t.finishedAt, Progress(p)));
      }
    }
  }

  /** No invariant speaks of the attempts. */
  lemma AttemptsAreFree(db: Db, db': Db, attempts: map<TaskId, Attempt>)
    requires Good(db, db')
    ensures Good(db, db'.(attempts := attempts))
  {
  }

  lemma TaskResultIsGood(db: Db, node: NodeId, id: TaskId, finalStatus: Status, startedAt: Option<Time>,
                         finishedAt: Option<Time>, d: Detail, now: Time)
    requires DbOk(db) && FinalStatus(finalStatus)
    ensures Good(db, TaskResult(db, node, id, finalStatus, startedAt, finishedAt, d, now).0)
  {
    var (db', r) := TaskResult(db, node, id, finalStatus, startedAt, finishedAt, d, now);
    if r.Success? && !r.value.duplicate {
      WriteIsGood(db, db', id, db'.tasks[id]);
    }
  }

  lemma NewRowOk(rowId: nat, n: NewTask, now: Time, reviewedAt: Time)
    requires n.review.Some? ==> VerdictOfReviewer(n.review.value)
    ensures RowOk(NewRow(rowId, n, now, reviewedAt))
    ensures !Terminal(NewRow(rowId, n, now, reviewedAt).status)
    ensures !NewRow(rowId, n, now, reviewedAt).status.CancelRequested?
  {
  }

  lemma CreateIsGood(db: Db, id: TaskId, n: NewTask, now: Time, reviewedAt: Time)
    requires DbOk(db)
    requires n.review.Some? ==> VerdictOfReviewer(n.review.value)
    ensures Good(db, CreateTask(db, id, n, now, reviewedAt).0)
  {
    var (db', r) := CreateTask(db, id, n, now, reviewedAt);
    if r.Success? {
      NewRowOk(|db.tasks|, n, now, reviewedAt);
      WriteIsGood(db, db', id, r.value);
    }
  }

  /** Claiming a pending row, with whatever else the node's row records. */
  lemma ClaimIsGood(db: Db, nodes: map<NodeId, Node>, id: TaskId, claimedAt: Option<Time>)
    requires DbOk(db) && nodes.Keys == db.nodes.Keys
    requires id in db.tasks && db.tasks[id].status.Pending? && claimedAt.Some?
    ensures Good(db, db.(nodes := nodes,
                         tasks := db.tasks[id := db.tasks[id].(status := Claimed, claimedAt := claimedAt)]))
  {
    var t := db.tasks[id].(status := Claimed, claimedAt := claimedAt);
    WriteIsGood(db, db.(nodes := nodes, tasks := db.tasks[id := t]), id, t);
  }

  lemma SameTasksIsGood(db: Db, nodes: map<NodeId, Node>)
    requires DbOk(db) && nodes.Keys == db.nodes.Keys
    ensures Good(db, db.(nodes := nodes))
  {
  }

  lemma HeartbeatIsGood(db: Db, node: NodeId, reported: Option<TaskId>, intervalSec: nat, now: Time,
                        pick: Option<TaskId>)
    requires DbOk(db)
    requires node in db.nodes && (OwnTask(db, node, reported) || Selected(db.tasks, node, pick))
    ensures Good(db, Heartbeat(db, node, reported, intervalSec, now, pick).0)
  {
    var nodes := db.nodes[node := db.nodes[node].(heartbeatIntervalSec := intervalSec, lastSeenAt := Some(now))];
    assert nodes.Keys == db.nodes.Keys;
    SameTasksIsGood(db, nodes);
    if OwnTask(db, node, reported) {
      if db.tasks[reported.value].status.Pending? {
        ClaimIsGood(db, nodes, reported.value, Or(db.tasks[reported.value].claimedAt, now));
      }
    } else if pick.Some? {
      ClaimIsGood(db, nodes, pick.value, Some(now));
    }
  }

  lemma SweepTaskIsGood(db: Db, id: TaskId, clock: Time)
    requires DbOk(db) && id in db.tasks && db.tasks[id].node in db.nodes
    ensures Good(db, SweepTask(db, id, clock))
  {
    var t := db.tasks[id];
    var e := Verdict(t, db.nodes[t.node], LatestCancel(db.audit, id), clock);
    if e.Some? {
      var now := Seconds(clock);
      TransitionAdvances(t, e.value, now, None, Some(now));
      WriteIsGood(db, SweepTask(db, id, clock), id, Transition(t, e.value, now, None, Some(now)).value);
    }
  }

  lemma {:induction false} SweepAllIsGood(db: Db, ids: seq<TaskId>, clock: Time)
    requires DbOk(db) && AllKnown(db, ids)
    ensures Good(db, SweepAll(db, ids, clock))
  {
    if ids != [] {
      var front, last := ids[..|ids| - 1], ids[|ids| - 1];
      SweepAllIsGood(db, front, clock);
      var mid := SweepAll(db, front, clock);
      SweepTaskIsGood(mid, last, clock);
      GoodTransitive(db, mid, SweepTask(mid, last, clock));
    }
  }

  lemma {:induction false} ExpireAllIsGood(db: Db, ids: seq<TaskId>, clock: Time)
    requires DbOk(db)
    ensures Good(db, ExpireAll(db, ids, clock))
  {
    if ids != [] {
      var front := ids[..|ids| - 1];
      ExpireAllIsGood(db, front, clock);
      var mid := ExpireAll(db, front, clock);
      TransitionIsGood(mid, ids[|ids| - 1], ReviewExpire, Seconds(clock), None, None);
      GoodTransitive(db, mid, ExpireAll(db, ids, clock));
    }
  }

  // ---- runs ----

  datatype Step =
    | PutNode(node: NodeId, enabled: bool, modalRunner: bool, allowShell: bool, allowModal: bool, intervalSec: nat)
    | CreateStep(id: TaskId, newTask: NewTask, now: Time, reviewedAt: Time)
    | CancelStep(id: TaskId, now: Time)
    | EscalateStep(id: TaskId, now: Time)
    | ApproveStep(id: TaskId, now: Time)
    | RejectStep(id: TaskId, now: Time)
    | HeartbeatStep(node: NodeId, reported: Option<TaskId>, intervalSec: nat, now: Time, pick: Option<TaskId>)
    | EventStep(node: NodeId, id: TaskId, target: Status, now: Time, process: Process)
    | ResultStep(node: NodeId, id: TaskId, finalStatus: Status, startedAt: Option<Time>, finishedAt: Option<Time>,
                 d: Detail, now: Time)
    | MarkLostStep(rows: seq<TaskId>, now: Time)
    | ExpireStep(rows: seq<TaskId>, now: Time)

  /** What the request schemas, node authentication and the queries guarantee about a step. */
  ghost predicate Enabled(db: Db, step: Step) {
    match step
    case CreateStep(_, n, _, _) => n.review.Some? ==> VerdictOfReviewer(n.review.value)
    case HeartbeatStep(node, reported, _, _, pick) =>
      node in db.nodes && db.nodes[node].enabled && (OwnTask(db, node, reported) || Selected(db.tasks, node, pick))
    case ResultStep(_, _, finalStatus, _, _, _, _) => FinalStatus(finalStatus)
    case MarkLostStep(rows, _) => ActiveRows(db, rows)
    case ExpireStep(rows, clock) => OverdueRows(db, rows, clock)
    case _ => true
  }

  ghost function Next(db: Db, step: Step): Db {
    if !Enabled(db, step) then db
    else
      match step
      case PutNode(node, enabled, modalRunner, allowShell, allowModal, intervalSec) =>
        var seen := if node in db.nodes then db.nodes[node].lastSeenAt else None;
        db.(nodes := db.nodes[node := Node(enabled, modalRunner, allowShell, allowModal, intervalSec, seen)])
      case CreateStep(id, n, now, reviewedAt) => CreateTask(db, id, n, now, reviewedAt).0
      case CancelStep(id, now) => CancelTask(db, id, now).0
      case EscalateStep(id, now) => EscalateReview(db, id, now).0
      case ApproveStep(id, clock) => ApproveReview(db, id, clock).0
      case RejectStep(id, now) => RejectReview(db, id, now).0
      case HeartbeatStep(node, reported, intervalSec, now, pick) =>
        Heartbeat(db, node, reported, intervalSec, now, pick).0
      case EventStep(node, id, target, now, process) => TaskEvent(db, node, id, target, now, process).0
      case ResultStep(node, id, finalStatus, startedAt, finishedAt, d, now) =>
        TaskResult(db, node, id, finalStatus, startedAt, finishedAt, d, now).0
      case MarkLostStep(rows, clock) => SweepAll(db, rows, clock)
      case ExpireStep(rows, clock) => ExpireAll(db, rows, clock)
  }

  ghost function Run(steps: seq<Step>): Db {
    if steps == [] then EMPTY_DB else Next(Run(steps[..|steps| - 1]), steps[|steps| - 1])
  }

  lemma RunStep(steps: seq<Step>, step: Step)
    ensures Run(steps + [step]) == Next(Run(steps), step)
  {
    assert (steps + [step])[..|steps|] == steps;
  }

  lemma ApproveIsGood(db: Db, id: TaskId, clock: Time)
    requires DbOk(db)
    ensures Good(db, ApproveReview(db, id, clock).0)
  {
    AdminStepIsGood(db, id, ReviewApprove, ApproveAction, Seconds(clock), None);
  }

  lemma AdminRequestIsGood(db: Db, step: Step)
    requires DbOk(db) && (step.CancelStep? || step.EscalateStep? || step.ApproveStep? || step.RejectStep?)
    ensures Good(db, Next(db, step))
  {
    match step {
      case CancelStep(id, now) => AdminStepIsGood(db, id, Cancel, CancelTaskAction, now, Some(now));
      case EscalateStep(id, now) => AdminStepIsGood(db, id, ReviewEscalate, EscalateAction, now, None);
      case ApproveStep(id, clock) => ApproveIsGood(db, id, clock);
      case RejectStep(id, now) => AdminStepIsGood(db, id, ReviewReject, RejectAction, now, None);
    }
  }

  /** Every request and job, in any state that satisfies the invariants, keeps them and moves every row
      forward or leaves it. */
  lemma StepIsGood(db: Db, step: Step)
    requires DbOk(db)
    ensures Good(db, Next(db, step))
  {
    if Enabled(db, step) {
      match step {
        case PutNode(_, _, _, _, _, _) =>
        case CreateStep(id, n, now, reviewedAt) => CreateIsGood(db, id, n, now, reviewedAt);
        case CancelStep(_, _) => AdminRequestIsGood(db, step);
        case EscalateStep(_, _) => AdminRequestIsGood(db, step);
        case ApproveStep(_, _) => AdminRequestIsGood(db, step);
        case RejectStep(_, _) => AdminRequestIsGood(db, step);
        case HeartbeatStep(node, reported, intervalSec, now, pick) =>
          HeartbeatIsGood(db, node, reported, intervalSec, now, pick);
        case EventStep(node, id, target, now, process) => TaskEventIsGood(db, node, id, target, now, process);
        case ResultStep(node, id, finalStatus, startedAt, finishedAt, d, now) =>
          TaskResultIsGood(db, node, id, finalStatus, startedAt, finishedAt, d, now);
        case MarkLostStep(rows, clock) => SweepAllIsGood(db, rows, clock);
        case ExpireStep(rows, clock) => ExpireAllIsGood(db, rows, clock);
      }
    }
  }

  lemma {:induction false} RunOk(steps: seq<Step>)
    ensures DbOk(Run(steps))
  {
    if steps == [] {
      forall result ensures Settled(EMPTY_DB.tasks, result) == {} {
      }
    } else {
      RunOk(steps[..|steps| - 1]);
      StepIsGood(Run(steps[..|steps| - 1]), steps[|steps| - 1]);
    }
  }

  lemma StepAdvances(steps: seq<Step>, step: Step)
    ensures AllAdvance(Run(steps).tasks, Run(steps + [step]).tasks)
  {
    RunOk(steps);
    StepIsGood(Run(steps), step);
    RunStep(steps, step);
  }

  lemma {:induction false} RunAdvances(steps: seq<Step>, more: seq<Step>, id: TaskId)
    requires id in Run(steps).tasks
    ensures id in Run(steps + more).tasks && Advances(Run(steps).tasks[id], Run(steps + more).tasks[id])
  {
    if more == [] {
      assert steps + more == steps;
    } else {
      var front, last := more[..|more| - 1], more[|more| - 1];
      RunAdvances(steps, front, id);
      AdvancesFurther(Run(steps).tasks[id], steps + front, last, id);
      assert steps + more == steps + front + [last];
    }
  }

  lemma AdvancesFurther(row: Task, steps: seq<Step>, last: Step, id: TaskId)
    requires id in Run(steps).tasks && Advances(row, Run(steps).tasks[id])
    ensures id in Run(steps + [last]).tasks && Advances(row, Run(steps + [last]).tasks[id])
  {
    StepAdvances(steps, last);
    AdvancesTransitive(row, Run(steps).tasks[id], Run(steps + [last]).tasks[id]);
  }

  // ---- the main results ----

  /** First terminal verdict wins: whoever made a task terminal, its row is the same ever after, in every
      column, the result lock included. */
  lemma TerminalRowIsFinal(steps: seq<Step>, more: seq<Step>, id: TaskId)
    requires id in Run(steps).tasks && Terminal(Run(steps).tasks[id].status)
    ensures id in Run(steps + more).tasks && Run(steps + more).tasks[id] == Run(steps).tasks[id]
  {
    RunAdvances(steps, more, id);
  }

  /** A result lock, once set, is never set again or cleared. */
  lemma LockIsSetOnce(steps: seq<Step>, more: seq<Step>, id: TaskId)
    requires id in Run(steps).tasks && Run(steps).tasks[id].resultLockedAt.Some?
    ensures id in Run(steps + more).tasks
    ensures Run(steps + more).tasks[id].resultLockedAt == Run(steps).tasks[id].resultLockedAt
  {
    RunOk(steps);
    TerminalRowIsFinal(steps, more, id);
  }

  /** A result for a settled task changes nothing at all, the attempt included, and is answered with the
      stored status; a result for an active task is never taken for a late one. */
  lemma ResultIsLateIffTerminal(steps: seq<Step>, node: NodeId, id: TaskId, finalStatus: Status,
                                startedAt: Option<Time>, finishedAt: Option<Time>, d: Detail, now: Time)
    requires TaskOfNode(Run(steps), node, id)
    ensures var db := Run(steps);
            var (db', r) := TaskResult(db, node, id, finalStatus, startedAt, finishedAt, d, now);
            && (Terminal(db.tasks[id].status) <==> r.Success? && r.value.duplicate)
            && (Terminal(db.tasks[id].status) ==> db' == db && r.value.status == db.tasks[id].status)
            && (Active(db.tasks[id].status) ==>
                  r.Success? && db'.tasks[id].status == finalStatus && db'.tasks[id].resultLockedAt == Some(now))
  {
    RunOk(steps);
  }

  /** Review gate: a shell, script or modal task that is not under review, rejected or expired was approved. */
  lemma ReviewGate(steps: seq<Step>, id: TaskId)
    requires id in Run(steps).tasks
    ensures var t := Run(steps).tasks[id];
            t.taskType in {Shell, PythonScript, ModalCommand} && t.status !in {Reviewing, Rejected, ReviewExpired} ==>
              t.reviewDecision == Some(Approve) || t.reviewDecision == Some(HumanApproved)
  {
    RunOk(steps);
  }

  /** The statuses a result label stands for. */
  function StatusesOf(result: ResultLabel): set<Status> {
    match result
    case SuccessLabel => {Succeeded}
    case FailLabel => {Failed, Rejected}
    case TimeoutLabel => {TimedOut, ReviewExpired}
    case LostLabel => {Lost}
    case CancelledLabel => {Cancelled}
  }

  lemma SettledIs(tasks: map<TaskId, Task>, result: ResultLabel)
    ensures Settled(tasks, result) == set id | id in tasks && tasks[id].status in StatusesOf(result)
  {
  }

  /** Completion accounting: each counter equals the number of tasks in the statuses of its label. */
  lemma CompletionAccounting(steps: seq<Step>, result: ResultLabel)
    ensures var tasks := Run(steps).tasks;
            CompletedCount(Run(steps).completed, result)
            == |set id | id in tasks && tasks[id].status in StatusesOf(result)|
  {
    RunOk(steps);
    SettledIs(Run(steps).tasks, result);
  }

  /** How often the status or review stage of `id` changed along a run. */
  ghost function Changes(steps: seq<Step>, id: TaskId): nat {
    if steps == [] then 0
    else
      var before, after := Run(steps[..|steps| - 1]).tasks, Run(steps).tasks;
      Changes(steps[..|steps| - 1], id)
      + if id in before && id in after
           && (before[id].status != after[id].status || before[id].reviewStage != after[id].reviewStage) then 1 else 0
  }

  /** Status only moves forward: each change raises the rank, so no status is entered twice and a task
      changes at most six times in any run. */
  lemma {:induction false} AtMostSixChanges(steps: seq<Step>, id: TaskId)
    ensures id !in Run(steps).tasks ==> Changes(steps, id) == 0
    ensures id in Run(steps).tasks ==> Changes(steps, id) <= Rank(Run(steps).tasks[id]) <= 6
  {
    if steps != [] {
      var front := steps[..|steps| - 1];
      AtMostSixChanges(front, id);
      RunOk(front);
      StepIsGood(Run(front), steps[|steps| - 1]);
    }
  }
}
