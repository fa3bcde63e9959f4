/** Task rows, the transitions of one row, and what each request or job does to the whole database.
    Every function here is one database transaction. Times count microseconds. */
module TaskModel {
  import opened Common

  type TaskId = string

  const CANCEL_ACK_TIMEOUT: int := 300 * SECOND
  const HUMAN_REVIEW_COOLDOWN: int := 10 * SECOND
  const REVIEW_TIMEOUT: int := 30 * 60 * SECOND

  datatype Status =
    | Reviewing | Pending | Claimed | Running | CancelRequested
    | Succeeded | Failed | TimedOut | Cancelled | Lost | Rejected | ReviewExpired

  datatype TaskType =
    | HealthCheck
    | FileMkdir | FileWrite | FilePatchText | FileMove | FileDelete | FileExtract | FilePreview
    | DownloadFile | UploadAndUnpack | GitPull | PipInstall
    | Shell | PythonScript | ModalCommand

  datatype Decision =
    | Approve | Reject | Uncertain | Skipped | PendingHuman | HumanApproved | HumanRejected | Expired

  /** The result label of the completion counter. */
  datatype ResultLabel = SuccessLabel | FailLabel | TimeoutLabel | LostLabel | CancelledLabel

  datatype Task = Task(
    rowId: nat,
    node: NodeId,
    taskType: TaskType,
    timeoutSec: nat,
    status: Status,
    createdAt: Time,
    claimedAt: Option<Time>,
    startedAt: Option<Time>,
    finishedAt: Option<Time>,
    resultLockedAt: Option<Time>,
    reviewStage: Option<nat>,
    reviewDecision: Option<Decision>,
    reviewStartedAt: Option<Time>,
    reviewFinishedAt: Option<Time>)

  datatype Node = Node(
    enabled: bool,
    modalRunner: bool,
    allowShell: bool,
    allowModal: bool,
    heartbeatIntervalSec: nat,
    lastSeenAt: Option<Time>)

  datatype Attempt = Attempt(
    status: Status, startedAt: Option<Time>, finishedAt: Option<Time>, process: Process, summary: string)

  /** What a node reports of the process it ran; `group` is its process group or job. */
  datatype Process = Process(bootId: Option<string>, pid: Option<int>, group: Option<string>, exitCode: Option<int>)

  /** The part of a report that only the attempt records. */
  datatype Detail = Detail(process: Process, summary: Option<string>)

  datatype Action =
    | CreateTaskAction | CancelTaskAction | EscalateAction | ApproveAction | RejectAction
    | TaskTimeoutAction | TaskLostAction

  datatype AuditEvent = AuditEvent(action: Action, task: TaskId, at: Time)

  datatype Db = Db(
    nodes: map<NodeId, Node>,
    tasks: map<TaskId, Task>,
    attempts: map<TaskId, Attempt>,
    audit: seq<AuditEvent>,
    completed: map<ResultLabel, nat>)

  const EMPTY_DB := Db(map[], map[], map[], [], map[])

  datatype TaskError =
    | TaskNotFound | InvalidTransition | AlreadyTerminal | CannotCancelNow
    | NotUnderReview | AlreadyHumanStage | NotAwaitingApproval | CooldownNotReached
    | NotAcceptingResult | NodeNotFound | NodeDisabled | InvalidTarget | WorkdirNotAllowed
    | TypeForbidden | DuplicateId

  predicate Terminal(s: Status) {
    s.Succeeded? || s.Failed? || s.TimedOut? || s.Cancelled? || s.Lost? || s.Rejected? || s.ReviewExpired?
  }

  predicate Active(s: Status) {
    s.Claimed? || s.Running? || s.CancelRequested?
  }

  predicate LevelTwo(t: TaskType) {
    t.Shell? || t.PythonScript? || t.ModalCommand?
  }

  function TerminalResult(s: Status): ResultLabel {
    match s
    case Succeeded => SuccessLabel
    case TimedOut => TimeoutLabel
    case ReviewExpired => TimeoutLabel
    case Lost => LostLabel
    case Cancelled => CancelledLabel
    case _ => FailLabel
  }

  function CompletedCount(completed: map<ResultLabel, nat>, result: ResultLabel): nat {
    if result in completed then completed[result] else 0
  }

  function RecordCompletion(completed: map<ResultLabel, nat>, s: Status): map<ResultLabel, nat> {
    if Terminal(s) then completed[TerminalResult(s) := CompletedCount(completed, TerminalResult(s)) + 1]
    else completed
  }

  function NormalizeTimeout(t: TaskType, timeoutSec: Option<nat>): nat {
    match timeoutSec
    case Some(n) => n
    case None =>
      match t
      case HealthCheck => 300
      case GitPull => 600
      case PipInstall => 1200
      case DownloadFile => 900
      case UploadAndUnpack => 1800
      case ModalCommand => 7200
      case _ => 3600
  }

  // ---- transitions of one row ----

  datatype Event =
    | Report(target: Status)
    | Cancel
    | ReviewEscalate
    | ReviewApprove
    | ReviewReject
    | ReviewExpire
    | BackgroundTimeout
    | BackgroundLost

  /** The statuses from which a node may report `target`. */
  function AllowedFrom(target: Status): set<Status> {
    match target
    case Claimed => {Claimed}
    case Running => {Claimed, Running}
    case Cancelled => {CancelRequested, Running, Claimed}
    case Failed => {Running, CancelRequested, Claimed}
    case TimedOut => {Running, CancelRequested, Claimed}
    case Succeeded => {Running, CancelRequested, Claimed}
    case Lost => {Claimed, Running, CancelRequested}
    case _ => {}
  }

  function Or(t: Option<Time>, default: Time): Option<Time> {
    if t.Some? then t else Some(default)
  }

  function Transition(t: Task, e: Event, now: Time, startedAt: Option<Time>, finishedAt: Option<Time>)
    : Result<Task, TaskError>
  {
    match e
    case Report(target) =>
      if t.status !in AllowedFrom(target) then Failure(InvalidTransition)
      else
        Success(t.(status := target,
                   startedAt := if target.Running? && t.startedAt.None? then Or(startedAt, now) else t.startedAt,
                   finishedAt := if Terminal(target) && t.finishedAt.None? then Or(finishedAt, now) else t.finishedAt))
    case Cancel =>
      if Terminal(t.status) then Failure(AlreadyTerminal)
      else if t.status.Pending? then Success(t.(status := Cancelled, finishedAt := Or(finishedAt, now)))
      else if Active(t.status) then
        Success(t.(status := CancelRequested, finishedAt := if finishedAt.Some? then finishedAt else t.finishedAt))
      else Failure(CannotCancelNow)
    case ReviewEscalate =>
      if !t.status.Reviewing? then Failure(NotUnderReview)
      else if t.reviewStage == Some(3) then Failure(AlreadyHumanStage)
      else
        Success(t.(reviewStage := Some(3), reviewDecision := Some(PendingHuman),
                   reviewStartedAt := Some(now), reviewFinishedAt := None))
    case ReviewApprove =>
      if !t.status.Reviewing? || t.reviewStage != Some(3) then Failure(NotAwaitingApproval)
      else Success(t.(status := Pending, reviewDecision := Some(HumanApproved), reviewFinishedAt := Some(now)))
    case ReviewReject =>
      if !t.status.Reviewing? then Failure(NotUnderReview)
      else Success(t.(status := Rejected, reviewDecision := Some(HumanRejected), reviewFinishedAt := Some(now)))
    case ReviewExpire =>
      if !t.status.Reviewing? then Failure(NotUnderReview)
      else Success(t.(status := ReviewExpired, reviewDecision := Some(Expired), reviewFinishedAt := Some(now)))
    case BackgroundTimeout => Success(t.(status := TimedOut, finishedAt := Or(finishedAt, now)))
    case BackgroundLost => Success(t.(status := Lost, finishedAt := Or(finishedAt, now)))
  }

  // ---- transactions ----

  /** A transition of the row `id`; a task that becomes terminal is counted. */
  function TransitionTask(db: Db, id: TaskId, e: Event, now: Time, startedAt: Option<Time>, finishedAt: Option<Time>)
    : (Db, Result<Task, TaskError>)
  {
    if id !in db.tasks then (db, Failure(TaskNotFound))
    else
      match Transition(db.tasks[id], e, now, startedAt, finishedAt)
      case Failure(error) => (db, Failure(error))
      case Success(t) =>
        (db.(tasks := db.tasks[id := t], completed := RecordCompletion(db.completed, t.status)), Success(t))
  }

  function Given<T>(value: Option<T>, default: Option<T>): Option<T> {
    if value.Some? then value else default
  }

  function UpsertAttempt(attempts: map<TaskId, Attempt>, id: TaskId, status: Status, startedAt: Option<Time>,
                         finishedAt: Option<Time>, d: Detail): map<TaskId, Attempt>
  {
    if id !in attempts then
      attempts[id := Attempt(status, startedAt, finishedAt, d.process,
                             if d.summary.Some? then d.summary.value else "{}")]
    else
      var a := attempts[id];
      attempts[id := Attempt(status, Given(startedAt, a.startedAt), Given(finishedAt, a.finishedAt),
                             Process(Given(d.process.bootId, a.process.bootId), Given(d.process.pid, a.process.pid),
                                     Given(d.process.group, a.process.group),
                                     Given(d.process.exitCode, a.process.exitCode)),
                             if d.summary.Some? then d.summary.value else a.summary)]
  }

  predicate TaskOfNode(db: Db, node: NodeId, id: TaskId) {
    id in db.tasks && db.tasks[id].node == node
  }

  /** A report of progress carries neither exit code nor summary. */
  function Progress(p: Process): Detail {
    Detail(p.(exitCode := None), None)
  }

  function TaskEvent(db: Db, node: NodeId, id: TaskId, target: Status, now: Time, p: Process)
    : (Db, Result<Status, TaskError>)
  {
    if !TaskOfNode(db, node, id) then (db, Failure(TaskNotFound))
    else
      var (db', r) := TransitionTask(db, id, Report(target), now, Some(now), Some(now));
      match r
      case Failure(error) => (db, Failure(error))
      case Success(t) =>
        (db'.(attempts := UpsertAttempt(db.attempts, id, target, t.startedAt, t.finishedAt, Progress(p))),
         Success(target))
  }

  /** The final verdict of a node, with whether it came too late to count. */
  datatype ResultReply = ResultReply(status: Status, duplicate: bool)

  predicate FinalStatus(s: Status) {
    s.Succeeded? || s.Failed? || s.TimedOut? || s.Cancelled? || s.Lost?
  }

  /** Settles a row unless its result is locked or it already left the active statuses. */
  function FinalizeTaskResult(db: Db, id: TaskId, finalStatus: Status, startedAt: Time, finishedAt: Time, now: Time)
    : (Db, Result<ResultReply, TaskError>)
  {
    if id !in db.tasks then (db, Failure(TaskNotFound))
    else
      var t := db.tasks[id];
      if Active(t.status) && t.resultLockedAt.None? then
        (db.(tasks := db.tasks[id := t.(status := finalStatus, startedAt := Some(startedAt),
                                        finishedAt := Some(finishedAt), resultLockedAt := Some(now))],
             completed := RecordCompletion(db.completed, finalStatus)),
         Success(ResultReply(finalStatus, false)))
      else if Terminal(t.status) then (db, Success(ResultReply(t.status, true)))
      else (db, Failure(NotAcceptingResult))
  }

  function TaskResult(db: Db, node: NodeId, id: TaskId, finalStatus: Status, startedAt: Option<Time>,
                      finishedAt: Option<Time>, d: Detail, now: Time): (Db, Result<ResultReply, TaskError>)
  {
    if !TaskOfNode(db, node, id) then (db, Failure(TaskNotFound))
    else
      var finished := Or(finishedAt, now);
      var started := if startedAt.Some? then startedAt else Or(db.tasks[id].startedAt, now);
      var (db', r) := FinalizeTaskResult(db, id, finalStatus, started.value, finished.value, now);
      match r
      case Failure(error) => (db, Failure(error))
      case Success(reply) =>
        if reply.duplicate then (db, r)
        else (db'.(attempts := UpsertAttempt(db.attempts, id, finalStatus, started, finished, d)), r)
  }

  /** What an admin sends to create a task; `workdirAllowed` and `review` stand for the path check and for
      the reviewer's verdict, None when no reviewer is configured. */
  datatype NewTask = NewTask(
    node: NodeId, taskType: TaskType, timeoutSec: Option<nat>, workdirAllowed: bool, review: Option<Decision>)

  predicate VerdictOfReviewer(d: Decision) {
    d.Approve? || d.Reject? || d.Uncertain?
  }

  /** The row of a new task: one that needs review starts under review unless the reviewer approves it. */
  function NewRow(rowId: nat, n: NewTask, now: Time, reviewedAt: Time): Task {
    var plain := Task(rowId, n.node, n.taskType, NormalizeTimeout(n.taskType, n.timeoutSec), Pending, now,
                      None, None, None, None, None, None, None, None);
    if !LevelTwo(n.taskType) then plain
    else
      match n.review
      case None =>
        plain.(status := Reviewing, reviewStage := Some(3), reviewDecision := Some(Skipped),
               reviewStartedAt := Some(now))
      case Some(d) =>
        plain.(status := if d.Approve? then Pending else Reviewing,
               reviewStage := if d.Uncertain? then Some(3) else Some(1),
               reviewDecision := Some(d), reviewStartedAt := Some(now), reviewFinishedAt := Some(reviewedAt))
  }

  function CreateTask(db: Db, id: TaskId, n: NewTask, now: Time, reviewedAt: Time): (Db, Result<Task, TaskError>) {
    if n.node !in db.nodes then (db, Failure(NodeNotFound))
    else
      var node := db.nodes[n.node];
      if !node.enabled then (db, Failure(NodeDisabled))
      else if n.taskType.ModalCommand? && !node.modalRunner then (db, Failure(InvalidTarget))
      else if node.modalRunner && !n.taskType.ModalCommand? && !n.taskType.HealthCheck? then
        (db, Failure(InvalidTarget))
      else if !n.workdirAllowed then (db, Failure(WorkdirNotAllowed))
      else if (n.taskType.Shell? || n.taskType.PythonScript?) && !node.allowShell then (db, Failure(TypeForbidden))
      else if n.taskType.ModalCommand? && !node.allowModal then (db, Failure(TypeForbidden))
      else if id in db.tasks then (db, Failure(DuplicateId))
      else
        var t := NewRow(|db.tasks|, n, now, reviewedAt);
        (db.(tasks := db.tasks[id := t], audit := db.audit + [AuditEvent(CreateTaskAction, id, now)]), Success(t))
  }

  function AdminStep(db: Db, id: TaskId, e: Event, action: Action, now: Time, finishedAt: Option<Time>)
    : (Db, Result<Task, TaskError>)
  {
    var (db', r) := TransitionTask(db, id, e, now, None, finishedAt);
    if r.Failure? then (db, r) else (db'.(audit := db.audit + [AuditEvent(action, id, now)]), r)
  }

  function CancelTask(db: Db, id: TaskId, now: Time): (Db, Result<Task, TaskError>) {
    AdminStep(db, id, Cancel, CancelTaskAction, now, Some(now))
  }

  function EscalateReview(db: Db, id: TaskId, now: Time): (Db, Result<Task, TaskError>) {
    AdminStep(db, id, ReviewEscalate, EscalateAction, now, None)
  }

  /** Human approval waits ten seconds after the review started. */
  function ApproveReview(db: Db, id: TaskId, clock: Time): (Db, Result<Task, TaskError>) {
    if id !in db.tasks then (db, Failure(TaskNotFound))
    else
      var t := db.tasks[id];
      if !t.status.Reviewing? || t.reviewStage != Some(3) then (db, Failure(NotAwaitingApproval))
      else if t.reviewStartedAt.Some? && clock - t.reviewStartedAt.value < HUMAN_REVIEW_COOLDOWN then
        (db, Failure(CooldownNotReached))
      else AdminStep(db, id, ReviewApprove, ApproveAction, Seconds(clock), None)
  }

  function RejectReview(db: Db, id: TaskId, now: Time): (Db, Result<Task, TaskError>) {
    AdminStep(db, id, ReviewReject, RejectAction, now, None)
  }

  // ---- heartbeat ----

  predicate Before(t: Task, u: Task) {
    t.createdAt < u.createdAt || (t.createdAt == u.createdAt && t.rowId < u.rowId)
  }

  predicate HasActiveTask(tasks: map<TaskId, Task>, node: NodeId) {
    exists id :: id in tasks && tasks[id].node == node && Active(tasks[id].status)
  }

  predicate PendingFor(tasks: map<TaskId, Task>, node: NodeId, id: TaskId) {
    id in tasks && tasks[id].node == node && tasks[id].status.Pending?
  }

  /** `pick` is what the claiming query selects: the oldest pending task of a node without active tasks. */
  predicate Selected(tasks: map<TaskId, Task>, node: NodeId, pick: Option<TaskId>) {
    match pick
    case None => HasActiveTask(tasks, node) || forall id :: id in tasks ==> !PendingFor(tasks, node, id)
    case Some(id) =>
      && !HasActiveTask(tasks, node)
      && PendingFor(tasks, node, id)
      && forall other :: other in tasks && PendingFor(tasks, node, other) ==> !Before(tasks[other], tasks[id])
  }

  function Claim(tasks: map<TaskId, Task>, pick: Option<TaskId>, now: Time): map<TaskId, Task>
    requires pick.Some? ==> pick.value in tasks
  {
    if pick.None? then tasks
    else tasks[pick.value := tasks[pick.value].(status := Claimed, claimedAt := Some(now))]
  }

  /** A reported task of the node that is still pending becomes claimed. */
  function SyncReported(tasks: map<TaskId, Task>, id: TaskId, now: Time): map<TaskId, Task>
    requires id in tasks
  {
    if tasks[id].status.Pending? then
      tasks[id := tasks[id].(status := Claimed, claimedAt := Or(tasks[id].claimedAt, now))]
    else tasks
  }

  datatype HeartbeatReply = HeartbeatReply(task: Option<TaskId>, cancels: set<TaskId>)

  predicate OwnTask(db: Db, node: NodeId, reported: Option<TaskId>) {
    reported.Some? && TaskOfNode(db, node, reported.value)
  }

  /** A node that reports a task of its own gets none; any other gets what the claiming query selects. */
  function Heartbeat(db: Db, node: NodeId, reported: Option<TaskId>, intervalSec: nat, now: Time, pick: Option<TaskId>)
    : (Db, HeartbeatReply)
    requires node in db.nodes && (OwnTask(db, node, reported) || Selected(db.tasks, node, pick))
  {
    var nodes := db.nodes[node := db.nodes[node].(heartbeatIntervalSec := intervalSec, lastSeenAt := Some(now))];
    var ownTask := OwnTask(db, node, reported);
    var tasks := if ownTask then SyncReported(db.tasks, reported.value, now) else Claim(db.tasks, pick, now);
    (db.(nodes := nodes, tasks := tasks),
     HeartbeatReply(if ownTask then None else pick,
                    set id | id in tasks && tasks[id].node == node && tasks[id].status.CancelRequested?))
  }

  // ---- background sweeps ----

  /** When the latest cancellation of the task was asked for, if the audit trail has one. */
  function LatestCancel(audit: seq<AuditEvent>, id: TaskId): Option<Time> {
    if audit == [] then None
    else
      var rest := LatestCancel(audit[..|audit| - 1], id);
      var last := audit[|audit| - 1];
      if last.action.CancelTaskAction? && last.task == id && (rest.None? || rest.value <= last.at) then Some(last.at)
      else rest
  }

  function IntervalSec(n: Node): nat {
    if n.heartbeatIntervalSec == 0 then 5 else n.heartbeatIntervalSec
  }

  predicate PastDeadline(t: Task, clock: Time) {
    t.status.Running? && t.startedAt.Some? && t.startedAt.value + t.timeoutSec * SECOND < clock
  }

  predicate CancelUnanswered(t: Task, cancelAt: Option<Time>, clock: Time) {
    t.status.CancelRequested? && cancelAt.Some? && CANCEL_ACK_TIMEOUT < clock - cancelAt.value
  }

  /** The node has been silent for over three intervals; one that was never seen counts from the claim. */
  predicate NodeSilent(t: Task, n: Node, clock: Time) {
    && (t.status.Claimed? || t.status.Running?)
    && match n.lastSeenAt
       case Some(seen) => 3 * IntervalSec(n) * SECOND < clock - seen
       case None => t.claimedAt.Some? && 3 * IntervalSec(n) * SECOND < clock - t.claimedAt.value
  }

  /** What the sweep does to an active task; timeout goes before lost. */
  function Verdict(t: Task, n: Node, cancelAt: Option<Time>, clock: Time): Option<Event> {
    if PastDeadline(t, clock) then Some(BackgroundTimeout)
    else if CancelUnanswered(t, cancelAt, clock) then Some(BackgroundLost)
    else if NodeSilent(t, n, clock) then Some(BackgroundLost)
    else None
  }

  function VerdictAction(e: Event): Action {
    if e.BackgroundTimeout? then TaskTimeoutAction else TaskLostAction
  }

  function SweepTask(db: Db, id: TaskId, clock: Time): Db
    requires id in db.tasks && db.tasks[id].node in db.nodes
  {
    var t := db.tasks[id];
    match Verdict(t, db.nodes[t.node], LatestCancel(db.audit, id), clock)
    case None => db
    case Some(e) =>
      var now := Seconds(clock);
      TransitionTask(db, id, e, now, None, Some(now)).0.(audit := db.audit + [AuditEvent(VerdictAction(e), id, now)])
  }

  predicate AllKnown(db: Db, ids: seq<TaskId>) {
    forall id :: id in ids ==> id in db.tasks && db.tasks[id].node in db.nodes
  }

  /** The sweep over the rows of its query, in the order the query returned them. */
  function SweepAll(db: Db, ids: seq<TaskId>, clock: Time): (r: Db)
    requires AllKnown(db, ids)
    ensures r.nodes == db.nodes && r.tasks.Keys == db.tasks.Keys
    ensures forall id :: id in db.tasks ==> r.tasks[id].node == db.tasks[id].node
  {
    if ids == [] then db
    else
      assert AllKnown(db, ids[..|ids| - 1]);
      SweepTask(SweepAll(db, ids[..|ids| - 1], clock), ids[|ids| - 1], clock)
  }

  predicate NoRepeats(ids: seq<TaskId>) {
    forall i, j :: 0 <= i < j < |ids| ==> ids[i] != ids[j]
  }

  /** The rows of the sweep's query: every active task of a known node, once, in any order. */
  ghost predicate ActiveRows(db: Db, ids: seq<TaskId>) {
    && NoRepeats(ids)
    && forall id :: id in ids <==> id in db.tasks && Active(db.tasks[id].status) && db.tasks[id].node in db.nodes
  }

  predicate ReviewOverdue(t: Task, clock: Time) {
    t.status.Reviewing? && t.reviewStartedAt.Some? && t.reviewStartedAt.value < Seconds(clock - REVIEW_TIMEOUT)
  }

  ghost predicate OverdueRows(db: Db, ids: seq<TaskId>, clock: Time) {
    && NoRepeats(ids)
    && forall id :: id in ids <==> id in db.tasks && ReviewOverdue(db.tasks[id], clock)
  }

  function ExpireAll(db: Db, ids: seq<TaskId>, clock: Time): Db {
    if ids == [] then db
    else
      var before := ExpireAll(db, ids[..|ids| - 1], clock);
      TransitionTask(before, ids[|ids| - 1], ReviewExpire, Seconds(clock), None, None).0
  }
}
