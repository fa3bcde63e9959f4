/** The dispatch protocol: nodes that heartbeat over an unreliable network, report the task in their slot
    and start at most one task they were handed, together with everything else that acts on the tasks. */
module Dispatch {
  import opened Common
  import opened TaskModel
  import opened TaskLifecycle

  /** `requests` holds every heartbeat ever sent and `handed` every task put in a heartbeat response; a
      request or response may be lost, late or repeated. `slots` is the current task file of each node. */
  datatype World = World(
    db: Db,
    slots: map<NodeId, TaskId>,
    requests: set<(NodeId, Option<TaskId>)>,
    handed: seq<(NodeId, TaskId)>)

  datatype Move =
    | Other(step: Step)
    | SendHeartbeat(node: NodeId)
    | DeliverHeartbeat(node: NodeId, reported: Option<TaskId>, intervalSec: nat, now: Time, pick: Option<TaskId>)
    | ReceiveResponse(node: NodeId, task: TaskId)
    | ClearSlot(node: NodeId)

  const START := World(EMPTY_DB, map[], {}, [])

  function Slot(w: World, node: NodeId): Option<TaskId> {
    if node in w.slots then Some(w.slots[node]) else None
  }

  ghost predicate Delivered(w: World, m: Move)
    requires m.DeliverHeartbeat?
  {
    (m.node, m.reported) in w.requests
    && Enabled(w.db, HeartbeatStep(m.node, m.reported, m.intervalSec, m.now, m.pick))
  }

  /** A move that is not enabled changes nothing. A node starts a task only while its slot is empty. */
  ghost function Act(w: World, m: Move): World {
    match m
    case Other(step) => if step.HeartbeatStep? then w else w.(db := Next(w.db, step))
    case SendHeartbeat(node) => w.(requests := w.requests + {(node, Slot(w, node))})
    case DeliverHeartbeat(node, reported, intervalSec, now, pick) =>
      if !Delivered(w, m) then w
      else
        var (db, reply) := Heartbeat(w.db, node, reported, intervalSec, now, pick);
        w.(db := db, handed := if reply.task.Some? then w.handed + [(node, reply.task.value)] else w.handed)
    case ReceiveResponse(node, task) =>
      if (node, task) !in w.handed || node in w.slots then w else w.(slots := w.slots[node := task])
    case ClearSlot(node) => w.(slots := w.slots - {node})
  }

  ghost function Play(moves: seq<Move>): World {
    if moves == [] then START else Act(Play(moves[..|moves| - 1]), moves[|moves| - 1])
  }

  ghost predicate AtMostOneActive(tasks: map<TaskId, Task>) {
    forall i, j | i in tasks && j in tasks && Active(tasks[i].status) && Active(tasks[j].status)
                  && tasks[i].node == tasks[j].node :: i == j
  }

  /** A task that was handed to `node`: its own, claimed or later, and approved if it needed approval. */
  predicate HandedRow(tasks: map<TaskId, Task>, node: NodeId, id: TaskId) {
    && id in tasks
    && tasks[id].node == node
    && 3 <= Rank(tasks[id])
    && (LevelTwo(tasks[id].taskType) ==>
          tasks[id].reviewDecision == Some(Approve) || tasks[id].reviewDecision == Some(HumanApproved))
  }

  ghost predicate Inv(w: World) {
    && DbOk(w.db)
    && AtMostOneActive(w.db.tasks)
    && (forall h :: h in w.handed ==> HandedRow(w.db.tasks, h.0, h.1))
    && (forall i, j :: 0 <= i < j < |w.handed| ==> w.handed[i].1 != w.handed[j].1)
    && (forall node :: node in w.slots ==> (node, w.slots[node]) in w.handed)
    && (forall r :: r in w.requests && r.1.Some? ==> (r.0, r.1.value) in w.handed)
  }

  // ---- only a heartbeat makes a task active ----

  ghost predicate NoNewActive(tasks: map<TaskId, Task>, tasks': map<TaskId, Task>) {
    forall id :: id in tasks' && Active(tasks'[id].status) ==>
      id in tasks && Active(tasks[id].status) && tasks[id].node == tasks'[id].node
  }

  lemma TransitionKeepsActive(t: Task, e: Event, now: Time, startedAt: Option<Time>, finishedAt: Option<Time>)
    ensures var r := Transition(t, e, now, startedAt, finishedAt);
            r.Success? && Active(r.value.status) ==> Active(t.status) && r.value.node == t.node
  {
  }

  lemma TransitionNoNewActive(db: Db, id: TaskId, e: Event, now: Time,
                              startedAt: Option<Time>, finishedAt: Option<Time>)
    ensures NoNewActive(db.tasks, TransitionTask(db, id, e, now, startedAt, finishedAt).0.tasks)
  {
    if id in db.tasks {
      TransitionKeepsActive(db.tasks[id], e, now, startedAt, finishedAt);
    }
  }

  lemma {:induction false} SweepNoNewActive(db: Db, ids: seq<TaskId>, clock: Time)
    requires AllKnown(db, ids)
    ensures NoNewActive(db.tasks, SweepAll(db, ids, clock).tasks)
  {
    if ids != [] {
      var front, last := ids[..|ids| - 1], ids[|ids| - 1];
      SweepNoNewActive(db, front, clock);
      var mid := SweepAll(db, front, clock);
      var e := Verdict(mid.tasks[last], mid.nodes[mid.tasks[last].node], LatestCancel(mid.audit, last), clock);
      if e.Some? {
        TransitionNoNewActive(mid, last, e.value, Seconds(clock), None, Some(Seconds(clock)));
      }
    }
  }

  lemma {:induction false} ExpireNoNewActive(db: Db, ids: seq<TaskId>, clock: Time)
    ensures NoNewActive(db.tasks, ExpireAll(db, ids, clock).tasks)
  {
    if ids != [] {
      var front := ids[..|ids| - 1];
      ExpireNoNewActive(db, front, clock);
      TransitionNoNewActive(ExpireAll(db, front, clock), ids[|ids| - 1], ReviewExpire, Seconds(clock), None, None);
    }
  }

  lemma CreateNoNewActive(db: Db, id: TaskId, n: NewTask, now: Time, reviewedAt: Time)
    ensures NoNewActive(db.tasks, CreateTask(db, id, n, now, reviewedAt).0.tasks)
  {
  }

  lemma FinalizeNoNewActive(db: Db, id: TaskId, finalStatus: Status, startedAt: Time, finishedAt: Time, now: Time)
    requires FinalStatus(finalStatus)
    ensures NoNewActive(db.tasks, FinalizeTaskResult(db, id, finalStatus, startedAt, finishedAt, now).0.tasks)
  {
  }

  lemma ResultNoNewActive(db: Db, node: NodeId, id: TaskId, finalStatus: Status, startedAt: Option<Time>,
                          finishedAt: Option<Time>, d: Detail, now: Time)
    requires FinalStatus(finalStatus)
    ensures NoNewActive(db.tasks, TaskResult(db, node, id, finalStatus, startedAt, finishedAt, d, now).0.tasks)
  {
    if TaskOfNode(db, node, id) {
      var started := if startedAt.Some? then startedAt else Or(db.tasks[id].startedAt, now);
      FinalizeNoNewActive(db, id, finalStatus, started.value, Or(finishedAt, now).value, now);
    }
  }

  lemma StepNoNewActive(db: Db, step: Step)
    requires !step.HeartbeatStep?
    ensures NoNewActive(db.tasks, Next(db, step).tasks)
  {
    if Enabled(db, step) {
      match step {
        case PutNode(_, _, _, _, _, _) =>
        case CreateStep(id, n, now, reviewedAt) => CreateNoNewActive(db, id, n, now, reviewedAt);
        case CancelStep(id, now) => TransitionNoNewActive(db, id, Cancel, now, None, Some(now));
        case EscalateStep(id, now) => TransitionNoNewActive(db, id, ReviewEscalate, now, None, None);
        case ApproveStep(id, clock) => TransitionNoNewActive(db, id, ReviewApprove, Seconds(clock), None, None);
        case RejectStep(id, now) => TransitionNoNewActive(db, id, ReviewReject, now, None, None);
        case EventStep(_, id, target, now, _) =>
          TransitionNoNewActive(db, id, Report(target), now, Some(now), Some(now));
        case ResultStep(node, id, finalStatus, startedAt, finishedAt, d, now) =>
          ResultNoNewActive(db, node, id, finalStatus, startedAt, finishedAt, d, now);
        case MarkLostStep(rows, clock) => SweepNoNewActive(db, rows, clock);
        case ExpireStep(rows, clock) => ExpireNoNewActive(db, rows, clock);
      }
    }
  }

  // ---- the invariant ----

  lemma HandedRowAdvances(tasks: map<TaskId, Task>, tasks': map<TaskId, Task>, node: NodeId, id: TaskId)
    requires HandedRow(tasks, node, id) && AllAdvance(tasks, tasks')
    ensures HandedRow(tasks', node, id)
  {
  }

  /** What one heartbeat of an honest node does: a node that reports a task of its own gets nothing and
      changes no row; any other gets what the query selects, and that becomes its only active task. */
  lemma HonestHeartbeat(w: World, m: Move)
    requires Inv(w) && m.DeliverHeartbeat? && Delivered(w, m)
    ensures var (db, reply) := Heartbeat(w.db, m.node, m.reported, m.intervalSec, m.now, m.pick);
            && (m.reported.Some? ==> TaskOfNode(w.db, m.node, m.reported.value)
                                     && !w.db.tasks[m.reported.value].status.Pending?
                                     && reply.task.None? && db.tasks == w.db.tasks)
            && (m.reported.None? ==> reply.task == m.pick)
            && AtMostOneActive(db.tasks)
            && (reply.task.Some? ==> HandedRow(db.tasks, m.node, reply.task.value)
                                     && w.db.tasks[reply.task.value].status.Pending?)
  {
    if m.reported.Some? {
      assert HandedRow(w.db.tasks, m.node, m.reported.value);
    } else if m.pick.Some? {
      assert RowOk(w.db.tasks[m.pick.value]);
    }
  }

  lemma InvDeliver(w: World, m: Move)
    requires Inv(w) && m.DeliverHeartbeat?
    ensures Inv(Act(w, m))
  {
    if Delivered(w, m) {
      HonestHeartbeat(w, m);
      HeartbeatIsGood(w.db, m.node, m.reported, m.intervalSec, m.now, m.pick);
      var (db, reply) := Heartbeat(w.db, m.node, m.reported, m.intervalSec, m.now, m.pick);
      forall h | h in w.handed ensures HandedRow(db.tasks, h.0, h.1) {
        HandedRowAdvances(w.db.tasks, db.tasks, h.0, h.1);
      }
      if reply.task.Some? {
        forall i | 0 <= i < |w.handed| ensures w.handed[i].1 != reply.task.value {
          assert HandedRow(w.db.tasks, w.handed[i].0, w.handed[i].1);
        }
      }
    }
  }

  lemma InvOther(w: World, step: Step)
    requires Inv(w)
    ensures Inv(Act(w, Other(step)))
  {
    if !step.HeartbeatStep? {
      StepIsGood(w.db, step);
      StepNoNewActive(w.db, step);
      var tasks := Next(w.db, step).tasks;
      forall h | h in w.handed ensures HandedRow(tasks, h.0, h.1) {
        HandedRowAdvances(w.db.tasks, tasks, h.0, h.1);
      }
    }
  }

  lemma {:induction false} PlayInv(moves: seq<Move>)
    ensures Inv(Play(moves))
  {
    if moves == [] {
      RunOk([]);
    } else {
      var front, m := moves[..|moves| - 1], moves[|moves| - 1];
      PlayInv(front);
      if m.Other? {
        InvOther(Play(front), m.step);
      } else if m.DeliverHeartbeat? {
        InvDeliver(Play(front), m);
      }
    }
  }

  // ---- the main results ----

  /** In every reachable state a node has at most one claimed, running or cancel-requested task. */
  lemma OneActiveTaskPerNode(moves: seq<Move>, i: TaskId, j: TaskId)
    requires var tasks := Play(moves).db.tasks;
             i in tasks && j in tasks && Active(tasks[i].status) && Active(tasks[j].status)
             && tasks[i].node == tasks[j].node
    ensures i == j
  {
    PlayInv(moves);
  }

  /** Each task appears in at most one heartbeat response, to its own node. */
  lemma NoTaskHandedTwice(moves: seq<Move>)
    ensures forall i, j :: 0 <= i < j < |Play(moves).handed| ==> Play(moves).handed[i].1 != Play(moves).handed[j].1
    ensures forall h :: h in Play(moves).handed ==> TaskOfNode(Play(moves).db, h.0, h.1)
  {
    PlayInv(moves);
  }

  /** Nothing is handed out while the node still reports a task of its own, whatever became of that task,
      and the branch that would claim a reported task that is still pending is never taken. */
  lemma ReportingNodeGetsNothing(moves: seq<Move>, m: Move)
    requires m.DeliverHeartbeat? && m.reported.Some? && Delivered(Play(moves), m)
    ensures var w, after := Play(moves), Play(moves + [m]);
            && TaskOfNode(w.db, m.node, m.reported.value)
            && !w.db.tasks[m.reported.value].status.Pending?
            && after.handed == w.handed && after.db.tasks == w.db.tasks
  {
    PlayInv(moves);
    HonestHeartbeat(Play(moves), m);
    assert (moves + [m])[..|moves|] == moves;
  }

  /** No level-two task ever reaches a node, or sits in its slot, without an approval. */
  lemma OnlyApprovedTasksReachNodes(moves: seq<Move>)
    ensures var w := Play(moves);
            && (forall h :: h in w.handed ==> HandedRow(w.db.tasks, h.0, h.1))
            && (forall node :: node in w.slots ==> HandedRow(w.db.tasks, node, w.slots[node]))
  {
    PlayInv(moves);
  }
}
