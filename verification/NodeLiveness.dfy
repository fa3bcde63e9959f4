/** Heartbeats and the sweep together: what keeps a task from being declared lost is that its node was heard. */
module NodeLiveness {
  import opened Answers
  import opened Common
  import opened Sweep
  import opened TaskLifecycle
  import opened TaskModel

  /** No step of `steps` is a heartbeat of the node or changes its settings. */
  predicate SilentIn(steps: seq<Step>, node: NodeId) {
    forall i :: 0 <= i < |steps| ==> !Concerns(steps[i], node)
  }

  predicate Concerns(step: Step, node: NodeId) {
    (step.PutNode? || step.HeartbeatStep?) && step.node == node
  }

  lemma TransitionKeepsNodes(db: Db, id: TaskId, e: Event, now: Time, startedAt: Option<Time>,
                             finishedAt: Option<Time>)
    ensures TransitionTask(db, id, e, now, startedAt, finishedAt).0.nodes == db.nodes
  {
  }

  lemma {:induction false} ExpireKeepsNodes(db: Db, ids: seq<TaskId>, clock: Time)
    ensures ExpireAll(db, ids, clock).nodes == db.nodes
  {
    if ids != [] {
      var front := ids[..|ids| - 1];
      ExpireKeepsNodes(db, front, clock);
      TransitionKeepsNodes(ExpireAll(db, front, clock), ids[|ids| - 1], ReviewExpire, Seconds(clock), None, None);
    }
  }

  lemma AdminKeepsNodes(db: Db, id: TaskId, e: Event, action: Action, now: Time, finishedAt: Option<Time>)
    ensures AdminStep(db, id, e, action, now, finishedAt).0.nodes == db.nodes
  {
    TransitionKeepsNodes(db, id, e, now, None, finishedAt);
  }

  lemma StepKeepsNode(db: Db, step: Step, node: NodeId)
    requires !Concerns(step, node) && node in db.nodes
    ensures node in Next(db, step).nodes && Next(db, step).nodes[node] == db.nodes[node]
  {
    if Enabled(db, step) {
      match step {
        case PutNode(_, _, _, _, _, _) =>
        case CreateStep(id, n, now, reviewedAt) => CreateWrites(db, id, n, now, reviewedAt);
        case CancelStep(id, now) => AdminKeepsNodes(db, id, Cancel, CancelTaskAction, now, Some(now));
        case EscalateStep(id, now) => AdminKeepsNodes(db, id, ReviewEscalate, EscalateAction, now, None);
        case ApproveStep(id, clock) => AdminKeepsNodes(db, id, ReviewApprove, ApproveAction, Seconds(clock), None);
        case RejectStep(id, now) => AdminKeepsNodes(db, id, ReviewReject, RejectAction, now, None);
        case HeartbeatStep(_, _, _, _, _) =>
        case EventStep(_, id, target, now, _) =>
          TransitionKeepsNodes(db, id, Report(target), now, Some(now), Some(now));
        case ResultStep(_, _, _, _, _, _, _) =>
        case MarkLostStep(_, _) =>
        case ExpireStep(rows, clock) => ExpireKeepsNodes(db, rows, clock);
      }
    }
  }

  /** The node's row after a heartbeat stays as that heartbeat left it until the node is heard of again. */
  lemma {:induction false} HeardRowIsKept(steps: seq<Step>, more: seq<Step>, node: NodeId)
    requires SilentIn(more, node) && node in Run(steps).nodes
    ensures node in Run(steps + more).nodes && Run(steps + more).nodes[node] == Run(steps).nodes[node]
  {
    if more == [] {
      assert steps + more == steps;
    } else {
      var front, last := more[..|more| - 1], more[|more| - 1];
      HeardRowIsKept(steps, front, node);
      assert steps + more == steps + front + [last];
      RunStep(steps + front, last);
      StepKeepsNode(Run(steps + front), last, node);
    }
  }

  /** How long a node that announced `intervalSec` may be silent: three intervals, of five seconds if it
      announced none. */
  function Patience(intervalSec: nat): Time {
    3 * (if intervalSec == 0 then 5 else intervalSec) * 1_000_000
  }

  lemma HeardNodeInSweep(db: Db, id: TaskId, now: Time, intervalSec: nat, clock: Time)
    requires id in db.tasks && db.tasks[id].node in db.nodes
    requires db.tasks[id].status.Claimed? || db.tasks[id].status.Running?
    requires var n := db.nodes[db.tasks[id].node]; n.lastSeenAt == Some(now) && n.heartbeatIntervalSec == intervalSec
    ensures SweepTarget(db, id, clock).status.TimedOut? <==> Overrun(db.tasks[id], clock)
    ensures SweepTarget(db, id, clock).status.Lost? <==>
            Patience(intervalSec) < clock - now && !Overrun(db.tasks[id], clock)
    ensures SweepTarget(db, id, clock) != db.tasks[id] ==>
              SweepTarget(db, id, clock).status.TimedOut? || SweepTarget(db, id, clock).status.Lost?
  {
  }

  /** After a heartbeat at `now`, and whatever happens before the node is heard of again, a sweep ends a
      claimed or running task of the node as lost exactly if more than three intervals have passed since
      `now` and the task is not past its own deadline; without either the sweep leaves the task as it is. */
  lemma LostIffSilent(steps: seq<Step>, heartbeat: Step, more: seq<Step>, ids: seq<TaskId>, clock: Time, id: TaskId)
    requires heartbeat.HeartbeatStep? && Enabled(Run(steps), heartbeat) && SilentIn(more, heartbeat.node)
    requires ActiveRows(Run(steps + [heartbeat] + more), ids)
    requires var tasks := Run(steps + [heartbeat] + more).tasks;
             id in tasks && tasks[id].node == heartbeat.node && (tasks[id].status.Claimed? || tasks[id].status.Running?)
    ensures var db := Run(steps + [heartbeat] + more);
            var after := Run(steps + [heartbeat] + more + [MarkLostStep(ids, clock)]);
            && id in after.tasks
            && (after.tasks[id].status.Lost? <==>
                  Patience(heartbeat.intervalSec) < clock - heartbeat.now && !Overrun(db.tasks[id], clock))
            && (after.tasks[id].status.TimedOut? <==> Overrun(db.tasks[id], clock))
            && (after.tasks[id] != db.tasks[id] ==>
                  after.tasks[id].status.Lost? || after.tasks[id].status.TimedOut?)
  {
    var heard := steps + [heartbeat];
    var before := Run(steps);
    RunStep(steps, heartbeat);
    HeartbeatMeans(before, heartbeat.node, heartbeat.reported, heartbeat.intervalSec, heartbeat.now, heartbeat.pick);
    HeardRowIsKept(heard, more, heartbeat.node);
    SweepSoundAndComplete(heard + more, ids, clock, id);
    HeardNodeInSweep(Run(heard + more), id, heartbeat.now, heartbeat.intervalSec, clock);
  }

  /** So a node that is heard every three intervals never has a task declared lost. */
  lemma HeardNodeLosesNothing(steps: seq<Step>, heartbeat: Step, more: seq<Step>, ids: seq<TaskId>, clock: Time,
                              id: TaskId)
    requires heartbeat.HeartbeatStep? && Enabled(Run(steps), heartbeat) && SilentIn(more, heartbeat.node)
    requires ActiveRows(Run(steps + [heartbeat] + more), ids)
    requires TaskOfNode(Run(steps + [heartbeat] + more), heartbeat.node, id)
    requires 0 < heartbeat.intervalSec && clock <= heartbeat.now + 3 * heartbeat.intervalSec * SECOND
    ensures var t := Run(steps + [heartbeat] + more).tasks[id];
            var after := Run(steps + [heartbeat] + more + [MarkLostStep(ids, clock)]);
            && id in after.tasks
            && (t.status.Claimed? ==> after.tasks[id] == t)
            && (t.status.Running? ==> after.tasks[id] == t || after.tasks[id].status.TimedOut?)
  {
    var all := steps + [heartbeat] + more;
    var t := Run(all).tasks[id];
    RunOk(all);
    SweepSoundAndComplete(all, ids, clock, id);
    if t.status.Claimed? || t.status.Running? {
      LostIffSilent(steps, heartbeat, more, ids, clock, id);
    }
  }
}
