/** The approvals that a plan's tasks start with, and what has to happen before one that waits
    for approval can start. */
module PlanApprovals {
  import opened Wrappers
  import opened CodePoints
  import opened Tasks
  import opened TaskGraph
  import opened FailurePropagation
  import opened TaskRuns
  import opened TaskSafety
  import opened TaskPlan

  /** A step that needs no approval asks for none; one that does is approved with the plan, or waits. */
  lemma {:induction false} FirstApprovals(request: Str, approved: bool, steps: seq<Step>, k: nat)
    requires 0 < k <= |steps|
    ensures TaskId(request, k) in FromPlan(request, approved, steps).tasks
    ensures var a := FromPlan(request, approved, steps).tasks[TaskId(request, k)].approval;
      && (a == NotRequired <==> !steps[k - 1].approvalRequired)
      && (a == Approved <==> steps[k - 1].approvalRequired && approved)
      && (a == AwaitingApproval <==> steps[k - 1].approvalRequired && !approved)
    decreases |steps|
  {
    hide TaskId;
    if k < |steps| {
      FirstApprovals(request, approved, steps[..|steps| - 1], k);
      if TaskId(request, k) == TaskId(request, |steps|) { TaskIdInjective(request, k, |steps|); }
    }
  }

  // ------------------------------------------------------------ who can give an approval

  /** The operation carries an approval for the task, or a waiver of it. */
  predicate Gives(op: Operation, id: Id) {
    match op
    case Approve(k, decision, _) => k == id && decision == Approved
    case Transition(k, _, approval, _) => k == id && approval in {Some(Approved), Some(NotRequired)}
    case _ => false
  }

  /** Nobody has approved the task, and it has not got past BLOCKED. */
  predicate Waits(t: Task) { t.approval !in {Approved, NotRequired} && t.state in {Pending, Blocked, Rejected, Cancelled} }

  /** The approval is as before, or it is none. */
  predicate NotGiven(t: Task, u: Task) { u.approval == t.approval || u.approval !in {Approved, NotRequired} }

  lemma TransitionApproval(g: Graph, id: Id, to: TaskState, approval: Option<ApprovalState>, reason: Option<Str>, t: Id)
    requires t in g.tasks && !(t == id && approval in {Some(Approved), Some(NotRequired)})
    ensures var h := TransitionTask(g, id, to, approval, reason).graph; t in h.tasks && NotGiven(g.tasks[t], h.tasks[t])
  {
    hide Done, DependenciesMet, HasBudget;
  }

  lemma SpreadApproval(g: Graph, id: Id, why: Str, terminal: bool, t: Id)
    requires t in g.tasks
    ensures var h := PropagateFailure(g, id, why, terminal).graph; t in h.tasks && h.tasks[t].approval == g.tasks[t].approval
  {
    hide Spread, CanStop;
    var s := Search(g, [id], {id}, []);
    SpreadOnlyStops(s, why, terminal);
    assert OneOnlyStops(s, Spread(s, why, terminal).search, t, why, terminal);
  }

  lemma RejectApproval(g: Graph, id: Id, why: Str, t: Id)
    requires t in g.tasks
    ensures var h := Reject(g, id, why).graph; t in h.tasks && NotGiven(g.tasks[t], h.tasks[t])
  {
    hide TransitionTask, PropagateFailure;
    TransitionApproval(g, id, Rejected, Some(Refused), Some(why), t);
    var o := TransitionTask(g, id, Rejected, Some(Refused), Some(why));
    SpreadApproval(WithEvent(WithEvent(o.graph, ApprovalRejected(id, why)), TaskRejected(id, why)), id, why, true, t);
  }

  lemma ApproveApproval(g: Graph, id: Id, decision: ApprovalState, reason: Option<Str>, t: Id)
    requires t in g.tasks && !(t == id && decision == Approved)
    ensures var h := ApproveTask(g, id, decision, reason).graph; t in h.tasks && NotGiven(g.tasks[t], h.tasks[t])
  {
    hide Reject, TransitionTask, OrElse, Compatible, Terminal;
    RejectApproval(g, id, OrElse(reason, FromAscii(APPROVAL_REJECTED)), t);
    if decision in {AwaitingApproval, Escalated} { TransitionApproval(g, id, Blocked, Some(decision), reason, t); }
  }

  lemma ResultApproval(g: Graph, id: Id, payload: map<Str, Str>, errors: seq<Str>, t: Id)
    requires t in g.tasks
    ensures var h := MarkResult(g, id, payload, errors).graph; t in h.tasks && NotGiven(g.tasks[t], h.tasks[t])
  {
    hide TransitionTask, PropagateFailure, Joined, HasBudget;
    var why := Joined(errors);
    TransitionApproval(g, id, Failed, None, Some(why), t);
    TransitionApproval(g, id, Completed, None, None, t);
    if id in g.tasks && errors != [] {
      TransitionApproval(g, id, Failed, None, Some(why), id);
      var o := TransitionTask(g, id, Failed, None, Some(why));
      if o.result.Ok? {
        var failed := o.graph.tasks[id].(payload := payload, errors := errors);
        SpreadApproval(WithEvent(WithTask(o.graph, id, failed), TaskFailed(id, why)), id, why, !HasBudget(failed), t);
      }
    }
  }

  /** Only the operations that give an approval give one. */
  lemma ApplyApproval(g: Graph, op: Operation, t: Id)
    requires t in g.tasks && !Gives(op, t)
    ensures t in Apply(g, op).tasks && NotGiven(g.tasks[t], Apply(g, op).tasks[t])
  {
    hide TransitionTask, PropagateFailure, ApproveTask, MarkResult, MayStart;
    match op
    case Transition(id, to, approval, why) => TransitionApproval(g, id, to, approval, why, t);
    case Propagate(id, reason, terminal) => SpreadApproval(g, id, reason, terminal, t);
    case Approve(id, decision, why) => ApproveApproval(g, id, decision, why, t);
    case Result(id, payload, errors) => ResultApproval(g, id, payload, errors, t);
    case Start(_, _, _) =>
    case TurnDown(_, _, _) =>
  }

  lemma StepWaits(t: Task, u: Task, done: set<Id>)
    requires Waits(t) && TaskStep(t, u, done) && NotGiven(t, u)
    ensures Waits(u)
  {}

  // ------------------------------------------------------------ in every run

  lemma {:induction false} KeepsWaiting(g: Graph, ops: seq<Operation>, id: Id)
    requires id in g.tasks && Waits(g.tasks[id]) && forall i :: 0 <= i < |ops| ==> !Gives(ops[i], id)
    ensures id in Run(g, ops).tasks && Waits(Run(g, ops).tasks[id])
    decreases |ops|
  {
    hide Apply, Waits, NotGiven, TaskStep, Done;
    if ops != [] {
      ApplySteps(g, ops[0]);
      ApplyApproval(g, ops[0], id);
      StepWaits(g.tasks[id], Apply(g, ops[0]).tasks[id], Done(g));
      KeepsWaiting(Apply(g, ops[0]), ops[1..], id);
    }
  }

  lemma WaitingCannotStart(t: Task, u: Task, done: set<Id>)
    requires Waits(t) && TaskStep(t, u, done)
    ensures u.state != InProgress
  {}

  /** In a run of a plan that was not approved, a step that needs approval starts only after an
      operation of the run has given it: an approval of the task, or a change of its state that
      brings one. */
  lemma StartNeedsApproval(request: Str, steps: seq<Step>, ops: seq<Operation>, op: Operation, k: nat)
    requires 0 < k <= |steps| && steps[k - 1].approvalRequired
    requires var h := Run(FromPlan(request, false, steps), ops); StartsIn(h, Apply(h, op), TaskId(request, k))
    ensures exists i :: 0 <= i < |ops| && Gives(ops[i], TaskId(request, k))
  {
    hide TaskId, FromPlan, Run, Apply, Waits, IsChain, TaskStep, Done;
    var g, id := FromPlan(request, false, steps), TaskId(request, k);
    if forall i :: 0 <= i < |ops| ==> !Gives(ops[i], id) {
      PlanIsChain(request, false, steps);
      FirstApprovals(request, false, steps, k);
      FirstWaits(g, request, |steps|, k);
      KeepsWaiting(g, ops, id);
      var h := Run(g, ops);
      ApplySteps(h, op);
      WaitingCannotStart(h.tasks[id], Apply(h, op).tasks[id], Done(h));
    }
  }

  lemma FirstWaits(g: Graph, request: Str, n: nat, k: nat)
    requires IsChain(g, request, n) && 0 < k <= n
    ensures TaskId(request, k) in g.tasks
    ensures g.tasks[TaskId(request, k)].approval == AwaitingApproval ==> Waits(g.tasks[TaskId(request, k)])
  {
    hide TaskId;
    assert IsStepTask(g, request, k);
  }
}
