/** The tables of task states, the state of a mission, and what each approval decision does, read
    off the tasks. */
module TaskMeaning {
  import opened Wrappers
  import opened CodePoints
  import opened DecimalNotation
  import opened Tasks
  import opened TaskGraph
  import opened FailurePropagation
  import opened TaskRuns
  import opened TaskSafety

  // ------------------------------------------------------------ the two tables

  /** Where a state can be entered from. */
  function Predecessors(s: TaskState): set<TaskState> {
    match s
    case Pending => {}
    case Ready => {Pending, Blocked, RetryPending}
    case Blocked => {Pending, Ready, Assigned, RetryPending}
    case Assigned => {Ready}
    case InProgress => {Assigned}
    case Completed => {InProgress}
    case Failed => {InProgress}
    case RetryPending => {Failed}
    case Rejected => {Pending, Blocked, Ready, Assigned, Failed, RetryPending}
    case Cancelled => {Pending, Blocked, Ready, Assigned, InProgress, Failed, RetryPending}
  }

  lemma TransitionTable(s: TaskState, to: TaskState)
    ensures to in Successors(s) <==> s in Predecessors(to)
  {}

  /** An approval that is given or not needed fits every state; one asked for fits a task that is
      waiting or over; one refused, a task that failed or is over; one escalated, a task that waits. */
  lemma ApprovalTable(s: TaskState, a: ApprovalState)
    ensures Compatible(s, a) <==>
      match a
      case NotRequired => true
      case Approved => true
      case AwaitingApproval => s in {Pending, Blocked, RetryPending, Cancelled}
      case Refused => s in {Failed, Rejected, Cancelled}
      case Escalated => s in {Pending, Blocked}
  {}

  /** A transition goes through exactly when the table has it, the approval fits, no dependency stands in
      the way of getting ready, assigned or running, and a retry is within the budget; it changes the
      state, the approval if one comes with it, the reason, and on a retry the count. */
  lemma TransitionMeaning(t: Task, to: TaskState, approval: Option<ApprovalState>, reason: Option<Str>, completed: set<Id>)
    ensures var r, a := Tasks.Transition(t, to, approval, reason, completed), match approval case None => t.approval case Some(given) => given;
      && (r.Ok? <==>
          && t.state in Predecessors(to) && Compatible(to, a)
          && (to in {Ready, Assigned, InProgress} ==> !t.prevented && forall d :: d in t.dependencies ==> d in completed)
          && (to == RetryPending ==> t.retryable && t.retries < t.maxRetries))
      && (r.Ok? ==> r.value == t.(state := to, approval := a, reason := reason, retries := t.retries + (if to == RetryPending then 1 else 0)))
  {
    hide Successors, CompatibleApprovals, Predecessors;
    TransitionTable(t.state, to);
  }

  // ------------------------------------------------------------ the state of a mission

  ghost predicate Has(g: Graph, s: TaskState) { exists id :: id in g.tasks && g.tasks[id].state == s }

  /** Failed, or blocked for good. */
  ghost predicate SomeLost(g: Graph) { exists id :: id in g.tasks && (g.tasks[id].state == Failed || (g.tasks[id].state == Blocked && g.tasks[id].prevented)) }

  /** A refusal outweighs a failure, a failure a cancellation; it is completed when every task is, and there
      is one; and otherwise it is still blocked. */
  lemma MissionMeaning(g: Graph)
    ensures var m := MissionStateOf(g);
      && (m == MissionRejected <==> Has(g, Rejected))
      && (m == MissionFailed <==> !Has(g, Rejected) && SomeLost(g))
      && (m == MissionCancelled <==> !Has(g, Rejected) && !SomeLost(g) && Has(g, Cancelled))
      && (m == MissionCompleted <==> g.tasks != map[] && forall id :: id in g.tasks ==> g.tasks[id].state == Completed)
  {
    if |g.tasks.Keys| == 0 {
      assert forall id :: id !in g.tasks;
      assert g.tasks == map[];
    } else {
      var id :| id in g.tasks.Keys;
      assert id in g.tasks;
    }
  }

  // ------------------------------------------------------------ approval decisions

  /** Nothing but the task has changed, and the log only has more. */
  ghost predicate OnlyTask(g: Graph, h: Graph, id: Id) {
    h.tasks.Keys == g.tasks.Keys && h.links == g.links && g.events <= h.events && forall k :: k in g.tasks && k != id ==> h.tasks[k] == g.tasks[k]
  }

  /** Granting gives the approval to a task that is known and not over, whatever its state, and does
      nothing else to it. */
  lemma GrantMeaning(g: Graph, id: Id, reason: Option<Str>)
    ensures var o := ApproveTask(g, id, Approved, reason);
      && (o.result.Ok? <==> id in g.tasks && g.tasks[id].state !in {Completed, Rejected, Cancelled})
      && (o.result.Ok? ==> OnlyTask(g, o.graph, id) && o.graph.tasks[id] == g.tasks[id].(approval := Approved))
      && (o.result.Err? ==> o.graph == g)
  {
    hide OrElse, Reject, Request;
    if id in g.tasks { ApprovalTable(g.tasks[id].state, Approved); }
  }

  /** Asking for approval, or escalating, blocks a task that has not started, and leaves a blocked one
      blocked; the approval is then as asked. */
  lemma RequestMeaning(g: Graph, id: Id, asked: ApprovalState, reason: Option<Str>)
    requires asked in {AwaitingApproval, Escalated}
    ensures var o := ApproveTask(g, id, asked, reason);
      && (o.result.Ok? <==> id in g.tasks && g.tasks[id].state in {Pending, Blocked, Ready, Assigned, RetryPending})
      && (o.result.Ok? ==> OnlyTask(g, o.graph, id) && o.graph.tasks[id].state == Blocked && o.graph.tasks[id].approval == asked)
      && (o.result.Err? ==> o.graph == g)
  {
    hide OrElse, Reject, Grant;
    if id in g.tasks {
      ApprovalTable(Blocked, asked);
      TransitionTable(g.tasks[id].state, Blocked);
    }
  }

  /** A decision that no approval is required is no decision. */
  lemma NotRequiredMeaning(g: Graph, id: Id, reason: Option<Str>)
    ensures ApproveTask(g, id, NotRequired, reason).graph == g
  {
    hide OrElse, Reject, Grant, Request;
  }

  // ------------------------------------------------------------ texts

  /** Errors are joined with a semicolon and a space between them. */
  lemma {:induction false} JoinedMeaning(a: seq<Str>, b: seq<Str>)
    ensures Joined([]) == [] && forall s :: Joined([s]) == s
    ensures a != [] && b != [] ==> Joined(a + b) == Joined(a) + FromAscii("; ") + Joined(b)
  {
    if a != [] && b != [] {
      assert (a + b)[1..] == a[1..] + b;
      if |a| == 1 {
        assert a == [a[0]] && a[1..] + b == b;
      } else {
        JoinedMeaning(a[1..], b);
      }
    }
  }

  /** A task's id is the word task, the request and the number of the step, with underscores between. */
  lemma TaskIdParts(request: Str, n: nat)
    ensures var id, k := TaskId(request, n), 5 + |request|;
      && |id| > k && id[..5] == FromAscii("task_") && id[5..k] == request && id[k] == '_' as int
      && |id[k + 1..]| == |Plain(n)| && forall i :: 0 <= i < |Plain(n)| ==> id[k + 1..][i] == Plain(n)[i] as int
  {
    assert |FromAscii("task_")| == 5 && FromAscii("_") == ['_' as int];
    assert TaskId(request, n)[6 + |request|..] == Digits(n);
  }

  lemma ReasonMeaning(reason: Option<Str>, default: Str)
    ensures reason.Some? && |reason.value| > 0 ==> OrElse(reason, default) == reason.value
    ensures reason == None || reason == Some([]) ==> OrElse(reason, default) == default
  {}
}
