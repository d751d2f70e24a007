/** Runs of graph operations: what every reachable task graph satisfies. */
module TaskRuns {
  import opened Wrappers
  import opened CodePoints
  import opened Digraph
  import opened Tasks
  import opened TaskGraph
  import opened FailurePropagation

  /** A call on the graph, or what a dispatcher does to a task of it: start it, or turn it
      down after evaluating the policy. `logged` says that it was handed the graph's log. */
  datatype Operation =
    | Transition(id: Id, to: TaskState, approval: Option<ApprovalState>, why: Option<Str>)
    | Propagate(id: Id, reason: Str, terminal: bool)
    | Approve(id: Id, decision: ApprovalState, why: Option<Str>)
    | Result(id: Id, payload: map<Str, Str>, errors: seq<Str>)
    | Start(id: Id, completed: set<Id>, logged: bool)
    | TurnDown(id: Id, allowed: bool, logged: bool)

  /** The graph after a call, whether it returned or raised. */
  function Apply(g: Graph, op: Operation): Graph {
    match op
    case Transition(id, to, approval, why) => TransitionTask(g, id, to, approval, why).graph
    case Propagate(id, reason, terminal) => PropagateFailure(g, id, reason, terminal).graph
    case Approve(id, decision, why) => ApproveTask(g, id, decision, why).graph
    case Result(id, payload, errors) => MarkResult(g, id, payload, errors).graph
    case Start(id, completed, logged) => StartTask(g, id, completed, logged)
    case TurnDown(id, allowed, logged) => if logged then WithEvent(g, PreDispatchPolicy(id, allowed)) else g
  }

  function Run(g: Graph, ops: seq<Operation>): Graph
    decreases |ops|
  {
    if ops == [] then g else Run(Apply(g, ops[0]), ops[1..])
  }

  // ------------------------------------------------------------ one task, one operation

  predicate Stays(t: Task, u: Task) {
    u.state == t.state && u.retries == t.retries && (u.approval == t.approval || Compatible(u.state, u.approval))
  }

  predicate Moves(t: Task, u: Task, done: set<Id>) {
    && u.state in Successors(t.state) && Compatible(u.state, u.approval)
    && (u.state in {Ready, Assigned, InProgress} ==> forall d :: d in t.dependencies ==> d in done)
    && (u.state == RetryPending ==> HasBudget(t))
    && u.retries == if u.state == RetryPending then t.retries + 1 else t.retries
  }

  /** Dispatched, through ASSIGNED, on whatever the dispatcher was told is completed. */
  predicate Begins(t: Task, u: Task) {
    t.state in {Ready, Assigned} && u.state == InProgress && Compatible(u.state, u.approval) && u.retries == t.retries
  }

  /** All that one operation can do to one task. */
  predicate TaskStep(t: Task, u: Task, done: set<Id>) {
    && u.dependencies == t.dependencies && u.maxRetries == t.maxRetries && u.retryable == t.retryable
    && if Terminal(t.state) then u == t else Stays(t, u) || Moves(t, u, done) || Begins(t, u)
  }

  ghost predicate Steps(g: Graph, h: Graph) {
    && h.tasks.Keys == g.tasks.Keys && h.links == g.links
    && forall id :: id in g.tasks ==> TaskStep(g.tasks[id], h.tasks[id], Done(g))
  }

  lemma SameSteps(g: Graph, h: Graph)
    requires h.tasks == g.tasks && h.links == g.links
    ensures Steps(g, h)
  {}

  lemma OneTaskSteps(g: Graph, h: Graph, id: Id)
    requires id in g.tasks && h.tasks.Keys == g.tasks.Keys && h.links == g.links
    requires forall k :: k in g.tasks && k != id ==> h.tasks[k] == g.tasks[k]
    requires TaskStep(g.tasks[id], h.tasks[id], Done(g))
    ensures Steps(g, h)
  {}

  lemma TransitionStep(t: Task, to: TaskState, approval: Option<ApprovalState>, reason: Option<Str>, completed: set<Id>, done: set<Id>)
    requires completed <= done
    ensures var r := Tasks.Transition(t, to, approval, reason, completed);
      r.Ok? ==> TaskStep(t, r.value, done) && r.value.state == to && !Terminal(t.state)
  {}

  lemma TransitionTaskSteps(g: Graph, id: Id, to: TaskState, approval: Option<ApprovalState>, reason: Option<Str>)
    ensures Steps(g, TransitionTask(g, id, to, approval, reason).graph)
  {
    hide Tasks.Transition, TaskStep;
    if id in g.tasks && Tasks.Transition(g.tasks[id], to, approval, reason, Done(g)).Ok? {
      TransitionStep(g.tasks[id], to, approval, reason, Done(g), Done(g));
      OneTaskSteps(g, TransitionTask(g, id, to, approval, reason).graph, id);
    } else {
      SameSteps(g, g);
    }
  }

  // ------------------------------------------------------------ a spreading failure, raised or not

  /** Only tasks found meanwhile change, and those only by being stopped. */
  ghost predicate OnlyStops(s: Search, s': Search, why: Str, terminal: bool) {
    && s.seen <= s'.seen && s'.graph.tasks.Keys == s.graph.tasks.Keys && s'.graph.links == s.graph.links
    && forall t :: t in s.graph.tasks ==> OneOnlyStops(s, s', t, why, terminal)
  }

  predicate OneOnlyStops(s: Search, s': Search, t: Id, why: Str, terminal: bool)
    requires t in s.graph.tasks && t in s'.graph.tasks
  {
    var before, after := s.graph.tasks[t], s'.graph.tasks[t];
    after == before
    || (t !in s.seen && t in s'.seen && !Terminal(before.state) && CanStop(before) && after == AfterStop(before, why, terminal))
  }

  lemma OnlyStopsTrans(a: Search, b: Search, c: Search, why: Str, terminal: bool)
    requires OnlyStops(a, b, why, terminal) && OnlyStops(b, c, why, terminal)
    ensures OnlyStops(a, c, why, terminal)
  {
    hide AfterStop, CanStop, Terminal;
    forall t | t in a.graph.tasks ensures OneOnlyStops(a, c, t, why, terminal) {
      assert OneOnlyStops(a, b, t, why, terminal) && OneOnlyStops(b, c, t, why, terminal);
    }
  }

  lemma VisitTargetOnlyStops(s: Search, source: Id, target: Id, why: Str, terminal: bool)
    ensures OnlyStops(s, VisitTarget(s, source, target, why, terminal).search, why, terminal)
  {
    hide AfterStop, CanStop, Terminal, Advanced;
    var v := VisitTarget(s, source, target, why, terminal);
    if target !in s.seen && target in s.graph.tasks {
      if Terminal(s.graph.tasks[target].state) || CanStop(s.graph.tasks[target]) {
        VisitTargetStep(s, source, target, why, terminal);
        AdvancedOnlyStops(s, v.search, target, why, terminal);
      } else {
        NotStopped(s.graph, target, why);
      }
    }
  }

  lemma AdvancedOnlyStops(s: Search, s': Search, target: Id, why: Str, terminal: bool)
    requires target !in s.seen && target in s.graph.tasks && Advanced(s, s', target, why, terminal)
    requires Terminal(s.graph.tasks[target].state) || CanStop(s.graph.tasks[target])
    ensures OnlyStops(s, s', why, terminal)
  {
    hide AfterStop, CanStop, Terminal;
  }

  lemma NotStopped(g: Graph, target: Id, why: Str)
    requires target in g.tasks && !CanStop(g.tasks[target])
    ensures Stopped(g, target, why).graph == g && Stopped(g, target, why).result.Err?
  {}

  lemma {:induction false} VisitTargetsOnlyStops(s: Search, source: Id, targets: seq<Id>, why: Str, terminal: bool)
    ensures OnlyStops(s, VisitTargets(s, source, targets, why, terminal).search, why, terminal)
    decreases |targets|
  {
    hide VisitTarget, AfterStop, CanStop, Terminal;
    if targets != [] {
      var v := VisitTarget(s, source, targets[0], why, terminal);
      VisitTargetOnlyStops(s, source, targets[0], why, terminal);
      if v.error == None {
        VisitTargetsOnlyStops(v.search, source, targets[1..], why, terminal);
        OnlyStopsTrans(s, v.search, VisitTargets(s, source, targets, why, terminal).search, why, terminal);
      }
    }
  }

  lemma {:induction false} SpreadOnlyStops(s: Search, why: Str, terminal: bool)
    ensures OnlyStops(s, Spread(s, why, terminal).search, why, terminal)
    decreases Unseen(s), |s.queue|
  {
    hide VisitTargets, TargetsOf, Sorted, AfterStop, CanStop, Terminal;
    if s.queue != [] {
      var rest := s.(queue := s.queue[1..]);
      var targets := Sorted(TargetsOf(s.graph, s.queue[0]));
      VisitTargetsShrinks(rest, s.queue[0], targets, why, terminal);
      VisitTargetsOnlyStops(rest, s.queue[0], targets, why, terminal);
      var v := VisitTargets(rest, s.queue[0], targets, why, terminal);
      if v.error == None {
        SpreadOnlyStops(v.search, why, terminal);
        OnlyStopsTrans(rest, v.search, Spread(s, why, terminal).search, why, terminal);
      }
    }
  }

  /** Any other task is as before or stopped; the start of the failure is as before. */
  lemma PropagateTask(g: Graph, id: Id, why: Str, terminal: bool, t: Id)
    requires t in g.tasks
    ensures var h := PropagateFailure(g, id, why, terminal).graph;
      && h.tasks.Keys == g.tasks.Keys && h.links == g.links
      && TaskStep(g.tasks[t], h.tasks[t], Done(g))
      && (t == id ==> h.tasks[t] == g.tasks[t])
  {
    hide Spread, Done;
    var s := Search(g, [id], {id}, []);
    SpreadOnlyStops(s, why, terminal);
    var s' := Spread(s, why, terminal).search;
    assert OneOnlyStops(s, s', t, why, terminal);
  }

  lemma PropagateKeys(g: Graph, id: Id, why: Str, terminal: bool)
    ensures var h := PropagateFailure(g, id, why, terminal).graph; h.tasks.Keys == g.tasks.Keys && h.links == g.links
  {
    hide Spread;
    SpreadOnlyStops(Search(g, [id], {id}, []), why, terminal);
  }

  lemma PropagateSteps(g: Graph, id: Id, why: Str, terminal: bool)
    ensures Steps(g, PropagateFailure(g, id, why, terminal).graph)
  {
    hide PropagateFailure, TaskStep;
    PropagateKeys(g, id, why, terminal);
    forall t | t in g.tasks ensures TaskStep(g.tasks[t], PropagateFailure(g, id, why, terminal).graph.tasks[t], Done(g)) {
      PropagateTask(g, id, why, terminal, t);
    }
  }

  /** A change to one task, then the spreading of its failure, is one step for every task. */
  lemma ThenPropagateSteps(g: Graph, g1: Graph, id: Id, why: Str, terminal: bool)
    requires id in g.tasks && g1.tasks.Keys == g.tasks.Keys && g1.links == g.links
    requires forall k :: k in g.tasks && k != id ==> g1.tasks[k] == g.tasks[k]
    requires TaskStep(g.tasks[id], g1.tasks[id], Done(g))
    ensures Steps(g, PropagateFailure(g1, id, why, terminal).graph)
  {
    hide PropagateFailure, Done;
    PropagateKeys(g1, id, why, terminal);
    forall t | t in g.tasks ensures TaskStep(g.tasks[t], PropagateFailure(g1, id, why, terminal).graph.tasks[t], Done(g)) {
      StopsAnyway(g1, id, why, terminal, t, Done(g));
    }
  }

  /** Stopping a task does not look at which tasks are completed. */
  lemma StopsAnyway(g: Graph, id: Id, why: Str, terminal: bool, t: Id, done: set<Id>)
    requires t in g.tasks
    ensures t in PropagateFailure(g, id, why, terminal).graph.tasks
    ensures t == id ==> PropagateFailure(g, id, why, terminal).graph.tasks[t] == g.tasks[t]
    ensures t != id ==> TaskStep(g.tasks[t], PropagateFailure(g, id, why, terminal).graph.tasks[t], done)
  {
    hide Spread;
    var s := Search(g, [id], {id}, []);
    SpreadOnlyStops(s, why, terminal);
    var s' := Spread(s, why, terminal).search;
    assert OneOnlyStops(s, s', t, why, terminal);
  }

  // ------------------------------------------------------------ every operation is a step

  lemma RejectSteps(g: Graph, id: Id, why: Str)
    ensures Steps(g, Reject(g, id, why).graph)
  {
    hide Tasks.Transition, PropagateFailure, TaskStep, Steps;
    TransitionTaskSteps(g, id, Rejected, Some(Refused), Some(why));
    var o := TransitionTask(g, id, Rejected, Some(Refused), Some(why));
    if o.result.Ok? {
      TransitionStep(g.tasks[id], Rejected, Some(Refused), Some(why), Done(g), Done(g));
      ThenPropagateSteps(g, WithEvent(WithEvent(o.graph, ApprovalRejected(id, why)), TaskRejected(id, why)), id, why, true);
    }
  }

  lemma GrantSteps(g: Graph, id: Id, why: Str)
    requires id in g.tasks && !Terminal(g.tasks[id].state)
    ensures Steps(g, Grant(g, id, why).graph)
  {
    if Compatible(g.tasks[id].state, Approved) { OneTaskSteps(g, Grant(g, id, why).graph, id); } else { SameSteps(g, g); }
  }

  lemma RequestSteps(g: Graph, id: Id, approval: ApprovalState, reason: Option<Str>)
    requires id in g.tasks && !Terminal(g.tasks[id].state)
    ensures Steps(g, Request(g, id, approval, reason).graph)
  {
    if g.tasks[id].state == Blocked {
      hide TransitionTask;
      if Compatible(Blocked, approval) { OneTaskSteps(g, Request(g, id, approval, reason).graph, id); } else { SameSteps(g, g); }
    } else {
      hide TransitionTask, TaskStep;
      TransitionTaskSteps(g, id, Blocked, Some(approval), reason);
    }
  }

  lemma ApproveSteps(g: Graph, id: Id, approval: ApprovalState, reason: Option<Str>)
    ensures Steps(g, ApproveTask(g, id, approval, reason).graph)
  {
    hide Reject, Grant, Request, Steps, OrElse;
    SameSteps(g, g);
    if id in g.tasks && !Terminal(g.tasks[id].state) {
      RejectSteps(g, id, OrElse(reason, FromAscii(APPROVAL_REJECTED)));
      GrantSteps(g, id, OrElse(reason, FromAscii(APPROVAL_GRANTED)));
      RequestSteps(g, id, AwaitingApproval, reason);
      RequestSteps(g, id, Escalated, reason);
    }
  }

  lemma ResultStep(t: Task, u: Task, payload: map<Str, Str>, errors: seq<Str>, done: set<Id>)
    requires TaskStep(t, u, done) && !Terminal(t.state)
    ensures TaskStep(t, u.(payload := payload, errors := errors), done)
  {}

  lemma ResultSteps(g: Graph, id: Id, payload: map<Str, Str>, errors: seq<Str>)
    ensures Steps(g, MarkResult(g, id, payload, errors).graph)
  {
    hide Tasks.Transition, PropagateFailure, TaskStep, Steps, Joined, HasBudget;
    SameSteps(g, g);
    if id in g.tasks {
      var why := Joined(errors);
      var to, reason := if errors != [] then Failed else Completed, if errors != [] then Some(why) else None;
      var o := TransitionTask(g, id, to, None, reason);
      if o.result.Ok? {
        TransitionStep(g.tasks[id], to, None, reason, Done(g), Done(g));
        var t := o.graph.tasks[id].(payload := payload, errors := errors);
        ResultStep(g.tasks[id], o.graph.tasks[id], payload, errors, Done(g));
        var marked := WithTask(o.graph, id, t);
        if errors == [] {
          OneTaskSteps(g, WithEvent(marked, TaskCompleted(id, payload)), id);
        } else {
          ThenPropagateSteps(g, WithEvent(marked, TaskFailed(id, why)), id, why, !HasBudget(t));
        }
      }
    }
  }

  lemma StartSteps(g: Graph, id: Id, completed: set<Id>, logged: bool)
    ensures Steps(g, StartTask(g, id, completed, logged))
  {
    hide Stays, Moves, Done;
    if id in g.tasks && MayStart(g.tasks[id], completed) {
      OneTaskSteps(g, StartTask(g, id, completed, logged), id);
    } else {
      SameSteps(g, g);
    }
  }

  /** Whatever is called and whether or not it raises, each task stays, makes a move of the
      table, or is dispatched. */
  lemma ApplySteps(g: Graph, op: Operation)
    ensures Steps(g, Apply(g, op))
  {
    hide Steps, TransitionTask, PropagateFailure, ApproveTask, MarkResult, StartTask;
    match op
    case Transition(id, to, approval, why) => TransitionTaskSteps(g, id, to, approval, why);
    case Propagate(id, reason, terminal) => PropagateSteps(g, id, reason, terminal);
    case Approve(id, decision, why) => ApproveSteps(g, id, decision, why);
    case Result(id, payload, errors) => ResultSteps(g, id, payload, errors);
    case Start(id, completed, logged) => StartSteps(g, id, completed, logged);
    case TurnDown(_, _, _) => SameSteps(g, Apply(g, op));
  }
}
