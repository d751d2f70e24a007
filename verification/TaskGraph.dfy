/** The task graph of a mission as a value: its audit log, and the operations on it
    as functions from one graph to the next. */
module TaskGraph {
  import opened Wrappers
  import opened CodePoints
  import opened DecimalNotation
  import opened Tasks

  datatype Link = Link(source: Id, target: Id)

  datatype Event =
    | TaskCreated(id: Id, name: Str)
    | DependencyBlocked(id: Id, source: Id)
    | StateChanged(id: Id, previous: TaskState, resulting: TaskState)
    | TerminallyPrevented(id: Id, source: Id, why: Str, terminal: bool)
    | ApprovalRejected(id: Id, why: Str)
    | TaskRejected(id: Id, why: Str)
    | ApprovalGranted(id: Id, why: Str)
    | ApprovalRequested(id: Id, why: Str)
    | TaskFailed(id: Id, why: Str)
    | TaskCompleted(id: Id, payload: map<Str, Str>)
    | PreDispatchPolicy(id: Id, allowed: bool)
    | ExecutionStarted(id: Id, resulting: TaskState)

  /** The append-only history; a graph and a dispatcher may share one. */
  class TaskAuditLog {
    var events: seq<Event>

    constructor ()
      ensures events == []
    {
      events := [];
    }

    method Record(e: Event)
      modifies this
      ensures events == old(events) + [e]
    {
      events := events + [e];
    }
  }

  datatype Graph = Graph(tasks: map<Id, Task>, links: seq<Link>, events: seq<Event>)

  /** The graph afterwards, and what the call returns or raises. */
  datatype Outcome<+T> = Outcome(graph: Graph, result: Result<T, Error>)

  function Done(g: Graph): set<Id> { set id | id in g.tasks && g.tasks[id].state == Completed }

  function WithTask(g: Graph, id: Id, t: Task): Graph { g.(tasks := g.tasks[id := t]) }

  function WithEvent(g: Graph, e: Event): Graph { g.(events := g.events + [e]) }

  function WithLink(g: Graph, l: Link): Graph { g.(links := g.links + [l]) }

  function TransitionTask(g: Graph, id: Id, to: TaskState, approval: Option<ApprovalState>, reason: Option<Str>): Outcome<()> {
    if id !in g.tasks then Outcome(g, Err(UnknownTask))
    else
      var r := Transition(g.tasks[id], to, approval, reason, Done(g));
      if r.Err? then Outcome(g, Err(r.error))
      else Outcome(WithEvent(WithTask(g, id, r.value), StateChanged(id, g.tasks[id].state, to)), Ok(()))
  }

  // ------------------------------------------------------------ spreading a failure

  /** The tasks recorded as depending on a task, in either of the two records. */
  function TargetsOf(g: Graph, source: Id): set<Id> {
    (set l | l in g.links && l.source == source :: l.target)
    + (set id | id in g.tasks && source in g.tasks[id].dependencies)
  }

  /** The breadth-first search over dependents, as it stands. */
  datatype Search = Search(graph: Graph, queue: seq<Id>, seen: set<Id>, affected: seq<Id>)

  datatype Visit = Visit(search: Search, error: Option<Error>)

  function Stopped(g: Graph, target: Id, why: Str): Outcome<()>
    requires target in g.tasks
  {
    if g.tasks[target].state in {Blocked, Failed} then Outcome(g, Ok(())) else TransitionTask(g, target, Blocked, None, Some(why))
  }

  function VisitTarget(s: Search, source: Id, target: Id, why: Str, terminal: bool): Visit {
    if target in s.seen || target !in s.graph.tasks then Visit(s, None)
    else
      var found := s.(seen := s.seen + {target}, queue := s.queue + [target]);
      if Terminal(s.graph.tasks[target].state) then Visit(found, None)
      else
        var stopped := Stopped(s.graph, target, why);
        if stopped.result.Err? then Visit(found.(graph := stopped.graph), Some(stopped.result.error))
        else
          var marked := WithTask(stopped.graph, target, Prevent(stopped.graph.tasks[target], why, terminal));
          Visit(found.(graph := WithEvent(marked, TerminallyPrevented(target, source, why, terminal)), affected := s.affected + [target]), None)
  }

  function VisitTargets(s: Search, source: Id, targets: seq<Id>, why: Str, terminal: bool): Visit
    decreases |targets|
  {
    if targets == [] then Visit(s, None)
    else
      var v := VisitTarget(s, source, targets[0], why, terminal);
      if v.error.Some? then v else VisitTargets(v.search, source, targets[1..], why, terminal)
  }

  function Unseen(s: Search): set<Id> { s.graph.tasks.Keys - s.seen }

  lemma {:induction false} VisitTargetsShrinks(s: Search, source: Id, targets: seq<Id>, why: Str, terminal: bool)
    ensures var v := VisitTargets(s, source, targets, why, terminal).search;
      (v.queue == s.queue && Unseen(v) == Unseen(s)) || Unseen(v) < Unseen(s)
    decreases |targets|
  {
    if targets != [] {
      var v := VisitTarget(s, source, targets[0], why, terminal);
      assert v.search == s || (Unseen(v.search) == Unseen(s) - {targets[0]} && targets[0] in Unseen(s));
      if v.error == None { VisitTargetsShrinks(v.search, source, targets[1..], why, terminal); }
    }
  }

  function Spread(s: Search, why: Str, terminal: bool): Visit
    decreases Unseen(s), |s.queue|
  {
    if s.queue == [] then Visit(s, None)
    else
      var rest := s.(queue := s.queue[1..]);
      var targets := Sorted(TargetsOf(s.graph, s.queue[0]));
      VisitTargetsShrinks(rest, s.queue[0], targets, why, terminal);
      var v := VisitTargets(rest, s.queue[0], targets, why, terminal);
      if v.error.Some? then v else Spread(v.search, why, terminal)
  }

  function PropagateFailure(g: Graph, id: Id, why: Str, terminal: bool): Outcome<seq<Id>> {
    var v := Spread(Search(g, [id], {id}, []), why, terminal);
    Outcome(v.search.graph, if v.error.Some? then Err(v.error.value) else Ok(v.search.affected))
  }

  // ------------------------------------------------------------ approvals and results

  /** Python's `reason or default`: an absent or empty reason gives way. */
  function OrElse(reason: Option<Str>, default: Str): Str {
    if reason == None || reason == Some([]) then default else reason.value
  }

  const APPROVAL_REJECTED := "Approval rejected."
  const APPROVAL_GRANTED := "Approval granted."
  const APPROVAL_PENDING := "Approval pending."

  function After(o: Outcome<seq<Id>>): Outcome<()> { Outcome(o.graph, if o.result.Err? then Err(o.result.error) else Ok(())) }

  function Reject(g: Graph, id: Id, why: Str): Outcome<()> {
    var o := TransitionTask(g, id, Rejected, Some(Refused), Some(why));
    if o.result.Err? then o
    else After(PropagateFailure(WithEvent(WithEvent(o.graph, ApprovalRejected(id, why)), TaskRejected(id, why)), id, why, true))
  }

  function Grant(g: Graph, id: Id, why: Str): Outcome<()>
    requires id in g.tasks
  {
    if !Compatible(g.tasks[id].state, Approved) then Outcome(g, Err(IncompatibleApproval))
    else Outcome(WithEvent(WithTask(g, id, g.tasks[id].(approval := Approved)), ApprovalGranted(id, why)), Ok(()))
  }

  function Request(g: Graph, id: Id, approval: ApprovalState, reason: Option<Str>): Outcome<()>
    requires id in g.tasks
  {
    var why := OrElse(reason, FromAscii(APPROVAL_PENDING));
    if g.tasks[id].state == Blocked then
      if !Compatible(Blocked, approval) then Outcome(g, Err(IncompatibleApproval))
      else Outcome(WithEvent(WithTask(g, id, g.tasks[id].(approval := approval)), ApprovalRequested(id, why)), Ok(()))
    else
      var o := TransitionTask(g, id, Blocked, Some(approval), reason);
      if o.result.Err? then o else Outcome(WithEvent(o.graph, ApprovalRequested(id, why)), Ok(()))
  }

  function ApproveTask(g: Graph, id: Id, approval: ApprovalState, reason: Option<Str>): Outcome<()> {
    if id !in g.tasks then Outcome(g, Err(UnknownTask))
    else if Terminal(g.tasks[id].state) then Outcome(g, Err(TerminalTask))
    else
      match approval
      case Refused => Reject(g, id, OrElse(reason, FromAscii(APPROVAL_REJECTED)))
      case Approved => Grant(g, id, OrElse(reason, FromAscii(APPROVAL_GRANTED)))
      case AwaitingApproval => Request(g, id, AwaitingApproval, reason)
      case Escalated => Request(g, id, Escalated, reason)
      case NotRequired => Outcome(g, Ok(()))
  }

  /** `"; ".join(errors)` */
  function Joined(errors: seq<Str>): Str {
    if errors == [] then [] else if |errors| == 1 then errors[0] else errors[0] + FromAscii("; ") + Joined(errors[1..])
  }

  function MarkResult(g: Graph, id: Id, payload: map<Str, Str>, errors: seq<Str>): Outcome<()> {
    if id !in g.tasks then Outcome(g, Err(UnknownTask))
    else
      var why := Joined(errors);
      var o := if errors != [] then TransitionTask(g, id, Failed, None, Some(why)) else TransitionTask(g, id, Completed, None, None);
      if o.result.Err? then o
      else
        var t := o.graph.tasks[id].(payload := payload, errors := errors);
        var marked := WithTask(o.graph, id, t);
        if errors == [] then Outcome(WithEvent(marked, TaskCompleted(id, payload)), Ok(()))
        else After(PropagateFailure(WithEvent(marked, TaskFailed(id, why)), id, why, !HasBudget(t)))
  }

  // ------------------------------------------------------------ dispatching

  /** A dispatcher starts the task outside the graph's own methods: through ASSIGNED, and with
      no change of state recorded but the start itself, in the log it was handed, if any. */
  function StartTask(g: Graph, id: Id, completed: set<Id>, logged: bool): Graph {
    if id !in g.tasks || !MayStart(g.tasks[id], completed) then g
    else
      var started := WithTask(g, id, g.tasks[id].(state := InProgress, reason := None));
      if logged then WithEvent(WithEvent(started, PreDispatchPolicy(id, true)), ExecutionStarted(id, InProgress)) else started
  }

  // ------------------------------------------------------------ the mission as a whole

  datatype MissionState = MissionCompleted | MissionCancelled | MissionFailed | MissionBlocked | MissionRejected

  predicate SomeTask(g: Graph, s: TaskState) { exists id :: id in g.tasks && g.tasks[id].state == s }

  predicate SomeTaskPrevented(g: Graph) { exists id :: id in g.tasks && g.tasks[id].state == Blocked && g.tasks[id].prevented }

  predicate AllCompleted(g: Graph) { forall id :: id in g.tasks ==> g.tasks[id].state == Completed }

  function MissionStateOf(g: Graph): MissionState {
    if |g.tasks.Keys| == 0 then MissionBlocked
    else if SomeTask(g, Rejected) then MissionRejected
    else if SomeTask(g, Failed) then MissionFailed
    else if SomeTaskPrevented(g) then MissionFailed
    else if SomeTask(g, Cancelled) then MissionCancelled
    else if AllCompleted(g) then MissionCompleted
    else MissionBlocked
  }

  // ------------------------------------------------------------ a graph from a plan

  datatype Step = Step(name: Str, approvalRequired: bool)

  function TaskId(request: Str, n: nat): Id { FromAscii("task_") + request + FromAscii("_") + Digits(n) }

  function Digits(n: nat): (r: Str)
    ensures |r| == |Plain(n)| && forall i :: 0 <= i < |r| ==> r[i] == Plain(n)[i] as int
  {
    PlainIsDigits(n);
    FromAscii(Plain(n))
  }

  function FirstApproval(step: Step, approved: bool): ApprovalState {
    if step.approvalRequired && approved then Approved else if step.approvalRequired then AwaitingApproval else NotRequired
  }

  function FirstTask(step: Step, approved: bool, dependencies: seq<Id>): Task {
    Task(Pending, FirstApproval(step, approved), dependencies, 0, 3, true, None, map[], [], false, None)
  }

  /** Step n depends on step n - 1; steps are numbered from 1. */
  function WithStep(g: Graph, request: Str, n: nat, step: Step, approved: bool): Graph
    requires n > 0
  {
    var id, prior := TaskId(request, n), TaskId(request, n - 1);
    var first := n == 1;
    Graph(g.tasks[id := FirstTask(step, approved, if first then [] else [prior])],
          g.links + (if first then [] else [Link(prior, id)]),
          g.events + [TaskCreated(id, step.name)] + (if first then [] else [DependencyBlocked(id, prior)]))
  }

  /** The same, in the order in which the records are written. */
  lemma StepByStep(g: Graph, request: Str, n: nat, step: Step, approved: bool)
    requires n > 0
    ensures var id, prior := TaskId(request, n), TaskId(request, n - 1);
      var placed := WithEvent(WithTask(g, id, FirstTask(step, approved, [])), TaskCreated(id, step.name));
      var linked := WithTask(WithLink(placed, Link(prior, id)), id, FirstTask(step, approved, [prior]));
      WithStep(g, request, n, step, approved) == if n > 1 then WithEvent(linked, DependencyBlocked(id, prior)) else placed
  {
    hide TaskId;
    var id, prior := TaskId(request, n), TaskId(request, n - 1);
    var t, u := FirstTask(step, approved, []), FirstTask(step, approved, [prior]);
    assert g.tasks[id := t][id := u] == g.tasks[id := u];
  }

  function FromPlan(request: Str, approved: bool, steps: seq<Step>): Graph {
    var n := |steps|;
    if n == 0 then Graph(map[], [], [])
    else WithStep(FromPlan(request, approved, steps[..n - 1]), request, n, steps[n - 1], approved)
  }
}
