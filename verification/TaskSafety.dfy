/** Safety of every run of a mission: the invariant, finality, bounded execution, no
    execution behind a doomed task, and calls that cannot raise half-way. */
module TaskSafety {
  import opened Wrappers
  import opened CodePoints
  import opened Digraph
  import opened DecimalNotation
  import opened Tasks
  import opened TaskGraph
  import opened FailurePropagation
  import opened TaskRuns

  /** Past BLOCKED: a task gets here only through READY. */
  predicate Underway(s: TaskState) { s in {Ready, Assigned, InProgress, Failed, RetryPending, Completed} }

  predicate DependenciesDone(g: Graph, t: Task) { forall d :: d in t.dependencies ==> d in Done(g) }

  predicate SoundTask(g: Graph, t: Task) {
    && Compatible(t.state, t.approval)
    && (Underway(t.state) ==> DependenciesDone(g, t))
    && (t.retries == 0 || (t.retryable && t.retries <= t.maxRetries))
  }

  /** The link list records no dependency that the tasks themselves do not. */
  predicate LinksAgree(g: Graph) {
    forall l :: l in g.links && l.target in g.tasks ==> l.source in g.tasks[l.target].dependencies
  }

  ghost predicate SoundGraph(g: Graph) { LinksAgree(g) && forall id :: id in g.tasks ==> SoundTask(g, g.tasks[id]) }

  /** A graph as built from a plan, before any call on it. */
  ghost predicate FreshGraph(g: Graph) {
    && LinksAgree(g)
    && forall id :: id in g.tasks ==> g.tasks[id].state == Pending && g.tasks[id].retries == 0 && Compatible(Pending, g.tasks[id].approval)
  }

  // ------------------------------------------------------------ the invariant of every run

  lemma DoneGrows(g: Graph, h: Graph)
    requires Steps(g, h)
    ensures Done(g) <= Done(h)
  {
    forall id | id in Done(g) ensures id in Done(h) { assert TaskStep(g.tasks[id], h.tasks[id], Done(g)); }
  }

  lemma SoundTaskKept(g: Graph, h: Graph, id: Id)
    requires Steps(g, h) && id in g.tasks && SoundTask(g, g.tasks[id])
    ensures SoundTask(h, h.tasks[id])
  {
    hide Done;
    DoneGrows(g, h);
    assert TaskStep(g.tasks[id], h.tasks[id], Done(g));
  }

  lemma SoundKept(g: Graph, h: Graph)
    requires SoundGraph(g) && Steps(g, h)
    ensures SoundGraph(h)
  {
    hide Done, SoundTask;
    forall id | id in h.tasks ensures SoundTask(h, h.tasks[id]) { SoundTaskKept(g, h, id); }
    forall l | l in h.links && l.target in h.tasks ensures l.source in h.tasks[l.target].dependencies {
      assert TaskStep(g.tasks[l.target], h.tasks[l.target], Done(g));
    }
  }

  lemma FreshIsSound(g: Graph)
    requires FreshGraph(g)
    ensures SoundGraph(g)
  {}

  /** In every reachable graph, tasks past BLOCKED have all dependencies completed,
      and state and approval fit together. */
  lemma {:induction false} RunSound(g: Graph, ops: seq<Operation>)
    requires SoundGraph(g)
    ensures SoundGraph(Run(g, ops))
    decreases |ops|
  {
    hide SoundGraph, Steps, Apply, Done;
    if ops != [] {
      ApplySteps(g, ops[0]);
      SoundKept(g, Apply(g, ops[0]));
      RunSound(Apply(g, ops[0]), ops[1..]);
    }
  }

  /** A dispatcher believes what it is told of completed tasks, yet cannot be fooled: a task it
      would start passes the same check against the tasks that really are completed. */
  lemma CannotBeFooled(g: Graph, id: Id, told: set<Id>)
    requires SoundGraph(g) && id in g.tasks && MayStart(g.tasks[id], told)
    ensures MayStart(g.tasks[id], Done(g))
  {}

  /** So whatever starts a task, all its dependencies are completed and nothing asks for approval. */
  lemma StartedWhenDone(g: Graph, op: Operation, id: Id)
    requires SoundGraph(g) && StartsIn(g, Apply(g, op), id)
    ensures DependenciesDone(g, g.tasks[id]) && Apply(g, op).tasks[id].approval in {NotRequired, Approved}
  {
    hide Apply, Done;
    ApplySteps(g, op);
    assert TaskStep(g.tasks[id], Apply(g, op).tasks[id], Done(g));
    assert SoundTask(g, g.tasks[id]);
  }

  // ------------------------------------------------------------ finality

  lemma {:induction false} RunKeepsTask(g: Graph, ops: seq<Operation>, id: Id)
    requires id in g.tasks
    ensures Run(g, ops).links == g.links && Run(g, ops).tasks.Keys == g.tasks.Keys
    ensures var t, u := g.tasks[id], Run(g, ops).tasks[id];
      u.dependencies == t.dependencies && u.maxRetries == t.maxRetries && u.retryable == t.retryable
    decreases |ops|
  {
    hide Apply, Done, Stays, Moves, Begins, Terminal;
    if ops != [] {
      ApplySteps(g, ops[0]);
      assert TaskStep(g.tasks[id], Apply(g, ops[0]).tasks[id], Done(g));
      RunKeepsTask(Apply(g, ops[0]), ops[1..], id);
    }
  }

  /** A completed, rejected or cancelled task never changes again in any respect. */
  lemma {:induction false} TerminalIsFinal(g: Graph, ops: seq<Operation>, id: Id)
    requires id in g.tasks && Terminal(g.tasks[id].state)
    ensures id in Run(g, ops).tasks && Run(g, ops).tasks[id] == g.tasks[id]
    decreases |ops|
  {
    hide Apply, Done, Stays, Moves, Begins, Terminal;
    if ops != [] {
      ApplySteps(g, ops[0]);
      assert TaskStep(g.tasks[id], Apply(g, ops[0]).tasks[id], Done(g));
      TerminalIsFinal(Apply(g, ops[0]), ops[1..], id);
    }
  }

  /** A mission reported completed or rejected stays so. */
  lemma OutcomeIsFinal(g: Graph, ops: seq<Operation>)
    requires MissionStateOf(g) in {MissionCompleted, MissionRejected}
    ensures MissionStateOf(Run(g, ops)) == MissionStateOf(g)
  {
    hide Run;
    var h := Run(g, ops);
    var some :| some in g.tasks && (MissionStateOf(g) == MissionRejected ==> g.tasks[some].state == Rejected);
    RunKeepsTask(g, ops, some);
    FinalStays(g, ops, some);
  }

  lemma FinalStays(g: Graph, ops: seq<Operation>, some: Id)
    requires MissionStateOf(g) in {MissionCompleted, MissionRejected}
    requires some in g.tasks && (MissionStateOf(g) == MissionRejected ==> g.tasks[some].state == Rejected)
    requires Run(g, ops).tasks.Keys == g.tasks.Keys
    ensures MissionStateOf(Run(g, ops)) == MissionStateOf(g)
  {
    hide Run;
    var h := Run(g, ops);
    forall id | id in g.tasks && Terminal(g.tasks[id].state) ensures id in h.tasks && h.tasks[id] == g.tasks[id] { TerminalIsFinal(g, ops, id); }
  }

  // ------------------------------------------------------------ bounded execution

  predicate StartsIn(g: Graph, h: Graph, id: Id) {
    id in g.tasks && id in h.tasks && g.tasks[id].state != InProgress && h.tasks[id].state == InProgress
  }

  /** How often the task enters IN_PROGRESS during the run. */
  function Starts(g: Graph, ops: seq<Operation>, id: Id): nat
    decreases |ops|
  {
    if ops == [] then 0
    else (if StartsIn(g, Apply(g, ops[0]), id) then 1 else 0) + Starts(Apply(g, ops[0]), ops[1..], id)
  }

  /** Entries made, as the task's own record implies them: least and most. */
  function FewestStarts(t: Task): nat { t.retries + if t.state in {InProgress, Failed, Completed} then 1 else 0 }

  function MostStarts(t: Task): nat { t.retries + if t.state in {InProgress, Failed, Completed, Rejected, Cancelled} then 1 else 0 }

  lemma StartsStep(t: Task, u: Task, done: set<Id>)
    requires TaskStep(t, u, done)
    ensures var entered := if t.state != InProgress && u.state == InProgress then 1 else 0;
      FewestStarts(u) - FewestStarts(t) <= entered <= MostStarts(u) - MostStarts(t)
  {}

  lemma {:induction false} StartsBetween(g: Graph, ops: seq<Operation>, id: Id)
    requires id in g.tasks
    ensures id in Run(g, ops).tasks
    ensures FewestStarts(Run(g, ops).tasks[id]) - FewestStarts(g.tasks[id]) <= Starts(g, ops, id)
    ensures Starts(g, ops, id) <= MostStarts(Run(g, ops).tasks[id]) - MostStarts(g.tasks[id])
    decreases |ops|
  {
    hide Apply, Done, TaskStep, FewestStarts, MostStarts;
    if ops != [] {
      var h := Apply(g, ops[0]);
      ApplySteps(g, ops[0]);
      StartsStep(g.tasks[id], h.tasks[id], Done(g));
      StartsBetween(h, ops[1..], id);
    }
  }

  /** Entries into IN_PROGRESS equal the retries, plus one once started in the current
      round; so no task is started more than `max_retries + 1` times. */
  lemma BoundedExecution(g: Graph, ops: seq<Operation>, id: Id)
    requires FreshGraph(g) && id in g.tasks
    ensures id in Run(g, ops).tasks
    ensures var t, n := Run(g, ops).tasks[id], Starts(g, ops, id);
      && (t.state in {Pending, Blocked, Ready, Assigned, RetryPending} ==> n == t.retries)
      && (t.state in {InProgress, Failed, Completed} ==> n == t.retries + 1)
      && (t.state in {Rejected, Cancelled} ==> t.retries <= n <= t.retries + 1)
      && n <= 1 + (if t.retryable && t.maxRetries >= 0 then t.maxRetries else 0)
  {
    hide Run, Starts, SoundTask;
    FreshIsSound(g);
    RunSound(g, ops);
    StartsBetween(g, ops, id);
    SoundRetries(Run(g, ops), Run(g, ops).tasks[id]);
  }

  lemma SoundRetries(g: Graph, t: Task)
    requires SoundTask(g, t)
    ensures t.retries == 0 || (t.retryable && t.retries <= t.maxRetries)
  {}

  // ------------------------------------------------------------ nothing starts behind a doomed task

  /** Rejected, cancelled, or failed with no retry left. */
  predicate Doomed(t: Task) { t.state in {Rejected, Cancelled} || (t.state == Failed && !HasBudget(t)) }

  lemma DoomedStep(t: Task, u: Task, done: set<Id>)
    requires Doomed(t) && TaskStep(t, u, done)
    ensures Doomed(u)
  {}

  /** Downstream of a task that is not completed, nothing is past BLOCKED. */
  lemma {:induction false} WalkHeldBack(g: Graph, id: Id, p: seq<Id>)
    requires SoundGraph(g) && id !in Done(g)
    requires IsWalk(EdgesOf(g), p) && p[0] == id && |p| > 1
    ensures p[|p| - 1] in g.tasks && !Underway(g.tasks[p[|p| - 1]].state)
  {
    hide SoundTask, EdgesOf, TargetsOf;
    var q, a, b := p[..|p| - 1], p[|p| - 2], p[|p| - 1];
    assert (p[|p| - 2], p[|p| - 1]) in EdgesOf(g);
    EdgeIsDependency(g, a, b);
    if |q| > 1 { WalkHeldBack(g, id, q); }
    NotDone(g, a);
    HeldBack(g, a, b);
  }

  lemma NotDone(g: Graph, id: Id)
    ensures id in Done(g) ==> id in g.tasks && Underway(g.tasks[id].state)
  {}

  lemma EdgeIsDependency(g: Graph, a: Id, b: Id)
    requires LinksAgree(g) && (a, b) in EdgesOf(g)
    ensures b in g.tasks && a in g.tasks[b].dependencies
  {}

  lemma HeldBack(g: Graph, a: Id, b: Id)
    requires b in g.tasks && SoundTask(g, g.tasks[b]) && a in g.tasks[b].dependencies && a !in Done(g)
    ensures !Underway(g.tasks[b].state)
  {}

  lemma DownstreamHeldBack(g: Graph, id: Id, t: Id)
    requires SoundGraph(g) && id !in Done(g) && Downstream(g, id, t)
    ensures !Underway(g.tasks[t].state)
  {
    hide EdgesOf, SoundGraph, Underway;
    var p :| IsWalkBetween(EdgesOf(g), p, id, t);
    WalkHeldBack(g, id, p);
  }

  lemma SameDownstream(g: Graph, h: Graph, id: Id, t: Id)
    requires Steps(g, h) && Downstream(g, id, t)
    ensures Downstream(h, id, t)
  {
    hide EdgesOf, Stays, Moves, Begins, Terminal, Done;
    assert forall k :: k in g.tasks ==> TaskStep(g.tasks[k], h.tasks[k], Done(g));
    SameEdges(g, h);
  }

  /** Once a task is doomed, no continuation of the run ever starts, or finishes, a task downstream of it. */
  lemma {:induction false} NothingStartsBehindDoomed(g: Graph, ops: seq<Operation>, id: Id, t: Id)
    requires SoundGraph(g)
    requires id in g.tasks && Doomed(g.tasks[id]) && Downstream(g, id, t)
    ensures Starts(g, ops, t) == 0
    ensures t in Run(g, ops).tasks && !Underway(Run(g, ops).tasks[t].state)
    ensures id in Run(g, ops).tasks && Doomed(Run(g, ops).tasks[id])
    decreases |ops|
  {
    hide Apply, SoundGraph, Steps, Downstream, Doomed, Done;
    DoomedNotDone(g, id);
    DownstreamHeldBack(g, id, t);
    DownstreamIsTask(g, id);
    if ops != [] {
      var h := Apply(g, ops[0]);
      ApplySteps(g, ops[0]);
      SoundKept(g, h);
      SameDownstream(g, h, id, t);
      DoomedKept(g, h, id);
      NothingStartsBehindDoomed(h, ops[1..], id, t);
      DoomedNotDone(h, id);
      DownstreamHeldBack(h, id, t);
    }
  }

  lemma DoomedNotDone(g: Graph, id: Id)
    requires id in g.tasks && Doomed(g.tasks[id])
    ensures id !in Done(g)
  {}

  lemma DoomedKept(g: Graph, h: Graph, id: Id)
    requires Steps(g, h) && id in g.tasks && Doomed(g.tasks[id])
    ensures id in h.tasks && Doomed(h.tasks[id])
  {
    hide Doomed, TaskStep, Done;
    DoomedStep(g.tasks[id], h.tasks[id], Done(g));
  }

  // ------------------------------------------------------------ calls that cannot raise half-way

  lemma HeldBackCanStop(g: Graph, t: Task)
    requires SoundTask(g, t) && !Underway(t.state) && !Terminal(t.state)
    ensures CanStop(t) && forall why, terminal :: AfterStop(t, why, terminal).state == Blocked
  {}

  /** Unless its start is completed, a spreading failure never raises, and it leaves
      every task it returns BLOCKED. */
  lemma PropagationNeverRaises(g: Graph, id: Id, why: Str, terminal: bool)
    requires SoundGraph(g) && id !in Done(g)
    ensures var o := PropagateFailure(g, id, why, terminal);
      && o.result.Ok? && Stops(g, o.graph, id, o.result.value, why, terminal)
      && forall t :: t in o.result.value ==> t in o.graph.tasks && o.graph.tasks[t].state == Blocked && o.graph.tasks[t].prevented == terminal
  {
    hide PropagateFailure, SoundTask, Downstream, CanStop, Done, Underway, Terminal;
    PropagationMeaning(g, id, why, terminal);
    DownstreamIsTask(g, id);
    forall t | Affected(g, id, t) ensures t in g.tasks && CanStop(g.tasks[t]) && AfterStop(g.tasks[t], why, terminal).state == Blocked {
      DownstreamHeldBack(g, id, t);
      HeldBackCanStop(g, g.tasks[t]);
    }
  }

  /** From a completed task it raises exactly when something downstream is running. */
  lemma PropagationRaisesWhen(g: Graph, id: Id, why: Str, terminal: bool)
    requires SoundGraph(g)
    ensures PropagateFailure(g, id, why, terminal).result.Err? <==> exists t :: Downstream(g, id, t) && g.tasks[t].state == InProgress
  {
    hide PropagateFailure, Downstream, SoundTask;
    PropagationMeaning(g, id, why, terminal);
    DownstreamIsTask(g, id);
    forall t | t in g.tasks && !Terminal(g.tasks[t].state) ensures CanStop(g.tasks[t]) <==> g.tasks[t].state != InProgress {
      CanStopWhen(g, g.tasks[t]);
    }
  }

  lemma CanStopWhen(g: Graph, t: Task)
    requires SoundTask(g, t) && !Terminal(t.state)
    ensures CanStop(t) <==> t.state != InProgress
  {}

  lemma StepToKeepsSound(g: Graph, id: Id, to: TaskState, approval: Option<ApprovalState>, reason: Option<Str>)
    requires SoundGraph(g)
    ensures SoundGraph(TransitionTask(g, id, to, approval, reason).graph)
  {
    hide SoundGraph, TransitionTask, Steps;
    TransitionTaskSteps(g, id, to, approval, reason);
    SoundKept(g, TransitionTask(g, id, to, approval, reason).graph);
  }

  /** A refusal goes through exactly for a known task that is neither finished nor
      running; then everything unfinished downstream is stopped for good. */
  lemma RefusalMeaning(g: Graph, id: Id, reason: Option<Str>)
    requires SoundGraph(g)
    ensures var o := ApproveTask(g, id, Refused, reason);
      && (o.result.Ok? <==> id in g.tasks && !Terminal(g.tasks[id].state) && g.tasks[id].state != InProgress)
      && (o.result.Ok? ==> id in o.graph.tasks && o.graph.tasks[id].state == Rejected && BlockedBehind(g, o.graph, id))
      && (o.result.Err? ==> o.graph == g)
  {
    hide SoundGraph, Reject, OrElse, BlockedBehind, Terminal;
    if id in g.tasks && !Terminal(g.tasks[id].state) { RejectMeaning(g, id, OrElse(reason, FromAscii(APPROVAL_REJECTED))); }
  }

  lemma RejectMeaning(g: Graph, id: Id, why: Str)
    requires SoundGraph(g) && id in g.tasks && !Terminal(g.tasks[id].state)
    ensures var o := Reject(g, id, why);
      && (o.result.Ok? <==> g.tasks[id].state != InProgress)
      && (o.result.Ok? ==> id in o.graph.tasks && o.graph.tasks[id].state == Rejected && BlockedBehind(g, o.graph, id))
      && (o.result.Err? ==> o.graph == g)
  {
    hide SoundGraph, PropagateFailure, BlockedBehind;
    if g.tasks[id].state != InProgress {
      StepToKeepsSound(g, id, Rejected, Some(Refused), Some(why));
      var g1 := TransitionTask(g, id, Rejected, Some(Refused), Some(why)).graph;
      var g2 := WithEvent(WithEvent(g1, ApprovalRejected(id, why)), TaskRejected(id, why));
      LogIsNoMatter(g1, g2);
      BehindBlocked(g, g2, id, why);
    }
  }

  /** Every unfinished task downstream ends BLOCKED and prevented. */
  ghost predicate BlockedBehind(g: Graph, h: Graph, id: Id) {
    forall t :: Affected(g, id, t) ==> t in h.tasks && h.tasks[t].state == Blocked && h.tasks[t].prevented
  }

  lemma LogIsNoMatter(g: Graph, h: Graph)
    requires SoundGraph(g) && h.tasks == g.tasks && h.links == g.links
    ensures SoundGraph(h)
  {}

  lemma BehindBlocked(g: Graph, g2: Graph, id: Id, why: Str)
    requires SoundGraph(g2) && id in g.tasks && g2.tasks.Keys == g.tasks.Keys && g2.links == g.links
    requires forall k :: k in g.tasks ==> g2.tasks[k].dependencies == g.tasks[k].dependencies && (k != id ==> g2.tasks[k] == g.tasks[k])
    requires id !in Done(g2)
    ensures var o := PropagateFailure(g2, id, why, true);
      o.result.Ok? && id in o.graph.tasks && o.graph.tasks[id] == g2.tasks[id] && BlockedBehind(g, o.graph, id)
  {
    hide SoundGraph, PropagateFailure, EdgesOf, Done, Terminal;
    PropagationNeverRaises(g2, id, why, true);
    SameEdges(g, g2);
    forall t ensures Affected(g, id, t) <==> Affected(g2, id, t) {}
  }

  /** A result is accepted exactly for a running task, and then never raises. */
  lemma ResultMeaning(g: Graph, id: Id, payload: map<Str, Str>, errors: seq<Str>)
    requires SoundGraph(g)
    ensures var o := MarkResult(g, id, payload, errors);
      && (o.result.Ok? <==> id in g.tasks && g.tasks[id].state == InProgress)
      && (o.result.Ok? ==> id in o.graph.tasks && o.graph.tasks[id].state == if errors == [] then Completed else Failed)
      && (o.result.Ok? && errors != [] && !HasBudget(g.tasks[id]) ==> BlockedBehind(g, o.graph, id))
      && (o.result.Err? ==> o.graph == g)
  {
    hide SoundGraph, PropagateFailure, Joined, BlockedBehind, HasBudget;
    if id in g.tasks && g.tasks[id].state == InProgress {
      RunningIsCompatible(g, id);
      if errors != [] { FailureMeaning(g, id, payload, errors); }
    }
  }

  lemma RunningIsCompatible(g: Graph, id: Id)
    requires SoundGraph(g) && id in g.tasks && g.tasks[id].state == InProgress
    ensures Compatible(Failed, g.tasks[id].approval) && Compatible(Completed, g.tasks[id].approval)
  {}

  /** The graph in which a failed result is recorded and not yet spread. */
  function FailedGraph(g: Graph, id: Id, payload: map<Str, Str>, errors: seq<Str>): Graph
    requires id in g.tasks
  {
    var g1 := TransitionTask(g, id, Failed, None, Some(Joined(errors))).graph;
    WithEvent(WithTask(g1, id, g1.tasks[id].(payload := payload, errors := errors)), TaskFailed(id, Joined(errors)))
  }

  ghost predicate RecordsFailure(g: Graph, f: Graph, id: Id)
    requires id in g.tasks
  {
    && f.tasks.Keys == g.tasks.Keys && f.links == g.links && f.tasks[id].state == Failed && HasBudget(f.tasks[id]) == HasBudget(g.tasks[id])
    && f.tasks[id].prevented == g.tasks[id].prevented && f.tasks[id].dependencies == g.tasks[id].dependencies
    && forall t :: t in g.tasks && t != id ==> f.tasks[t] == g.tasks[t]
  }

  lemma FailureIsSpread(g: Graph, id: Id, payload: map<Str, Str>, errors: seq<Str>)
    requires id in g.tasks && g.tasks[id].state == InProgress && Compatible(Failed, g.tasks[id].approval) && errors != []
    ensures RecordsFailure(g, FailedGraph(g, id, payload, errors), id)
    ensures MarkResult(g, id, payload, errors)
      == After(PropagateFailure(FailedGraph(g, id, payload, errors), id, Joined(errors), !HasBudget(g.tasks[id])))
  {
    hide PropagateFailure, Joined, Done;
  }

  lemma FailureIsSound(g: Graph, id: Id, payload: map<Str, Str>, errors: seq<Str>)
    requires SoundGraph(g) && id in g.tasks && g.tasks[id].state == InProgress && errors != []
    ensures Compatible(Failed, g.tasks[id].approval) && SoundGraph(FailedGraph(g, id, payload, errors))
  {
    hide SoundGraph, Joined, Tasks.Transition;
    var why := Joined(errors);
    RunningIsCompatible(g, id);
    StepToKeepsSound(g, id, Failed, None, Some(why));
    var g1 := TransitionTask(g, id, Failed, None, Some(why)).graph;
    var t := g1.tasks[id].(payload := payload, errors := errors);
    ResultKeepsSound(g1, WithEvent(WithTask(g1, id, t), TaskFailed(id, why)), id, t);
  }

  lemma FailedNotDone(g: Graph, f: Graph, id: Id)
    requires id in g.tasks && RecordsFailure(g, f, id)
    ensures id !in Done(f)
  {}

  lemma FailureMeaning(g: Graph, id: Id, payload: map<Str, Str>, errors: seq<Str>)
    requires SoundGraph(g) && id in g.tasks && g.tasks[id].state == InProgress && errors != []
    ensures var o := MarkResult(g, id, payload, errors);
      && o.result.Ok? && id in o.graph.tasks && o.graph.tasks[id].state == Failed
      && (!HasBudget(g.tasks[id]) ==> BlockedBehind(g, o.graph, id))
  {
    hide SoundGraph, MarkResult, FailedGraph, PropagateFailure, Joined, BlockedBehind, HasBudget, Done;
    var f, why, terminal := FailedGraph(g, id, payload, errors), Joined(errors), !HasBudget(g.tasks[id]);
    FailureIsSound(g, id, payload, errors);
    FailureIsSpread(g, id, payload, errors);
    FailedNotDone(g, f, id);
    PropagationNeverRaises(f, id, why, terminal);
    PropagateTask(f, id, why, terminal, id);
    if terminal { BehindBlocked(g, f, id, why); }
  }

  lemma ResultKeepsSound(g: Graph, h: Graph, id: Id, t: Task)
    requires SoundGraph(g) && id in g.tasks && h.tasks == g.tasks[id := t] && h.links == g.links
    requires t == g.tasks[id].(payload := t.payload, errors := t.errors)
    ensures SoundGraph(h)
  {
    assert Done(h) == Done(g);
  }
}
