/** The graph of an execution plan is a chain, so its tasks run in plan order, one at a time. */
module TaskPlan {
  import opened Wrappers
  import opened CodePoints
  import opened DecimalNotation
  import opened Tasks
  import opened TaskGraph
  import opened FailurePropagation
  import opened TaskRuns
  import opened TaskSafety

  lemma DigitsInjective(m: nat, n: nat)
    requires Digits(m) == Digits(n)
    ensures m == n
  {
    forall i | 0 <= i < |Plain(m)| ensures Plain(m)[i] == Plain(n)[i] { assert Digits(m)[i] == Digits(n)[i]; }
    assert Plain(m) == Plain(n);
    NumberOfPlain(m);
    NumberOfPlain(n);
  }

  /** Distinct steps get distinct task ids. */
  lemma TaskIdInjective(request: Str, m: nat, n: nat)
    requires TaskId(request, m) == TaskId(request, n)
    ensures m == n
  {
    var prefix := FromAscii("task_") + request + FromAscii("_");
    assert TaskId(request, m)[|prefix|..] == Digits(m) && TaskId(request, n)[|prefix|..] == Digits(n);
    DigitsInjective(m, n);
  }

  function PriorOf(request: Str, k: nat): seq<Id>
    requires k > 0
  {
    if k == 1 then [] else [TaskId(request, k - 1)]
  }

  predicate IsStepTask(g: Graph, request: Str, k: nat)
    requires k > 0
  {
    && TaskId(request, k) in g.tasks
    && var t := g.tasks[TaskId(request, k)];
    && t.state == Pending && t.retries == 0 && t.maxRetries == 3 && t.retryable && !t.prevented
    && Compatible(Pending, t.approval) && t.dependencies == PriorOf(request, k)
  }

  ghost predicate IsStepId(request: Str, n: nat, id: Id) { exists k :: 0 < k <= n && id == TaskId(request, k) }

  ghost predicate IsStepLink(request: Str, n: nat, l: Link) { exists k :: 1 < k <= n && l == Link(TaskId(request, k - 1), TaskId(request, k)) }

  /** Tasks 1 to n in a chain, and nothing else. */
  ghost predicate IsChain(g: Graph, request: Str, n: nat) {
    && (forall k :: 0 < k <= n ==> IsStepTask(g, request, k))
    && (forall id :: id in g.tasks ==> IsStepId(request, n, id))
    && (forall l :: l in g.links ==> IsStepLink(request, n, l))
  }

  lemma {:induction false} PlanIsChain(request: Str, approved: bool, steps: seq<Step>)
    ensures IsChain(FromPlan(request, approved, steps), request, |steps|)
  {
    hide TaskId;
    var n := |steps|;
    if n > 0 {
      PlanIsChain(request, approved, steps[..n - 1]);
      StepExtendsChain(FromPlan(request, approved, steps[..n - 1]), request, n, steps[n - 1], approved);
    }
  }

  lemma StepExtendsChain(g: Graph, request: Str, n: nat, step: Step, approved: bool)
    requires n > 0 && IsChain(g, request, n - 1)
    ensures IsChain(WithStep(g, request, n, step, approved), request, n)
  {
    hide TaskId;
    var h := WithStep(g, request, n, step, approved);
    forall k | 0 < k <= n ensures IsStepTask(h, request, k) {
      if k < n {
        assert IsStepTask(g, request, k);
        if TaskId(request, k) == TaskId(request, n) { TaskIdInjective(request, k, n); }
      }
    }
    forall id | id in h.tasks ensures IsStepId(request, n, id) {
      if id in g.tasks { assert IsStepId(request, n - 1, id); }
    }
    forall l | l in h.links ensures IsStepLink(request, n, l) {
      if l in g.links { assert IsStepLink(request, n - 1, l); }
    }
  }

  lemma ChainIsFresh(g: Graph, request: Str, n: nat)
    requires IsChain(g, request, n)
    ensures FreshGraph(g)
  {
    hide TaskId;
    forall l | l in g.links ensures l.target in g.tasks && l.source in g.tasks[l.target].dependencies {
      assert IsStepLink(request, n, l);
      var k :| 1 < k <= n && l == Link(TaskId(request, k - 1), TaskId(request, k));
      assert IsStepTask(g, request, k);
    }
    forall id | id in g.tasks
      ensures g.tasks[id].state == Pending && g.tasks[id].retries == 0 && Compatible(Pending, g.tasks[id].approval)
    {
      assert IsStepId(request, n, id);
      var k :| 0 < k <= n && id == TaskId(request, k);
      assert IsStepTask(g, request, k);
    }
  }

  /** What a run of the plan has made of step k. */
  function StateAt(request: Str, approved: bool, steps: seq<Step>, ops: seq<Operation>, k: nat): Option<TaskState> {
    var h := Run(FromPlan(request, approved, steps), ops);
    if TaskId(request, k) in h.tasks then Some(h.tasks[TaskId(request, k)].state) else None
  }

  lemma StepWaits(request: Str, approved: bool, steps: seq<Step>, ops: seq<Operation>, k: nat)
    requires 0 < k <= |steps|
    ensures var s := StateAt(request, approved, steps, ops, k);
      s.Some? && (Underway(s.value) && k > 1 ==> StateAt(request, approved, steps, ops, k - 1) == Some(Completed))
  {
    hide TaskId, Run, FromPlan, IsChain;
    var g, n := FromPlan(request, approved, steps), |steps|;
    PlanIsChain(request, approved, steps);
    ChainIsFresh(g, request, n);
    FreshIsSound(g);
    RunSound(g, ops);
    ChainStep(g, request, n, k);
    RunKeepsTask(g, ops, TaskId(request, k));
    SoundWaits(Run(g, ops), TaskId(request, k), TaskId(request, k - 1));
  }

  lemma ChainStep(g: Graph, request: Str, n: nat, k: nat)
    requires IsChain(g, request, n) && 0 < k <= n
    ensures TaskId(request, k) in g.tasks
    ensures k > 1 ==> TaskId(request, k - 1) in g.tasks[TaskId(request, k)].dependencies
  {
    assert IsStepTask(g, request, k);
  }

  lemma SoundWaits(h: Graph, id: Id, prior: Id)
    requires SoundGraph(h) && id in h.tasks
    ensures Underway(h.tasks[id].state) && prior in h.tasks[id].dependencies ==> prior in h.tasks && h.tasks[prior].state == Completed
  {
    assert SoundTask(h, h.tasks[id]);
  }

  /** In every run a step gets past BLOCKED only when all earlier steps are completed. */
  lemma {:induction false} StepsRunInOrder(request: Str, approved: bool, steps: seq<Step>, ops: seq<Operation>, i: nat, j: nat)
    requires 0 < i < j <= |steps|
    ensures var s := StateAt(request, approved, steps, ops, j);
      s.Some? && (Underway(s.value) ==> StateAt(request, approved, steps, ops, i) == Some(Completed))
    decreases j
  {
    hide StateAt, FromPlan;
    StepWaits(request, approved, steps, ops, j);
    if i < j - 1 { StepsRunInOrder(request, approved, steps, ops, i, j - 1); }
  }

  /** In every run at most one step is past BLOCKED without being finished. */
  lemma OneStepAtATime(request: Str, approved: bool, steps: seq<Step>, ops: seq<Operation>, i: nat, j: nat)
    requires 0 < i <= |steps| && 0 < j <= |steps|
    ensures var s, t := StateAt(request, approved, steps, ops, i), StateAt(request, approved, steps, ops, j);
      && s.Some? && t.Some?
      && (Underway(s.value) && !Terminal(s.value) && Underway(t.value) && !Terminal(t.value) ==> i == j)
  {
    hide StateAt, FromPlan;
    StepWaits(request, approved, steps, ops, i);
    StepWaits(request, approved, steps, ops, j);
    if i < j { StepsRunInOrder(request, approved, steps, ops, i, j); }
    if j < i { StepsRunInOrder(request, approved, steps, ops, j, i); }
  }

  // ------------------------------------------------------------ from PENDING to IN_PROGRESS

  /** The first task of a plan, as it was made. */
  lemma {:induction false} FirstOfPlan(request: Str, approved: bool, steps: seq<Step>)
    requires steps != []
    ensures var g := FromPlan(request, approved, steps);
      TaskId(request, 1) in g.tasks && g.tasks[TaskId(request, 1)] == FirstTask(steps[0], approved, [])
  {
    hide TaskId;
    if |steps| > 1 {
      FirstOfPlan(request, approved, steps[..|steps| - 1]);
      if TaskId(request, 1) == TaskId(request, |steps|) { TaskIdInjective(request, 1, |steps|); }
    }
  }

  /** The three transitions that start a task. */
  function Beginning(id: Id): seq<Operation> {
    [Transition(id, Ready, None, None), Transition(id, Assigned, None, None), Transition(id, InProgress, None, None)]
  }

  lemma TwoCalls(g: Graph, a: Operation, b: Operation)
    ensures Run(g, [a, b][..1]) == Apply(g, a) && Run(g, [a, b]) == Apply(Apply(g, a), b)
  {
    hide Apply, Done;
    assert [a, b][..1] == [a] && [a][1..] == [] && [a, b][1..] == [b] && [b][1..] == [];
    assert Run(Apply(g, a), [b]) == Apply(Apply(g, a), b);
  }

  lemma ThreeCalls(g: Graph, a: Operation, b: Operation, c: Operation)
    ensures Run(g, [a, b, c]) == Apply(Apply(Apply(g, a), b), c)
  {
    hide Apply, Done;
    assert [a, b, c][1..] == [b, c];
    assert [b, c][1..] == [c] && [c][1..] == [];
    assert Run(Apply(Apply(g, a), b), [c]) == Apply(Apply(Apply(g, a), b), c);
    assert Run(Apply(g, a), [b, c]) == Apply(Apply(Apply(g, a), b), c);
  }

  lemma BeginTask(g: Graph, id: Id)
    requires id in g.tasks && g.tasks[id].state == Pending && g.tasks[id].approval == NotRequired
    requires !g.tasks[id].prevented && forall d :: d in g.tasks[id].dependencies ==> d in Done(g)
    ensures Run(g, Beginning(id)).links == g.links
    ensures Run(g, Beginning(id)).tasks == g.tasks[id := g.tasks[id].(state := InProgress, reason := None)]
  {
    hide Run;
    var ops, t := Beginning(id), g.tasks[id];
    ThreeCalls(g, ops[0], ops[1], ops[2]);
    var g1 := Apply(g, ops[0]);
    OneTransition(g, id, Ready);
    var g2 := Apply(g1, ops[1]);
    OneTransition(g1, id, Assigned);
    OneTransition(g2, id, InProgress);
    assert g.tasks[id := t.(state := Ready, reason := None)][id := t.(state := Assigned, reason := None)]
      [id := t.(state := InProgress, reason := None)] == g.tasks[id := t.(state := InProgress, reason := None)];
  }

  lemma OneTransition(g: Graph, id: Id, to: TaskState)
    requires id in g.tasks && g.tasks[id].approval == NotRequired && to in Successors(g.tasks[id].state) && to in {Ready, Assigned, InProgress}
    requires !g.tasks[id].prevented && forall d :: d in g.tasks[id].dependencies ==> d in Done(g)
    ensures var h := Apply(g, Transition(id, to, None, None));
      && h.tasks == g.tasks[id := g.tasks[id].(state := to, reason := None)] && h.links == g.links
      && (forall d :: d in Done(g) ==> d in Done(h))
  {
    var h := Apply(g, Transition(id, to, None, None));
    forall d | d in Done(g) ensures d in Done(h) { assert d != id; }
  }
}
