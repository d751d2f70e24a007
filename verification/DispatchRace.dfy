/** Several dispatchers of one task at the same time. The registration is reserved under a lock,
    but nothing locks the task: each dispatcher checks it, looks at its state, and makes one or
    two changes of state, testing first and writing after. */
module DispatchRace {
  import opened Wrappers
  import opened CodePoints
  import opened Tasks

  /** How far a dispatcher has come, and with which tasks it was told are completed. `second`
      says that the change it is about to make is the one to IN_PROGRESS. */
  datatype Phase =
    | Passed(told: set<Id>)
    | Next(told: set<Id>, second: bool)
    | Tested(told: set<Id>, second: bool)
    | Running
    | TurnedDown
    | Raised

  datatype System = System(task: Task, phases: map<nat, Phase>)

  datatype Step =
    | Check(who: nat, told: set<Id>)
    | Look(who: nat)
    | Test(who: nat)
    | Put(who: nat)

  function Target(second: bool): TaskState { if second then InProgress else Assigned }

  /** The state from which the change is allowed. */
  function Origin(second: bool): TaskState { if second then Assigned else Ready }

  predicate Enabled(s: System, step: Step) {
    match step
    case Check(who, _) => who !in s.phases
    case Look(who) => who in s.phases && s.phases[who].Passed?
    case Test(who) => who in s.phases && s.phases[who].Next?
    case Put(who) => who in s.phases && s.phases[who].Tested?
  }

  function Move(s: System, who: nat, phase: Phase): System { s.(phases := s.phases[who := phase]) }

  function After(s: System, step: Step): System
    requires Enabled(s, step)
  {
    match step
    case Check(who, told) => Move(s, who, if MayStart(s.task, told) then Passed(told) else TurnedDown)
    case Look(who) => Move(s, who, Next(s.phases[who].told, s.task.state != Ready))
    case Test(who) =>
      var p := s.phases[who];
      Move(s, who, if Tasks.Transition(s.task, Target(p.second), None, None, p.told).Ok? then Tested(p.told, p.second) else Raised)
    case Put(who) =>
      var p := s.phases[who];
      System(s.task.(state := Target(p.second), reason := None), s.phases[who := if p.second then Running else Next(p.told, true)])
  }

  predicate Follows(s: System, steps: seq<Step>)
    decreases |steps|
  {
    steps != [] ==> Enabled(s, steps[0]) && Follows(After(s, steps[0]), steps[1..])
  }

  function Run(s: System, steps: seq<Step>): System
    requires Follows(s, steps)
    decreases |steps|
  {
    if steps == [] then s else Run(After(s, steps[0]), steps[1..])
  }

  function Initial(task: Task): System { System(task, map[]) }

  // ------------------------------------------------------------ when a change raises

  /** What the checks have established, which no dispatcher changes. */
  predicate StillAllowed(s: System) {
    forall who :: who in s.phases && (s.phases[who].Passed? || s.phases[who].Next? || s.phases[who].Tested?) ==>
      s.task.approval in {NotRequired, Approved} && DependenciesMet(s.task, s.phases[who].told)
  }

  lemma StepAllowed(s: System, step: Step)
    requires StillAllowed(s) && Enabled(s, step)
    ensures StillAllowed(After(s, step))
  {}

  lemma {:induction false} RunAllowed(s: System, steps: seq<Step>)
    requires StillAllowed(s) && Follows(s, steps)
    ensures StillAllowed(Run(s, steps))
    decreases |steps|
  {
    hide StillAllowed, Enabled, After;
    if steps != [] {
      StepAllowed(s, steps[0]);
      RunAllowed(After(s, steps[0]), steps[1..]);
    }
  }

  /** In every interleaving, a dispatcher past the checks raises exactly when the task is no
      longer in the state its next change starts from. */
  lemma RaisesExactlyWhen(task: Task, steps: seq<Step>, who: nat)
    requires Follows(Initial(task), steps) && who in Run(Initial(task), steps).phases && Run(Initial(task), steps).phases[who].Next?
    ensures var s := Run(Initial(task), steps);
      After(s, Test(who)).phases[who].Raised? <==> s.task.state != Origin(s.phases[who].second)
  {
    hide Run, Follows;
    RunAllowed(Initial(task), steps);
  }

  /** From its check on, nobody else writes. */
  predicate Undisturbed(steps: seq<Step>, who: nat) { forall i :: 0 <= i < |steps| && steps[i].Put? ==> steps[i].who == who }

  /** Where the dispatcher is, the task is as it left it. */
  predicate Expected(s: System, who: nat) {
    who in s.phases ==>
      match s.phases[who]
      case Passed(_) => s.task.state in {Ready, Assigned}
      case Next(_, second) => s.task.state == Origin(second)
      case Tested(_, second) => s.task.state == Origin(second)
      case Running => s.task.state == InProgress
      case TurnedDown => true
      case Raised => false
  }

  lemma StepExpected(s: System, step: Step, who: nat)
    requires StillAllowed(s) && Expected(s, who) && Enabled(s, step) && (step.Put? ==> step.who == who)
    ensures Expected(After(s, step), who)
  {}

  lemma NotRaised(s: System, who: nat)
    requires Expected(s, who)
    ensures who in s.phases ==> !s.phases[who].Raised?
  {}

  /** A dispatcher that nobody disturbs never raises. */
  lemma {:induction false} UndisturbedNeverRaises(s: System, steps: seq<Step>, who: nat)
    requires StillAllowed(s) && Expected(s, who) && Follows(s, steps) && Undisturbed(steps, who)
    ensures Expected(Run(s, steps), who) && (who in Run(s, steps).phases ==> !Run(s, steps).phases[who].Raised?)
    decreases |steps|
  {
    hide StillAllowed, Expected, Enabled, After;
    NotRaised(s, who);
    if steps != [] {
      StepAllowed(s, steps[0]);
      StepExpected(s, steps[0], who);
      UndisturbedNeverRaises(After(s, steps[0]), steps[1..], who);
    }
  }

  // ------------------------------------------------------------ how many run

  /** Nothing comes between a test that passes and its write. */
  predicate Atomic(s: System, steps: seq<Step>)
    requires Follows(s, steps)
    decreases |steps|
  {
    steps != [] ==>
      && (forall who :: who in s.phases && s.phases[who].Tested? ==> steps[0] == Put(who))
      && Atomic(After(s, steps[0]), steps[1..])
  }

  /** At most one has tested, and what it tested still holds; at most one runs, and then the
      task is IN_PROGRESS. */
  ghost predicate OneAtMost(s: System) {
    && (forall who :: who in s.phases && s.phases[who].Tested? ==> s.task.state == Origin(s.phases[who].second))
    && (forall who :: who in s.phases && s.phases[who].Running? ==> s.task.state == InProgress)
    && (forall a, b :: a in s.phases && b in s.phases && s.phases[a].Running? && s.phases[b].Running? ==> a == b)
    && (forall a, b :: a in s.phases && b in s.phases && s.phases[a].Tested? && s.phases[b].Tested? ==> a == b)
  }

  lemma StepOneAtMost(s: System, step: Step)
    requires OneAtMost(s) && Enabled(s, step) && forall who :: who in s.phases && s.phases[who].Tested? ==> step == Put(who)
    ensures OneAtMost(After(s, step))
  {}

  /** When tests and writes are not torn apart, at most one dispatcher ever runs the task,
      whatever the interleaving and however many there are. */
  lemma {:induction false} AtMostOneRuns(s: System, steps: seq<Step>)
    requires OneAtMost(s) && Follows(s, steps) && Atomic(s, steps)
    ensures OneAtMost(Run(s, steps))
    decreases |steps|
  {
    hide OneAtMost, Enabled, After;
    if steps != [] {
      StepOneAtMost(s, steps[0]);
      AtMostOneRuns(After(s, steps[0]), steps[1..]);
    }
  }

  lemma StartsWithNobody(task: Task)
    ensures OneAtMost(Initial(task)) && StillAllowed(Initial(task)) && forall who :: Expected(Initial(task), who)
  {}

  // ------------------------------------------------------------ two interleavings

  lemma {:induction false} RunConcat(s: System, a: seq<Step>, b: seq<Step>)
    requires Follows(s, a) && Follows(Run(s, a), b)
    ensures Follows(s, a + b) && Run(s, a + b) == Run(Run(s, a), b)
    ensures Atomic(s, a) && Atomic(Run(s, a), b) ==> Atomic(s, a + b)
    decreases |a|
  {
    hide Enabled, After;
    if a == [] {
      assert a + b == b;
    } else {
      RunConcat(After(s, a[0]), a[1..], b);
      assert (a + b)[1..] == a[1..] + b;
    }
  }

  lemma RunOne(s: System, a: Step)
    requires Enabled(s, a)
    ensures Follows(s, [a]) && Run(s, [a]) == After(s, a)
    ensures (forall who :: who in s.phases && s.phases[who].Tested? ==> a == Put(who)) ==> Atomic(s, [a])
  {
    assert [a][1..] == [];
    hide Enabled, After;
  }

  lemma RunTwo(s: System, a: Step, b: Step)
    requires Enabled(s, a) && Enabled(After(s, a), b)
    ensures Follows(s, [a, b]) && Run(s, [a, b]) == After(After(s, a), b)
    ensures Atomic(s, [a]) && Atomic(After(s, a), [b]) ==> Atomic(s, [a, b])
  {
    RunOne(s, a);
    RunOne(After(s, a), b);
    RunConcat(s, [a], [b]);
    assert [a, b] == [a] + [b];
  }

  /** Two dispatchers at one place. */
  function Two(task: Task, p: Phase, q: Phase): System { System(task, map[0 := p, 1 := q]) }

  lemma BothPass(task: Task, told: set<Id>)
    requires MayStart(task, told)
    ensures var steps := [Check(0, told), Check(1, told)] + [Look(0), Look(1)];
      && Follows(Initial(task), steps) && Atomic(Initial(task), steps)
      && Run(Initial(task), steps) == Two(task, Next(told, task.state != Ready), Next(told, task.state != Ready))
  {
    hide Follows, Run, Atomic, MayStart;
    var s := Two(task, Passed(told), Passed(told));
    assert map[0 := Passed(told)][1 := Passed(told)] == s.phases;
    RunOne(Initial(task), Check(0, told));
    RunOne(After(Initial(task), Check(0, told)), Check(1, told));
    RunTwo(Initial(task), Check(0, told), Check(1, told));
    RunOne(s, Look(0));
    RunOne(After(s, Look(0)), Look(1));
    RunTwo(s, Look(0), Look(1));
    RunConcat(Initial(task), [Check(0, told), Check(1, told)], [Look(0), Look(1)]);
  }

  predicate Open(task: Task, told: set<Id>) { task.approval in {NotRequired, Approved} && DependenciesMet(task, told) }

  function Onward(task: Task, second: bool): Task { task.(state := Target(second), reason := None) }

  function Then(told: set<Id>, second: bool): Phase { if second then Running else Next(told, true) }

  lemma TestPasses(task: Task, told: set<Id>, second: bool)
    requires Open(task, told) && task.state == Origin(second)
    ensures Tasks.Transition(task, Target(second), None, None, told).Ok?
    ensures Open(Onward(task, second), told)
  {}

  /** Both test before either writes: both come through. */
  lemma BothMove(task: Task, told: set<Id>, second: bool)
    requires Open(task, told) && task.state == Origin(second)
    ensures var s, steps := Two(task, Next(told, second), Next(told, second)), [Test(0), Test(1)] + [Put(0), Put(1)];
      Follows(s, steps) && Run(s, steps) == Two(Onward(task, second), Then(told, second), Then(told, second))
  {
    hide Follows, Run, Atomic, Open, Tasks.Transition;
    TestPasses(task, told, second);
    var s, t := Two(task, Next(told, second), Next(told, second)), Two(task, Tested(told, second), Tested(told, second));
    assert After(After(s, Test(0)), Test(1)) == t;
    RunTwo(s, Test(0), Test(1));
    assert After(After(t, Put(0)), Put(1)) == Two(Onward(task, second), Then(told, second), Then(told, second));
    RunTwo(t, Put(0), Put(1));
    RunConcat(s, [Test(0), Test(1)], [Put(0), Put(1)]);
  }

  /** One tests and writes while the other waits. */
  lemma OneMoves(task: Task, told: set<Id>, second: bool, waiting: bool)
    requires Open(task, told) && task.state == Origin(second)
    ensures var s, steps := Two(task, Next(told, second), Next(told, waiting)), [Test(0), Put(0)];
      && Follows(s, steps) && Atomic(s, steps)
      && Run(s, steps) == Two(Onward(task, second), Then(told, second), Next(told, waiting))
  {
    hide Follows, Run, Atomic, Open, Tasks.Transition;
    TestPasses(task, told, second);
    var s, t := Two(task, Next(told, second), Next(told, waiting)), Two(task, Tested(told, second), Next(told, waiting));
    assert After(s, Test(0)) == t;
    RunOne(s, Test(0));
    assert After(t, Put(0)) == Two(Onward(task, second), Then(told, second), Next(told, waiting));
    RunOne(t, Put(0));
    RunTwo(s, Test(0), Put(0));
  }

  lemma LaterRaises(s: System, told: set<Id>, second: bool)
    requires s.phases == map[0 := Running, 1 := Next(told, second)] && s.task.state == InProgress
    ensures Follows(s, [Test(1)]) && Atomic(s, [Test(1)]) && Run(s, [Test(1)]).phases == map[0 := Running, 1 := Raised]
  {
    hide Follows, Run, Atomic;
    assert s.phases[1 := Raised] == map[0 := Running, 1 := Raised];
    RunOne(s, Test(1));
  }

  /** Whatever task a dispatcher may start, two of them can both come to run. */
  lemma TwoCanRun(task: Task, told: set<Id>)
    requires MayStart(task, told)
    ensures exists steps :: Follows(Initial(task), steps) && Run(Initial(task), steps).phases == map[0 := Running, 1 := Running]
  {
    hide Follows, Run, Atomic, DependenciesMet, Tasks.Transition;
    var both := [Test(0), Test(1)] + [Put(0), Put(1)];
    var steps := [Check(0, told), Check(1, told)] + [Look(0), Look(1)];
    BothPass(task, told);
    var second := task.state != Ready;
    BothMove(task, told, second);
    TestPasses(task, told, second);
    RunConcat(Initial(task), steps, both);
    if !second {
      BothMove(Onward(task, false), told, true);
      RunConcat(Initial(task), steps + both, both);
    }
  }

  /** What the caller is told: whether an execution was performed, and whether the executor was
      in fact called. An exception among the changes of state counts as a failed execution. */
  datatype Report = Report(performed: bool, called: bool)

  function ReportOf(p: Phase): Option<Report> {
    match p
    case Running => Some(Report(true, true))
    case Raised => Some(Report(true, false))
    case TurnedDown => Some(Report(false, false))
    case _ => None
  }

  /** All but those turned down report an execution, and among those the ones that raised do so falsely. */
  lemma ReportMeaning(p: Phase)
    ensures ReportOf(p) == None <==> p.Passed? || p.Next? || p.Tested?
    ensures ReportOf(p) != None ==> (ReportOf(p).value.performed <==> p != TurnedDown) && (ReportOf(p).value.called <==> p == Running)
  {}

  /** Even when changes of state are atomic, two dispatchers of a task that either may start can
      end with one that runs it and one that raises, and reports an execution that never was. */
  lemma LoserClaimsExecution(task: Task, told: set<Id>)
    requires MayStart(task, told)
    ensures exists steps ::
      && Follows(Initial(task), steps) && Atomic(Initial(task), steps)
      && var phases := Run(Initial(task), steps).phases;
      && phases.Keys == {0, 1} && phases[0].Running? && ReportOf(phases[1]) == Some(Report(true, false))
  {
    hide Follows, Run, Atomic, DependenciesMet;
    var steps := [Check(0, told), Check(1, told)] + [Look(0), Look(1)];
    BothPass(task, told);
    var second := task.state != Ready;
    OneMoves(task, told, second, second);
    TestPasses(task, told, second);
    RunConcat(Initial(task), steps, [Test(0), Put(0)]);
    steps := steps + [Test(0), Put(0)];
    if !second {
      OneMoves(Onward(task, false), told, true, false);
      RunConcat(Initial(task), steps, [Test(0), Put(0)]);
      steps := steps + [Test(0), Put(0)];
    }
    LaterRaises(Run(Initial(task), steps), told, second);
    RunConcat(Initial(task), steps, [Test(1)]);
  }
}
