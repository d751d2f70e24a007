/** What the outcome of a regime assessment means, stage by stage, in terms of which periods
    hold at the time and which could. */
module RegimeOutcome {
  import opened Wrappers
  import opened Periods
  import opened Regimes
  import opened RegimeAssessment

  /** A three-valued answer is definite when the period certainly holds or certainly does not. */
  lemma Answer(p: Period, t: int)
    requires Valid(p)
    ensures Contains(p, t) == Some(true) <==> Holds(p, t)
    ensures Contains(p, t) == Some(false) <==> !PossiblyHolds(p, t)
    ensures Contains(p, t) == None <==> PossiblyHolds(p, t) && !Holds(p, t)
  {
    PossiblyHoldsWhen(p, t);
  }

  // ------------------------------------------------------------ coverage

  /** The evidence is complete, reaches the knowledge boundary and covers the time. */
  ghost predicate Covered(i: Input) {
    && i.completeness == Complete && Holds(i.coverage, i.time)
    && (i.informationCutoff == None || i.knowledgeBoundary <= i.informationCutoff.value)
  }

  lemma CoverageStage(i: Input)
    requires ValidInput(i)
    ensures CoverageLimited in CoverageReasons(i) <==> i.completeness == Limited
    ensures CoverageUnknown in CoverageReasons(i) <==> i.completeness == UnknownCompleteness
    ensures CutoffBeforeBoundary in CoverageReasons(i) <==> exists c :: i.informationCutoff == Some(c) && c < i.knowledgeBoundary
    ensures OutsideCoverage in CoverageReasons(i) <==> !Holds(i.coverage, i.time)
    ensures CoverageReasons(i) == {} <==> Covered(i)
  {
    Answer(i.coverage, i.time);
    if i.informationCutoff.Some? { assert i.informationCutoff == Some(i.informationCutoff.value); }
    assert Covered(i) ==> CoverageReasons(i) == {};
  }

  // ------------------------------------------------------------ the assignment

  ghost predicate MayApply(a: Assignment, t: int) { PossiblyHolds(a.enrollment, t) && PossiblyHolds(a.phase, t) }

  ghost predicate AppliesNow(a: Assignment, t: int) { Holds(a.enrollment, t) && Holds(a.phase, t) }

  ghost predicate ValidPeriods(a: Assignment) { Valid(a.enrollment) && Valid(a.phase) }

  lemma PossibleMeans(a: Assignment, t: int)
    requires ValidPeriods(a)
    ensures Possible(a, t) <==> MayApply(a, t)
    ensures Possible(a, t) ==> (Unsettled(a, t) <==> !AppliesNow(a, t))
  {
    Answer(a.enrollment, t);
    Answer(a.phase, t);
  }

  /** The assignment at k is the only one that may apply. */
  ghost predicate Only(assignments: seq<Assignment>, t: int, k: nat) {
    k < |assignments| && forall j :: 0 <= j < |assignments| ==> (MayApply(assignments[j], t) <==> j == k)
  }

  ghost predicate TwoMay(assignments: seq<Assignment>, t: int) {
    exists j, k :: 0 <= j < k < |assignments| && MayApply(assignments[j], t) && MayApply(assignments[k], t)
  }

  lemma {:induction false} ActiveMeans(assignments: seq<Assignment>, t: int)
    requires forall j :: 0 <= j < |assignments| ==> ValidPeriods(assignments[j])
    ensures |Active(assignments, t)| == 0 <==> forall j :: 0 <= j < |assignments| ==> !MayApply(assignments[j], t)
    ensures |Active(assignments, t)| == 1 <==> exists k: nat :: Only(assignments, t, k)
    ensures |Active(assignments, t)| > 1 <==> TwoMay(assignments, t)
    ensures forall k: nat :: Only(assignments, t, k) ==> Active(assignments, t) == [assignments[k]]
  {
    hide MayApply, Possible, ValidPeriods;
    if assignments != [] {
      var n := |assignments| - 1;
      var front, last := assignments[..n], assignments[n];
      ActiveMeans(front, t);
      PossibleMeans(last, t);
      if MayApply(last, t) {
        LastMay(assignments, t);
        if forall j :: 0 <= j < n ==> !MayApply(front[j], t) { assert Only(assignments, t, n); }
      } else {
        LastMayNot(assignments, t);
        if k: nat :| Only(front, t, k) { assert Only(assignments, t, k); }
        if k: nat :| Only(assignments, t, k) { assert Only(front, t, k); }
      }
    }
  }

  lemma LastMayNot(assignments: seq<Assignment>, t: int)
    requires assignments != [] && !MayApply(assignments[|assignments| - 1], t)
    ensures forall k: nat :: Only(assignments, t, k) <==> Only(assignments[..|assignments| - 1], t, k)
    ensures TwoMay(assignments, t) <==> TwoMay(assignments[..|assignments| - 1], t)
  {
    hide MayApply;
    var n := |assignments| - 1;
    var front := assignments[..n];
    assert forall j :: 0 <= j < n ==> front[j] == assignments[j];
    forall k: nat ensures Only(assignments, t, k) <==> Only(front, t, k) {
      if Only(front, t, k) {
        forall j | 0 <= j < |assignments| ensures MayApply(assignments[j], t) <==> j == k { if j < n { assert MayApply(front[j], t) <==> j == k; } }
      }
      if Only(assignments, t, k) { assert MayApply(assignments[k], t); }
    }
    if TwoMay(front, t) {
      var j, k :| 0 <= j < k < |front| && MayApply(front[j], t) && MayApply(front[k], t);
      assert MayApply(assignments[j], t) && MayApply(assignments[k], t);
    }
    if TwoMay(assignments, t) {
      var j, k :| 0 <= j < k < |assignments| && MayApply(assignments[j], t) && MayApply(assignments[k], t);
      assert MayApply(front[j], t) && MayApply(front[k], t);
    }
  }

  lemma LastMay(assignments: seq<Assignment>, t: int)
    requires assignments != [] && MayApply(assignments[|assignments| - 1], t)
    ensures var n, front := |assignments| - 1, assignments[..|assignments| - 1];
      && (forall k: nat :: Only(assignments, t, k) <==> k == n && forall j :: 0 <= j < n ==> !MayApply(front[j], t))
      && (TwoMay(assignments, t) <==> exists j :: 0 <= j < n && MayApply(front[j], t))
  {
    hide MayApply;
    var n, front := |assignments| - 1, assignments[..|assignments| - 1];
    assert forall j :: 0 <= j < n ==> front[j] == assignments[j];
    forall k: nat ensures Only(assignments, t, k) <==> k == n && forall j :: 0 <= j < n ==> !MayApply(front[j], t) {
      if Only(assignments, t, k) { assert MayApply(assignments[n], t); }
      if k == n && forall j :: 0 <= j < n ==> !MayApply(front[j], t) {
        forall j | 0 <= j < |assignments| ensures MayApply(assignments[j], t) <==> j == k { assert j < n ==> !MayApply(front[j], t); }
      }
    }
    if TwoMay(assignments, t) {
      var j, k :| 0 <= j < k < |assignments| && MayApply(assignments[j], t) && MayApply(assignments[k], t);
      assert MayApply(front[j], t);
    }
    if j :| 0 <= j < n && MayApply(front[j], t) { assert MayApply(assignments[j], t) && MayApply(assignments[n], t); }
  }

  lemma AssignmentStage(i: Input)
    requires ValidInput(i)
    ensures var reasons := AssignmentReasons(Active(i.assignments, i.time), i.time);
      && (MultipleAssignments in reasons <==> TwoMay(i.assignments, i.time))
      && (TimingUnknown in reasons <==> exists a :: a in i.assignments && MayApply(a, i.time) && !AppliesNow(a, i.time))
      && (IdentityUnknown in reasons <==> exists a :: a in i.assignments && MayApply(a, i.time) && !a.identified)
  {
    hide Active, TwoMay, MayApply, AppliesNow, Possible, Unsettled, AssignmentReasons, ValidPeriods, Only, ValidInput;
    AllPeriodsValid(i);
    ActiveMeans(i.assignments, i.time);
    ReasonsAmong(Active(i.assignments, i.time), i.time);
    forall a | a in i.assignments
      ensures (Possible(a, i.time) <==> MayApply(a, i.time)) && (Possible(a, i.time) ==> (Unsettled(a, i.time) <==> !AppliesNow(a, i.time)))
    {
      PossibleMeans(a, i.time);
    }
  }

  lemma ReasonsAmong(active: seq<Assignment>, t: int)
    ensures MultipleAssignments in AssignmentReasons(active, t) <==> |active| > 1
    ensures TimingUnknown in AssignmentReasons(active, t) <==> exists a :: a in active && Unsettled(a, t)
    ensures IdentityUnknown in AssignmentReasons(active, t) <==> exists a :: a in active && !a.identified
    ensures AssignmentReasons(active, t) == {} <==>
      TimingUnknown !in AssignmentReasons(active, t) && IdentityUnknown !in AssignmentReasons(active, t) && MultipleAssignments !in AssignmentReasons(active, t)
  {
    hide Unsettled;
  }

  lemma AllPeriodsValid(i: Input)
    requires ValidInput(i)
    ensures forall j :: 0 <= j < |i.assignments| ==> ValidPeriods(i.assignments[j])
    ensures forall a :: a in i.assignments ==> ValidPeriods(a)
  {
    forall j | 0 <= j < |i.assignments| ensures ValidPeriods(i.assignments[j]) { AssignmentBound(i, i.assignments[j]); }
  }

  /** One assignment may apply; it does, and it is identified. */
  ghost predicate Assigned(i: Input, k: nat) {
    Only(i.assignments, i.time, k) && AppliesNow(i.assignments[k], i.time) && i.assignments[k].identified
  }

  lemma AssignedExactlyWhen(i: Input)
    requires ValidInput(i)
    ensures var active := Active(i.assignments, i.time);
      && (AssignmentReasons(active, i.time) == {} && active != [] <==> exists k: nat :: Assigned(i, k))
      && (forall k: nat :: Assigned(i, k) ==> active == [i.assignments[k]])
      && (active == [] <==> forall j :: 0 <= j < |i.assignments| ==> !MayApply(i.assignments[j], i.time))
  {
    hide Active, TwoMay, MayApply, AppliesNow, Possible, Unsettled, ValidPeriods, AssignmentReasons;
    AllPeriodsValid(i);
    ActiveMeans(i.assignments, i.time);
    AssignmentStage(i);
    var active := Active(i.assignments, i.time);
    ReasonsAmong(active, i.time);
    if AssignmentReasons(active, i.time) == {} && active != [] {
      var k: nat :| Only(i.assignments, i.time, k);
      MayBeOnly(i, k);
      assert Assigned(i, k);
    }
    if k: nat :| Assigned(i, k) { OnlyOneMay(i, k); }
  }

  lemma MayBeOnly(i: Input, k: nat)
    requires Only(i.assignments, i.time, k)
    ensures i.assignments[k] in i.assignments && MayApply(i.assignments[k], i.time)
  {}

  lemma OnlyOneMay(i: Input, k: nat)
    requires Only(i.assignments, i.time, k)
    ensures forall a :: a in i.assignments && MayApply(a, i.time) ==> a == i.assignments[k]
  {}

  // ------------------------------------------------------------ the package

  ghost predicate MayBind(i: Input, b: Binding) {
    b.package in i.packages && PossiblyHolds(b.effective, i.time) && PossiblyHolds(i.packages[b.package], i.time)
  }

  ghost predicate BindsNow(i: Input, b: Binding) {
    b.package in i.packages && Holds(b.effective, i.time) && Holds(i.packages[b.package], i.time)
  }

  lemma BindingMeans(i: Input, a: Assignment, b: Binding)
    requires ValidInput(i) && a in i.assignments && b in a.bindings && b.package in i.packages
    ensures PossibleBinding(b, i.packages, i.time) <==> MayBind(i, b)
    ensures PossibleBinding(b, i.packages, i.time) ==> (UnsettledBinding(b, i.packages, i.time) <==> !BindsNow(i, b))
  {
    AssignmentBound(i, a);
    Answer(b.effective, i.time);
    Answer(i.packages[b.package], i.time);
  }

  lemma PackageStage(i: Input, a: Assignment)
    requires ValidInput(i) && a in i.assignments && Bound(a.bindings, i.packages)
    ensures var reasons := PackageReasons(Candidates(a.bindings, i.packages, i.time), i.packages, i.time);
      && (TimingUnknown in reasons <==> exists b :: b in a.bindings && MayBind(i, b) && !BindsNow(i, b))
      && (MultiplePackages in reasons <==>
          exists b, c :: b in a.bindings && c in a.bindings && MayBind(i, b) && MayBind(i, c) && b.package != c.package)
      && (reasons == {} <==> TimingUnknown !in reasons && MultiplePackages !in reasons)
    ensures forall b :: b in Candidates(a.bindings, i.packages, i.time) <==> b in a.bindings && MayBind(i, b)
  {
    hide Candidates, MayBind, BindsNow, PossibleBinding, UnsettledBinding, ValidInput;
    forall b | b in a.bindings
      ensures (PossibleBinding(b, i.packages, i.time) <==> MayBind(i, b))
        && (PossibleBinding(b, i.packages, i.time) ==> (UnsettledBinding(b, i.packages, i.time) <==> !BindsNow(i, b)))
    {
      BindingMeans(i, a, b);
    }
  }

  /** Some binding of the package is in force, with the package, and no other binding may be but of it and settled. */
  ghost predicate Packaged(i: Input, a: Assignment, package: PackageKey) {
    && (exists b :: b in a.bindings && b.package == package && BindsNow(i, b))
    && forall b :: b in a.bindings && MayBind(i, b) ==> b.package == package && BindsNow(i, b)
  }

  lemma PackagedExactlyWhen(i: Input, a: Assignment)
    requires ValidInput(i) && a in i.assignments && Bound(a.bindings, i.packages)
    ensures var candidates := Candidates(a.bindings, i.packages, i.time);
      && (PackageReasons(candidates, i.packages, i.time) == {} && candidates != [] <==> exists package :: Packaged(i, a, package))
      && (forall package :: Packaged(i, a, package) ==> candidates != [] && candidates[0].package == package)
      && (candidates == [] <==> forall b :: b in a.bindings ==> !MayBind(i, b))
  {
    hide Candidates, PackageReasons, MayBind, BindsNow, ValidInput;
    PackageStage(i, a);
    var candidates := Candidates(a.bindings, i.packages, i.time);
    if candidates != [] { assert candidates[0] in candidates; }
    forall b | b in a.bindings && BindsNow(i, b) ensures MayBind(i, b) { NowIsPossible(i, a, b); }
    if PackageReasons(candidates, i.packages, i.time) == {} && candidates != [] { assert Packaged(i, a, candidates[0].package); }
  }

  lemma NowIsPossible(i: Input, a: Assignment, b: Binding)
    requires ValidInput(i) && a in i.assignments && b in a.bindings && BindsNow(i, b)
    ensures MayBind(i, b)
  {
    AssignmentBound(i, a);
    Answer(b.effective, i.time);
    Answer(i.packages[b.package], i.time);
  }

  // ------------------------------------------------------------ the approvals

  /** A recorded approval or rejection of the assignment under the package. */
  ghost predicate Judges(i: Input, a: Assignment, package: PackageKey, b: Approval) {
    b in i.approvals && b.assignmentId == a.id && b.package == package
  }

  /** Of the decision, and certainly in force at the time. */
  ghost predicate InForceNow(i: Input, a: Assignment, package: PackageKey, decision: Decision) {
    exists b :: Judges(i, a, package, b) && b.decision == decision && Holds(b.effective, i.time)
  }

  /** Whether some judgement is in force is settled. */
  ghost predicate AllSettled(i: Input, a: Assignment, package: PackageKey) {
    forall b :: Judges(i, a, package, b) && PossiblyHolds(b.effective, i.time) ==> Holds(b.effective, i.time)
  }

  lemma VerdictMeans(i: Input, a: Assignment, package: PackageKey)
    requires ValidInput(i)
    ensures var v, settled := ApprovalVerdict(Filtered(i.approvals, a, package), i.time), AllSettled(i, a, package);
      var yes, no, any := InForceNow(i, a, package, Approved), InForceNow(i, a, package, Rejected), exists b :: Judges(i, a, package, b);
      && (v == Some(NotEstablished(ApprovalNotEstablished)) <==> !any)
      && (v == Some(Outcome.Unresolved({TimingUnknown})) <==> !settled)
      && (v == Some(Outcome.Unresolved({ApprovalConflict})) <==> settled && yes && no)
      && (v == Some(NotEstablished(ApprovalRejected)) <==> settled && no && !yes)
      && (v == Some(NotEstablished(ApprovalNotEffective)) <==> settled && any && !yes && !no)
      && (v == None <==> settled && yes && !no)
  {
    var relevant := Filtered(i.approvals, a, package);
    forall b ensures b in relevant <==> Judges(i, a, package, b) {}
    RelevantIsValid(i, relevant);
    forall b | b in relevant
      ensures Contains(b.effective, i.time) == Some(true) <==> Holds(b.effective, i.time)
      ensures Contains(b.effective, i.time) == None <==> PossiblyHolds(b.effective, i.time) && !Holds(b.effective, i.time)
    {
      Answer(b.effective, i.time);
    }
    VerdictAmong(relevant, i.time);
    if relevant != [] { assert relevant[0] in relevant; }
  }

  lemma VerdictAmong(relevant: seq<Approval>, t: int)
    ensures var v, settled := ApprovalVerdict(relevant, t), forall b :: b in relevant ==> Contains(b.effective, t) != None;
      var yes := exists b :: b in relevant && b.decision == Approved && Contains(b.effective, t) == Some(true);
      var no := exists b :: b in relevant && b.decision == Rejected && Contains(b.effective, t) == Some(true);
      && (v == Some(NotEstablished(ApprovalNotEstablished)) <==> relevant == [])
      && (v == Some(Outcome.Unresolved({TimingUnknown})) <==> !settled)
      && (v == Some(Outcome.Unresolved({ApprovalConflict})) <==> settled && yes && no)
      && (v == Some(NotEstablished(ApprovalRejected)) <==> settled && no && !yes)
      && (v == Some(NotEstablished(ApprovalNotEffective)) <==> settled && relevant != [] && !yes && !no)
      && (v == None <==> settled && yes && !no)
  {
    hide Contains;
    assert {TimingUnknown} != {ApprovalConflict} by { assert TimingUnknown !in {ApprovalConflict}; }
  }

  // ------------------------------------------------------------ the whole assessment

  /** The stages before the approvals have settled on the assignment and the package. */
  ghost predicate Selected(i: Input, k: nat, package: PackageKey) {
    Covered(i) && Assigned(i, k) && Packaged(i, i.assignments[k], package)
  }

  lemma SelectedReaches(i: Input, o: Outcome, k: nat, package: PackageKey)
    requires ValidInput(i) && Assesses(i, o) && Selected(i, k, package)
    ensures var a := i.assignments[k];
      var verdict := ApprovalVerdict(Filtered(i.approvals, a, package), i.time);
      && (verdict.Some? ==> o == verdict.value)
      && (verdict == None ==> o.Established? && o.assignment == a && o.package == package)
  {
    hide CoverageReasons, AssignmentReasons, PackageReasons, Candidates, Active, ApprovalVerdict, Covered, Packaged, Filtered, IsStretch, Applicable;
    var a := i.assignments[k];
    CoverageStage(i);
    AssignedExactlyWhen(i);
    AssignmentBound(i, a);
    PackagedExactlyWhen(i, a);
  }

  /** What the approvals decide, once assignment and package are settled. */
  lemma ApprovalStage(i: Input, o: Outcome, k: nat, package: PackageKey)
    requires ValidInput(i) && Assesses(i, o) && Selected(i, k, package)
    ensures var a := i.assignments[k];
      var settled, any := AllSettled(i, a, package), exists b :: Judges(i, a, package, b);
      var yes, no := InForceNow(i, a, package, Approved), InForceNow(i, a, package, Rejected);
      && (o == NotEstablished(ApprovalNotEstablished) <==> !any)
      && (o == Outcome.Unresolved({TimingUnknown}) <==> !settled)
      && (o == Outcome.Unresolved({ApprovalConflict}) <==> settled && yes && no)
      && (o == NotEstablished(ApprovalRejected) <==> settled && no && !yes)
      && (o == NotEstablished(ApprovalNotEffective) <==> settled && any && !yes && !no)
      && (o.Established? <==> settled && yes && !no)
  {
    hide Covered, Packaged, AppliesNow, AllSettled, InForceNow, Judges, ApprovalVerdict, Filtered, Assesses;
    SelectedReaches(i, o, k, package);
    VerdictMeans(i, i.assignments[k], package);
    VerdictNeverEstablishes(Filtered(i.approvals, i.assignments[k], package), i.time);
  }

  ghost predicate EstablishedBy(i: Input, k: nat, package: PackageKey) {
    && Selected(i, k, package) && AllSettled(i, i.assignments[k], package)
    && InForceNow(i, i.assignments[k], package, Approved) && !InForceNow(i, i.assignments[k], package, Rejected)
  }

  /** A regime is established exactly when the evidence covers the time, one identified assignment and
      one package may apply and certainly do, all judgements of them are settled at the time, some
      approval of them is in force and no rejection is. */
  lemma EstablishedExactlyWhen(i: Input, o: Outcome)
    requires ValidInput(i) && Assesses(i, o)
    ensures o.Established? <==> exists k: nat, package :: EstablishedBy(i, k, package)
    ensures o.Established? ==>
      exists k: nat :: k < |i.assignments| && o.assignment == i.assignments[k] && EstablishedBy(i, k, o.package)
  {
    hide Covered, Assigned, Packaged, AllSettled, InForceNow, Judges, ApprovalVerdict, Filtered, Assesses, Selected;
    if o.Established? {
      var k, package := Reached(i, o);
      InRange(i, k, package);
      ApprovalStage(i, o, k, package);
      SelectedReaches(i, o, k, package);
      VerdictNeverEstablishes(Filtered(i.approvals, i.assignments[k], package), i.time);
      assert EstablishedBy(i, k, o.package);
    } else if k: nat, package :| EstablishedBy(i, k, package) {
      ApprovalStage(i, o, k, package);
    }
  }

  lemma InRange(i: Input, k: nat, package: PackageKey)
    requires Selected(i, k, package)
    ensures k < |i.assignments|
  {}

  lemma Reached(i: Input, o: Outcome) returns (k: nat, package: PackageKey)
    requires ValidInput(i) && Assesses(i, o) && o.Established?
    ensures Selected(i, k, package)
  {
    hide CoverageReasons, AssignmentReasons, PackageReasons, Candidates, Active, ApprovalVerdict, Packaged, Filtered, IsStretch, Applicable;
    CoverageStage(i);
    AssignedExactlyWhen(i);
    k :| Assigned(i, k);
    AssignmentBound(i, i.assignments[k]);
    PackagedExactlyWhen(i, i.assignments[k]);
    package :| Packaged(i, i.assignments[k], package);
  }

  /** No rejection of an established regime's assignment and package could be in force at the time,
      however unknown bounds are settled. */
  lemma NoRejectionInForce(i: Input, o: Outcome, b: Approval)
    requires ValidInput(i) && Assesses(i, o) && o.Established?
    requires b in i.approvals && b.assignmentId == o.assignment.id && b.package == o.package && b.decision == Rejected
    ensures !PossiblyHolds(b.effective, i.time)
  {
    hide Assesses, Selected, PossiblyHolds, Holds;
    EstablishedExactlyWhen(i, o);
    var k: nat :| k < |i.assignments| && o.assignment == i.assignments[k] && EstablishedBy(i, k, o.package);
    assert Judges(i, i.assignments[k], o.package, b);
  }
}
