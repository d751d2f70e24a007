/** Whether a daily session [start, end) is fully covered by the selected
    package's bindings and approvals, when some period bounds are unknown. */
module DailySession {
  import opened Wrappers
  import opened Periods
  import opened Regimes

  predicate Covers(p: Period, start: int, end: int) {
    p.from.Some? && p.from.value <= start && (p.end.OpenEnded? || (p.end.Known? && p.end.at >= end))
  }

  /** One determined period that contains the whole window. */
  lemma CoversMeaning(p: Period, start: int, end: int)
    requires start < end && Valid(p)
    ensures Covers(p, start, end) <==> forall x :: start <= x < end ==> Holds(p, x)
  {
    if forall x :: start <= x < end ==> Holds(p, x) {
      assert Holds(p, start) && Holds(p, end - 1);
    }
  }

  predicate MayOverlap(ps: seq<Period>, start: int, end: int) {
    var lower, upper := LatestStart(ps), EarliestEnd(ps);
    !((upper.Some? && upper.value <= start) || (lower.Some? && lower.value >= end)
      || (lower.Some? && upper.Some? && lower.value >= upper.value))
  }

  /** The filter keeps periods exactly when some completion of their unknown bounds
      gives them a common instant in the window. */
  lemma MayOverlapMeaning(ps: seq<Period>, start: int, end: int)
    requires AllValid(ps) && start < end
    ensures MayOverlap(ps, start, end) <==> exists x :: start <= x < end && PossiblyShare(ps, x)
  {
    var lower := LatestStart(ps);
    var x := if lower.Some? && lower.value > start then lower.value else start;
    if MayOverlap(ps, start, end) {
      SharedExactlyWhen(ps, x);
    }
    forall y | start <= y < end && PossiblyShare(ps, y) ensures MayOverlap(ps, start, end) { SharedExactlyWhen(ps, y); }
  }

  /** Every period that may meet the window has both bounds settled. */
  ghost predicate Settled(ps: seq<Period>, start: int, end: int) {
    forall i :: 0 <= i < |ps| && MayOverlap([ps[i]], start, end) ==> Determined(ps[i])
  }

  function Clip(p: Period, start: int, end: int): Interval
    requires Determined(p)
  {
    Interval(if p.from.value < start then start else p.from.value,
             Some(if p.end.Known? && p.end.at < end then p.end.at else end))
  }

  /** The union covers the window exactly when no period that may meet it is
      unsettled and every instant of the window lies in some period. */
  method UnionCovers(ps: seq<Period>, start: int, end: int) returns (covered: bool)
    requires AllValid(ps)
    ensures covered <==> Settled(ps, start, end) && Covered(ps, start, end)
  {
    var intervals: seq<Interval> := [];
    for i := 0 to |ps|
      invariant Settled(ps[..i], start, end)
      invariant forall v :: v in intervals ==> v.hi.Some?
      invariant forall x :: start <= x < end ==> (HeldBySome(ps[..i], x) <==> Reached(intervals, x))
    {
      Extends(ps, i, start, end);
      if !MayOverlap([ps[i]], start, end) {
        DroppedIsOutside(ps[i], start, end);
        continue;
      }
      if !Determined(ps[i]) { return false; }
      var clipped := Clip(ps[i], start, end);
      forall x | start <= x < end
        ensures HeldBySome(ps[..i + 1], x) <==> Reached(intervals + [clipped], x)
      {
        assert Within(clipped, x) <==> Holds(ps[i], x);
        ReachedMore(intervals, clipped, x);
      }
      intervals := intervals + [clipped];
    }
    assert ps[..|ps|] == ps;
    var sorted := Sorted(intervals);
    forall x ensures Reached(sorted, x) <==> Reached(intervals, x) {}
    var frontier := Sweep(sorted, start);
    covered := frontier >= end;
    if !covered {
      assert !Reached(intervals, frontier);
      assert !HeldBySome(ps, frontier);
    }
  }

  lemma Extends(ps: seq<Period>, i: nat, start: int, end: int)
    requires i < |ps|
    ensures forall x :: HeldBySome(ps[..i + 1], x) <==> HeldBySome(ps[..i], x) || Holds(ps[i], x)
    ensures Settled(ps[..i + 1], start, end) <==>
      Settled(ps[..i], start, end) && (MayOverlap([ps[i]], start, end) ==> Determined(ps[i]))
  {
    assert ps[..i + 1][i] == ps[i] && forall j :: 0 <= j < i ==> ps[..i + 1][j] == ps[..i][j];
  }

  lemma DroppedIsOutside(p: Period, start: int, end: int)
    requires Valid(p) && !MayOverlap([p], start, end)
    ensures forall x :: start <= x < end ==> !Holds(p, x)
  {}

  /** The first instant from `start` on that no interval reaches contiguously. */
  method Sweep(sorted: seq<Interval>, start: int) returns (frontier: int)
    requires InOrder(sorted) && forall v :: v in sorted ==> v.hi.Some?
    ensures frontier >= start
    ensures forall x :: start <= x < frontier ==> Reached(sorted, x)
    ensures !Reached(sorted, frontier)
  {
    frontier := start;
    for i := 0 to |sorted|
      invariant frontier >= start
      invariant forall x :: start <= x < frontier ==> Reached(sorted, x)
      invariant forall j :: 0 <= j < i ==> sorted[j].hi.value <= frontier
    {
      var v := sorted[i];
      assert v in sorted;
      if v.lo > frontier {
        forall u | u in sorted ensures !Within(u, frontier) {
          var j :| 0 <= j < |sorted| && sorted[j] == u;
          assert j > i ==> Before(sorted[i], sorted[j]);
        }
        return;
      }
      forall x | frontier <= x < v.hi.value ensures Reached(sorted, x) { assert Within(v, x); }
      if v.hi.value > frontier { frontier := v.hi.value; }
    }
  }

  // ------------------------------------------------------------ the whole session check

  /** The validated regime: selected assignment and package, and everything they were selected from. */
  datatype Regime = Regime(coverage: Period, assignment: Assignment, package: PackageKey,
                           packages: map<PackageKey, Period>, assignments: seq<Assignment>, approvals: seq<Approval>)

  ghost predicate ValidRegime(r: Regime) {
    && Valid(r.coverage) && r.package in r.packages && r.assignment in r.assignments
    && (forall k :: k in r.packages ==> Valid(r.packages[k]))
    && (forall i :: 0 <= i < |r.assignments| ==> ValidAssignment(r.assignments[i], r.packages))
    && (forall i, j :: 0 <= i < j < |r.assignments| ==> r.assignments[i].id != r.assignments[j].id)
    && (forall i :: 0 <= i < |r.approvals| ==> Valid(r.approvals[i].effective))
  }

  predicate FrameCovers(r: Regime, start: int, end: int)
    requires r.package in r.packages
  {
    && Covers(r.coverage, start, end) && Covers(r.assignment.enrollment, start, end)
    && Covers(r.assignment.phase, start, end) && Covers(r.packages[r.package], start, end)
  }

  /** Another assignment, or another package of this one, might be in force in the window. */
  ghost predicate RivalAssignment(r: Regime, start: int, end: int, i: nat)
    requires i < |r.assignments|
  {
    var a := r.assignments[i];
    a.id != r.assignment.id && MayOverlap([a.enrollment, a.phase], start, end)
  }

  ghost predicate RivalPackage(r: Regime, start: int, end: int, b: Binding)
    requires b.package in r.packages
  {
    b.package != r.package && MayOverlap([b.effective, r.packages[b.package]], start, end)
  }

  ghost predicate NoRivals(r: Regime, start: int, end: int)
    requires ValidRegime(r)
  {
    && (forall i :: 0 <= i < |r.assignments| ==> !RivalAssignment(r, start, end, i))
    && (forall b :: b in r.assignment.bindings ==> !RivalPackage(r, start, end, b))
  }

  predicate Concerns(r: Regime, a: Approval) { a.assignmentId == r.assignment.id && a.package == r.package }

  /** The periods of the bindings that name the package. */
  function OwnBindings(bindings: seq<Binding>, package: PackageKey): seq<Period> {
    if bindings == [] then []
    else
      var last := bindings[|bindings| - 1];
      OwnBindings(bindings[..|bindings| - 1], package) + (if last.package == package then [last.effective] else [])
  }

  /** The periods of the relevant approvals that may meet the window. */
  function Relevant(r: Regime, approvals: seq<Approval>, start: int, end: int): seq<Period> {
    if approvals == [] then []
    else
      var last := approvals[|approvals| - 1];
      Relevant(r, approvals[..|approvals| - 1], start, end)
        + (if Concerns(r, last) && MayOverlap([last.effective], start, end) then [last.effective] else [])
  }

  ghost predicate RejectedMayApply(r: Regime, start: int, end: int) {
    exists i :: 0 <= i < |r.approvals| && Concerns(r, r.approvals[i]) && r.approvals[i].decision == Rejected
                && MayOverlap([r.approvals[i].effective], start, end)
  }

  ghost predicate SessionSettled(r: Regime, start: int, end: int)
    requires ValidRegime(r)
  {
    var bindings, approvals := OwnBindings(r.assignment.bindings, r.package), Relevant(r, r.approvals, start, end);
    && FrameCovers(r, start, end)
    && NoRivals(r, start, end)
    && !RejectedMayApply(r, start, end)
    && Settled(bindings, start, end) && Covered(bindings, start, end)
    && Settled(approvals, start, end) && Covered(approvals, start, end)
  }

  method Session(r: Regime, packageUnchanged: bool, start: int, end: int) returns (ok: bool)
    requires ValidRegime(r)
    ensures ok <==> packageUnchanged && SessionSettled(r, start, end)
  {
    if !packageUnchanged { return false; }
    if !FrameCovers(r, start, end) { return false; }
    var free, bindings := CollectBindings(r, start, end);
    if !free { return false; }
    var accepted, approvals := CollectApprovals(r, start, end);
    if !accepted { return false; }
    OwnValid(r.assignment.bindings, r.package);
    RelevantValid(r, r.approvals, start, end);
    var bound := UnionCovers(bindings, start, end);
    var approved := UnionCovers(approvals, start, end);
    ok := bound && approved;
  }

  method CollectBindings(r: Regime, start: int, end: int) returns (free: bool, bindings: seq<Period>)
    requires ValidRegime(r)
    ensures free <==> NoRivals(r, start, end)
    ensures free ==> bindings == OwnBindings(r.assignment.bindings, r.package)
  {
    bindings := [];
    for i := 0 to |r.assignments|
      invariant forall j :: 0 <= j < i ==> !RivalAssignment(r, start, end, j)
      invariant r.assignment in r.assignments[..i] ==>
        (forall b :: b in r.assignment.bindings ==> !RivalPackage(r, start, end, b))
        && bindings == OwnBindings(r.assignment.bindings, r.package)
      invariant r.assignment !in r.assignments[..i] ==> bindings == []
    {
      var original := r.assignments[i];
      assert r.assignments[..i + 1] == r.assignments[..i] + [original];
      if original.id != r.assignment.id {
        if MayOverlap([original.enrollment, original.phase], start, end) {
          assert RivalAssignment(r, start, end, i);
          return false, [];
        }
        continue;
      }
      SameId(r, i);
      for k := 0 to |original.bindings|
        invariant bindings == OwnBindings(original.bindings[..k], r.package)
        invariant forall b :: b in original.bindings[..k] ==> !RivalPackage(r, start, end, b)
      {
        var binding := original.bindings[k];
        assert original.bindings[..k + 1] == original.bindings[..k] + [binding];
        if binding.package == r.package {
          bindings := bindings + [binding.effective];
        } else if MayOverlap([binding.effective, r.packages[binding.package]], start, end) {
          assert RivalPackage(r, start, end, binding);
          return false, [];
        }
      }
      assert original.bindings[..|original.bindings|] == original.bindings;
    }
    assert r.assignments[..|r.assignments|] == r.assignments;
    free := true;
  }

  /** Identifiers are distinct: the selected assignment is the one with its id. */
  lemma SameId(r: Regime, i: nat)
    requires ValidRegime(r) && i < |r.assignments| && r.assignments[i].id == r.assignment.id
    ensures r.assignments[i] == r.assignment && r.assignment !in r.assignments[..i]
  {
    var k :| 0 <= k < |r.assignments| && r.assignments[k] == r.assignment;
    assert k == i;
    assert forall j :: 0 <= j < i ==> r.assignments[j].id != r.assignment.id;
  }

  method CollectApprovals(r: Regime, start: int, end: int) returns (accepted: bool, approvals: seq<Period>)
    requires ValidRegime(r)
    ensures accepted <==> !RejectedMayApply(r, start, end)
    ensures accepted ==> approvals == Relevant(r, r.approvals, start, end)
  {
    hide MayOverlap, Concerns;
    approvals := [];
    for i := 0 to |r.approvals|
      invariant forall j :: 0 <= j < i ==>
        !(Concerns(r, r.approvals[j]) && r.approvals[j].decision == Rejected && MayOverlap([r.approvals[j].effective], start, end))
      invariant approvals == Relevant(r, r.approvals[..i], start, end)
    {
      var row := r.approvals[i];
      assert r.approvals[..i + 1] == r.approvals[..i] + [row];
      if !Concerns(r, row) { continue; }
      if MayOverlap([row.effective], start, end) {
        if row.decision == Rejected { return false, []; }
        approvals := approvals + [row.effective];
      }
    }
    assert r.approvals[..|r.approvals|] == r.approvals;
    accepted := true;
  }

  lemma {:induction false} OwnValid(bindings: seq<Binding>, package: PackageKey)
    requires forall i :: 0 <= i < |bindings| ==> Valid(bindings[i].effective)
    ensures AllValid(OwnBindings(bindings, package))
    ensures forall p :: p in OwnBindings(bindings, package) <==> Binding(package, p) in bindings
  {
    if bindings != [] {
      OwnValid(bindings[..|bindings| - 1], package);
      assert bindings == bindings[..|bindings| - 1] + [bindings[|bindings| - 1]];
    }
  }

  lemma {:induction false} RelevantValid(r: Regime, approvals: seq<Approval>, start: int, end: int)
    requires forall i :: 0 <= i < |approvals| ==> Valid(approvals[i].effective)
    ensures AllValid(Relevant(r, approvals, start, end))
    ensures forall p :: p in Relevant(r, approvals, start, end) <==>
      exists a :: a in approvals && Concerns(r, a) && a.effective == p && MayOverlap([p], start, end)
  {
    if approvals != [] {
      RelevantValid(r, approvals[..|approvals| - 1], start, end);
      assert approvals == approvals[..|approvals| - 1] + [approvals[|approvals| - 1]];
    }
  }

  /** What an accepted session guarantees at each of its instants: the frame and
      some binding and some approval are certainly in force, and no rival
      assignment, other package or rejection can be, however the unknown bounds
      are settled. */
  lemma SessionMeaning(r: Regime, start: int, end: int, x: int)
    requires ValidRegime(r) && SessionSettled(r, start, end) && start <= x < end
    ensures Holds(r.coverage, x) && Holds(r.assignment.enrollment, x) && Holds(r.assignment.phase, x) && Holds(r.packages[r.package], x)
    ensures exists b :: b in r.assignment.bindings && b.package == r.package && Holds(b.effective, x)
    ensures exists a :: a in r.approvals && Concerns(r, a) && a.decision == Approved && Holds(a.effective, x)
    ensures forall a :: a in r.assignments && a.id != r.assignment.id ==> !PossiblyShare([a.enrollment, a.phase], x)
    ensures forall b :: b in r.assignment.bindings && b.package != r.package ==> !PossiblyShare([b.effective, r.packages[b.package]], x)
    ensures forall a :: a in r.approvals && Concerns(r, a) && a.decision == Rejected ==> !PossiblyShare([a.effective], x)
  {
    SomeBindingAndApproval(r, start, end, x);
    forall a | a in r.assignments && a.id != r.assignment.id ensures !PossiblyShare([a.enrollment, a.phase], x) {
      var i :| 0 <= i < |r.assignments| && r.assignments[i] == a;
      assert !RivalAssignment(r, start, end, i);
      MayOverlapMeaning([a.enrollment, a.phase], start, end);
    }
    forall b | b in r.assignment.bindings && b.package != r.package
      ensures !PossiblyShare([b.effective, r.packages[b.package]], x)
    {
      assert !RivalPackage(r, start, end, b);
      MayOverlapMeaning([b.effective, r.packages[b.package]], start, end);
    }
    forall a | a in r.approvals && Concerns(r, a) && a.decision == Rejected ensures !PossiblyShare([a.effective], x) {
      MayOverlapMeaning([a.effective], start, end);
    }
  }

  lemma SomeBindingAndApproval(r: Regime, start: int, end: int, x: int)
    requires ValidRegime(r) && SessionSettled(r, start, end) && start <= x < end
    ensures exists b :: b in r.assignment.bindings && b.package == r.package && Holds(b.effective, x)
    ensures exists a :: a in r.approvals && Concerns(r, a) && a.decision == Approved && Holds(a.effective, x)
  {
    var bindings, approvals := OwnBindings(r.assignment.bindings, r.package), Relevant(r, r.approvals, start, end);
    OwnValid(r.assignment.bindings, r.package);
    RelevantValid(r, r.approvals, start, end);
    assert HeldBySome(bindings, x) && HeldBySome(approvals, x);
    var i :| 0 <= i < |bindings| && Holds(bindings[i], x);
    assert bindings[i] in bindings;
    var j :| 0 <= j < |approvals| && Holds(approvals[j], x);
    assert approvals[j] in approvals;
  }

  // ------------------------------------------------------------ exactly when a session is accepted

  /** An approval or rejection of the selected assignment under the selected package. */
  ghost predicate Judges(r: Regime, a: Approval) { a in r.approvals && a.assignmentId == r.assignment.id && a.package == r.package }

  /** At the instant everything needed is certainly in force, and nothing else can be. */
  ghost predicate SafeAt(r: Regime, x: int)
    requires r.package in r.packages
  {
    && Holds(r.coverage, x) && Holds(r.assignment.enrollment, x) && Holds(r.assignment.phase, x) && Holds(r.packages[r.package], x)
    && (exists b :: b in r.assignment.bindings && b.package == r.package && Holds(b.effective, x))
    && (exists a :: Judges(r, a) && a.decision == Approved && Holds(a.effective, x))
    && (forall a :: a in r.assignments && a.id != r.assignment.id ==> !PossiblyShare([a.enrollment, a.phase], x))
    && (forall b :: b in r.assignment.bindings && b.package != r.package && b.package in r.packages ==>
          !PossiblyShare([b.effective, r.packages[b.package]], x))
    && (forall a :: Judges(r, a) && a.decision == Rejected ==> !PossiblyHolds(a.effective, x))
  }

  ghost predicate MayMeet(p: Period, start: int, end: int) { exists x :: start <= x < end && PossiblyHolds(p, x) }

  /** Every binding of the package and every judgement that may meet the session has settled bounds. */
  ghost predicate BoundsSettled(r: Regime, start: int, end: int) {
    && (forall b :: b in r.assignment.bindings && b.package == r.package && MayMeet(b.effective, start, end) ==> Determined(b.effective))
    && (forall a :: Judges(r, a) && MayMeet(a.effective, start, end) ==> Determined(a.effective))
  }

  lemma MayMeetMeans(p: Period, start: int, end: int)
    requires Valid(p) && start < end
    ensures MayOverlap([p], start, end) <==> MayMeet(p, start, end)
  {
    MayOverlapMeaning([p], start, end);
    forall x ensures PossiblyShare([p], x) <==> PossiblyHolds(p, x) { HoldsPossibly(p, x); }
  }

  lemma {:induction false} SettledMeans(ps: seq<Period>, start: int, end: int)
    requires AllValid(ps) && start < end
    ensures Settled(ps, start, end) <==> forall p :: p in ps && MayMeet(p, start, end) ==> Determined(p)
  {
    hide MayOverlap, MayMeet, Determined;
    forall i | 0 <= i < |ps| ensures MayOverlap([ps[i]], start, end) <==> MayMeet(ps[i], start, end) { MayMeetMeans(ps[i], start, end); }
  }

  /** A session is accepted exactly when each of its instants is safe and no bound is left open. */
  lemma SessionExactlyWhen(r: Regime, start: int, end: int)
    requires ValidRegime(r) && start < end
    ensures SessionSettled(r, start, end) <==> (forall x :: start <= x < end ==> SafeAt(r, x)) && BoundsSettled(r, start, end)
  {
    hide SessionSettled, SafeAt, BoundsSettled;
    if SessionSettled(r, start, end) {
      forall x | start <= x < end ensures SafeAt(r, x) { AcceptedIsSafe(r, start, end, x); }
      AcceptedIsSettled(r, start, end);
    }
    if (forall x :: start <= x < end ==> SafeAt(r, x)) && BoundsSettled(r, start, end) { SafeIsAccepted(r, start, end); }
  }

  lemma AcceptedIsSafe(r: Regime, start: int, end: int, x: int)
    requires ValidRegime(r) && SessionSettled(r, start, end) && start <= x < end
    ensures SafeAt(r, x)
  {
    hide SessionSettled, PossiblyHolds, PossiblyShare, Holds;
    SessionMeaning(r, start, end, x);
    forall a | Judges(r, a) && a.decision == Rejected ensures !PossiblyHolds(a.effective, x) {
      var i :| 0 <= i < |r.approvals| && r.approvals[i] == a;
      HoldsPossibly(a.effective, x);
    }
  }

  lemma AcceptedIsSettled(r: Regime, start: int, end: int)
    requires ValidRegime(r) && SessionSettled(r, start, end) && start < end
    ensures BoundsSettled(r, start, end)
  {
    hide MayOverlap, MayMeet, Determined, FrameCovers, NoRivals, Covered, Settled;
    var bindings, approvals := OwnBindings(r.assignment.bindings, r.package), Relevant(r, r.approvals, start, end);
    OwnValid(r.assignment.bindings, r.package);
    RelevantValid(r, r.approvals, start, end);
    SettledMeans(bindings, start, end);
    SettledMeans(approvals, start, end);
    forall b | b in r.assignment.bindings && b.package == r.package ensures b.effective in bindings { assert b == Binding(r.package, b.effective); }
    forall a | Judges(r, a) && MayMeet(a.effective, start, end) ensures a.effective in approvals {
      var i :| 0 <= i < |r.approvals| && r.approvals[i] == a;
      MayMeetMeans(a.effective, start, end);
      assert Concerns(r, a);
    }
  }

  lemma SafeIsAccepted(r: Regime, start: int, end: int)
    requires ValidRegime(r) && start < end
    requires (forall x :: start <= x < end ==> SafeAt(r, x)) && BoundsSettled(r, start, end)
    ensures SessionSettled(r, start, end)
  {
    hide MayOverlap, MayMeet, Determined, Settled, Holds, SafeAt, BoundsSettled;
    SafeFrame(r, start, end);
    SafeFromRivals(r, start, end);
    SafeBindings(r, start, end);
    SafeApprovals(r, start, end);
  }

  lemma SafeFrame(r: Regime, start: int, end: int)
    requires ValidRegime(r) && start < end && forall x :: start <= x < end ==> SafeAt(r, x)
    ensures FrameCovers(r, start, end)
  {
    hide PossiblyShare, PossiblyHolds, Holds, Covers;
    forall x | start <= x < end
      ensures Holds(r.coverage, x) && Holds(r.assignment.enrollment, x) && Holds(r.assignment.phase, x) && Holds(r.packages[r.package], x)
    {
      assert SafeAt(r, x);
    }
    CoversMeaning(r.coverage, start, end);
    CoversMeaning(r.assignment.enrollment, start, end);
    CoversMeaning(r.assignment.phase, start, end);
    CoversMeaning(r.packages[r.package], start, end);
  }

  lemma SafeFromRivals(r: Regime, start: int, end: int)
    requires ValidRegime(r) && start < end && forall x :: start <= x < end ==> SafeAt(r, x)
    ensures NoRivals(r, start, end) && !RejectedMayApply(r, start, end)
  {
    hide MayOverlap, PossiblyShare, PossiblyHolds, Holds;
    forall i | 0 <= i < |r.assignments| ensures !RivalAssignment(r, start, end, i) {
      var a := r.assignments[i];
      MayOverlapMeaning([a.enrollment, a.phase], start, end);
      if a.id != r.assignment.id {
        forall x | start <= x < end ensures !PossiblyShare([a.enrollment, a.phase], x) { assert SafeAt(r, x); }
      }
    }
    forall b | b in r.assignment.bindings ensures !RivalPackage(r, start, end, b) {
      MayOverlapMeaning([b.effective, r.packages[b.package]], start, end);
      if b.package != r.package {
        forall x | start <= x < end ensures !PossiblyShare([b.effective, r.packages[b.package]], x) { assert SafeAt(r, x); }
      }
    }
    forall i | 0 <= i < |r.approvals| && r.approvals[i].decision == Rejected && Concerns(r, r.approvals[i])
      ensures !MayOverlap([r.approvals[i].effective], start, end)
    {
      MayMeetMeans(r.approvals[i].effective, start, end);
      assert Judges(r, r.approvals[i]);
      forall x | start <= x < end ensures !PossiblyHolds(r.approvals[i].effective, x) { assert SafeAt(r, x); }
    }
  }

  lemma SafeBindings(r: Regime, start: int, end: int)
    requires ValidRegime(r) && start < end && BoundsSettled(r, start, end) && forall x :: start <= x < end ==> SafeAt(r, x)
    ensures var bindings := OwnBindings(r.assignment.bindings, r.package); Settled(bindings, start, end) && Covered(bindings, start, end)
  {
    hide MayMeet, Determined, Settled, Holds, PossiblyShare, PossiblyHolds;
    var bindings := OwnBindings(r.assignment.bindings, r.package);
    OwnValid(r.assignment.bindings, r.package);
    SettledMeans(bindings, start, end);
    forall p | p in bindings && MayMeet(p, start, end) ensures Determined(p) { assert Binding(r.package, p) in r.assignment.bindings; }
    forall x | start <= x < end ensures HeldBySome(bindings, x) {
      assert SafeAt(r, x);
      var b :| b in r.assignment.bindings && b.package == r.package && Holds(b.effective, x);
      assert b == Binding(r.package, b.effective);
      var i :| 0 <= i < |bindings| && bindings[i] == b.effective;
    }
  }

  lemma SafeApprovals(r: Regime, start: int, end: int)
    requires ValidRegime(r) && start < end && BoundsSettled(r, start, end) && forall x :: start <= x < end ==> SafeAt(r, x)
    ensures var approvals := Relevant(r, r.approvals, start, end); Settled(approvals, start, end) && Covered(approvals, start, end)
  {
    hide MayMeet, Determined, Settled, Holds, PossiblyShare, PossiblyHolds, MayOverlap;
    var approvals := Relevant(r, r.approvals, start, end);
    RelevantValid(r, r.approvals, start, end);
    SettledMeans(approvals, start, end);
    forall p | p in approvals && MayMeet(p, start, end) ensures Determined(p) {
      var a :| a in r.approvals && Concerns(r, a) && a.effective == p;
      assert Judges(r, a);
    }
    forall x | start <= x < end ensures HeldBySome(approvals, x) {
      assert SafeAt(r, x);
      var a :| Judges(r, a) && a.decision == Approved && Holds(a.effective, x);
      ApprovalMeets(r, a, start, end, x);
      assert Concerns(r, a);
      var i :| 0 <= i < |approvals| && approvals[i] == a.effective;
    }
  }

  lemma ApprovalMeets(r: Regime, a: Approval, start: int, end: int, x: int)
    requires ValidRegime(r) && Judges(r, a) && start <= x < end && Holds(a.effective, x)
    ensures MayOverlap([a.effective], start, end)
  {
    var i :| 0 <= i < |r.approvals| && r.approvals[i] == a;
    HoldsPossibly(a.effective, x);
    MayMeetMeans(a.effective, start, end);
  }
}
