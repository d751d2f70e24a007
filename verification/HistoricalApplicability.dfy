/** Whether the selected regime applied throughout the closed window from
    inception to the assessment time. */
module HistoricalApplicability {
  import opened Wrappers
  import opened Periods
  import opened Regimes

  predicate Covers(p: Period, start: int, end: int) {
    p.from.Some? && p.from.value <= start && (p.end.OpenEnded? || (p.end.Known? && p.end.at > end))
  }

  /** One determined period that contains the window, its last instant included. */
  lemma CoversMeaning(p: Period, start: int, end: int)
    requires start <= end
    ensures Covers(p, start, end) <==> forall x :: start <= x <= end ==> Holds(p, x)
  {
    if forall x :: start <= x <= end ==> Holds(p, x) {
      assert Holds(p, start) && Holds(p, end);
    }
  }

  predicate MayOverlap(ps: seq<Period>, start: int, end: int) {
    var lower, upper := LatestStart(ps), EarliestEnd(ps);
    !((upper.Some? && upper.value <= start) || (lower.Some? && lower.value > end)
      || (lower.Some? && upper.Some? && lower.value >= upper.value))
  }

  /** The filter keeps periods exactly when some completion of their unknown bounds
      gives them a common instant in the closed window. */
  lemma MayOverlapMeaning(ps: seq<Period>, start: int, end: int)
    requires AllValid(ps) && start <= end
    ensures MayOverlap(ps, start, end) <==> exists x :: start <= x <= end && PossiblyShare(ps, x)
  {
    var lower := LatestStart(ps);
    var x := if lower.Some? && lower.value > start then lower.value else start;
    if MayOverlap(ps, start, end) {
      SharedExactlyWhen(ps, x);
    }
    forall y | start <= y <= end && PossiblyShare(ps, y) ensures MayOverlap(ps, start, end) { SharedExactlyWhen(ps, y); }
  }

  datatype Regime = Regime(coverage: Period, assignment: Assignment, package: PackageKey,
                           packages: map<PackageKey, Period>, assignments: seq<Assignment>)

  ghost predicate ValidRegime(r: Regime) {
    && Valid(r.coverage) && r.package in r.packages && r.assignment in r.assignments
    && (forall k :: k in r.packages ==> Valid(r.packages[k]))
    && (forall i :: 0 <= i < |r.assignments| ==> ValidAssignment(r.assignments[i], r.packages))
    && (forall i, j :: 0 <= i < j < |r.assignments| ==> r.assignments[i].id != r.assignments[j].id)
  }

  predicate FrameCovers(r: Regime, start: int, end: int)
    requires r.package in r.packages
  {
    && Covers(r.coverage, start, end) && Covers(r.assignment.enrollment, start, end)
    && Covers(r.assignment.phase, start, end) && Covers(r.packages[r.package], start, end)
  }

  predicate RivalAssignment(r: Regime, start: int, end: int, a: Assignment) {
    a.id != r.assignment.id && MayOverlap([a.enrollment, a.phase], start, end)
  }

  predicate RivalPackage(r: Regime, start: int, end: int, b: Binding)
    requires b.package in r.packages
  {
    b.package != r.package && MayOverlap([b.effective, r.packages[b.package]], start, end)
  }

  ghost predicate NoRivals(r: Regime, start: int, end: int)
    requires ValidRegime(r)
  {
    && (forall a :: a in r.assignments ==> !RivalAssignment(r, start, end, a))
    && (forall b :: b in r.assignment.bindings ==> !RivalPackage(r, start, end, b))
  }

  /** The binding names the package and may meet the window. */
  predicate Bears(r: Regime, start: int, end: int, b: Binding) {
    b.package == r.package && MayOverlap([b.effective], start, end)
  }

  ghost predicate BoundThroughout(r: Regime, start: int, end: int) {
    && (forall b :: b in r.assignment.bindings && Bears(r, start, end, b) ==> Determined(b.effective))
    && (forall x :: start <= x <= end ==> BoundAt(r, x))
  }

  ghost predicate BoundAt(r: Regime, x: int) {
    exists b :: b in r.assignment.bindings && b.package == r.package && Holds(b.effective, x)
  }

  /** True exactly when the frame covers the window, nothing else may apply in it,
      every binding of the package that may meet it has settled bounds, and each
      of its instants lies in one of them. */
  method Historical(r: Regime, inception: int, t: int) returns (ok: bool)
    requires ValidRegime(r) && inception <= t
    ensures ok <==> FrameCovers(r, inception, t) && NoRivals(r, inception, t) && BoundThroughout(r, inception, t)
  {
    if !FrameCovers(r, inception, t) { return false; }
    for i := 0 to |r.assignments|
      invariant forall j :: 0 <= j < i ==> !RivalAssignment(r, inception, t, r.assignments[j])
    {
      if RivalAssignment(r, inception, t, r.assignments[i]) { return false; }
    }
    var settled, intervals := CollectIntervals(r, inception, t);
    if !settled { return false; }
    ok := SweepClosed(Sorted(intervals), inception, t);
    forall x | inception <= x <= t ensures BoundAt(r, x) <==> Reached(Sorted(intervals), x) {}
  }

  /** The settled intervals of the package's bindings that may meet the window,
      unless one is unsettled or another package may apply. */
  method CollectIntervals(r: Regime, start: int, end: int) returns (settled: bool, intervals: seq<Interval>)
    requires ValidRegime(r)
    ensures settled <==> forall b :: b in r.assignment.bindings ==>
      !RivalPackage(r, start, end, b) && (Bears(r, start, end, b) ==> Determined(b.effective))
    ensures settled ==> forall x :: start <= x <= end ==> (Reached(intervals, x) <==> BoundAt(r, x))
    ensures settled ==> forall v :: v in intervals && v.hi.Some? ==> v.hi.value > start
  {
    var bindings := r.assignment.bindings;
    intervals := [];
    for i := 0 to |bindings|
      invariant forall b :: b in bindings[..i] ==>
        !RivalPackage(r, start, end, b) && (Bears(r, start, end, b) ==> Determined(b.effective))
      invariant forall x :: start <= x <= end ==> (Reached(intervals, x) <==> BoundBefore(r, bindings[..i], x))
      invariant forall v :: v in intervals && v.hi.Some? ==> v.hi.value > start
    {
      var b := bindings[i];
      assert bindings[..i + 1] == bindings[..i] + [b];
      BoundMore(r, bindings[..i], b);
      if b.package != r.package {
        if MayOverlap([b.effective, r.packages[b.package]], start, end) {
          assert RivalPackage(r, start, end, b);
          return false, [];
        }
        continue;
      }
      if !MayOverlap([b.effective], start, end) {
        DroppedIsOutside(b.effective, start, end);
        continue;
      }
      if !Determined(b.effective) { return false, []; }
      var interval := Interval(b.effective.from.value, if b.effective.end.Known? then Some(b.effective.end.at) else None);
      forall x | start <= x <= end ensures Reached(intervals + [interval], x) <==> BoundBefore(r, bindings[..i + 1], x) {
        assert Within(interval, x) <==> Holds(b.effective, x);
        ReachedMore(intervals, interval, x);
      }
      intervals := intervals + [interval];
    }
    assert bindings[..|bindings|] == bindings;
    assert forall x :: BoundBefore(r, bindings, x) <==> BoundAt(r, x);
    settled := true;
  }

  ghost predicate BoundBefore(r: Regime, bindings: seq<Binding>, x: int) {
    exists b :: b in bindings && b.package == r.package && Holds(b.effective, x)
  }

  lemma BoundMore(r: Regime, bindings: seq<Binding>, b: Binding)
    ensures forall x :: BoundBefore(r, bindings + [b], x) <==> BoundBefore(r, bindings, x) || (b.package == r.package && Holds(b.effective, x))
  {
    forall x ensures BoundBefore(r, bindings + [b], x) <==> BoundBefore(r, bindings, x) || (b.package == r.package && Holds(b.effective, x)) {
      assert b in bindings + [b];
      if BoundBefore(r, bindings, x) {
        var c :| c in bindings && c.package == r.package && Holds(c.effective, x);
        assert c in bindings + [b];
      }
    }
  }

  lemma DroppedIsOutside(p: Period, start: int, end: int)
    requires Valid(p) && !MayOverlap([p], start, end)
    ensures forall x :: start <= x <= end ==> !Holds(p, x)
  {}

  /** The frontier runs over touching intervals from the first one on; it passes the
      end exactly when every instant of the closed window is reached, provided the
      intervals that end by its first instant were filtered out. */
  method SweepClosed(sorted: seq<Interval>, inception: int, t: int) returns (covered: bool)
    requires InOrder(sorted) && inception <= t
    requires forall v :: v in sorted && v.hi.Some? ==> v.hi.value > inception
    ensures covered <==> forall x :: inception <= x <= t ==> Reached(sorted, x)
  {
    if sorted == [] || sorted[0].lo > inception {
      NothingBefore(sorted, inception);
      return false;
    }
    var frontier := sorted[0].hi;
    assert sorted[0] in sorted;
    for i := 1 to |sorted|
      invariant forall x :: inception <= x && (frontier.Some? ==> x < frontier.value) ==> Reached(sorted, x)
      invariant frontier.Some? ==> frontier.value > inception
      invariant frontier.Some? ==> forall j :: 0 <= j < i ==> sorted[j].hi.Some? && sorted[j].hi.value <= frontier.value
    {
      if frontier == None { return true; }
      var v := sorted[i];
      assert v in sorted;
      if v.lo > frontier.value {
        GapAt(sorted, i, frontier.value);
        return frontier.value > t;
      }
      forall x | frontier.value <= x && (v.hi.Some? ==> x < v.hi.value) ensures Reached(sorted, x) { assert Within(v, x); }
      frontier := if v.hi == None then None else if v.hi.value > frontier.value then v.hi else frontier;
    }
    if frontier.Some? { AllEnded(sorted, frontier.value); }
    covered := frontier == None || frontier.value > t;
  }

  lemma NothingBefore(sorted: seq<Interval>, x: int)
    requires InOrder(sorted) && (sorted == [] || sorted[0].lo > x)
    ensures !Reached(sorted, x)
  {
    forall v | v in sorted ensures !Within(v, x) {
      var j :| 0 <= j < |sorted| && sorted[j] == v;
      assert j > 0 ==> Before(sorted[0], sorted[j]);
    }
  }

  lemma AllEnded(sorted: seq<Interval>, x: int)
    requires forall j :: 0 <= j < |sorted| ==> sorted[j].hi.Some? && sorted[j].hi.value <= x
    ensures !Reached(sorted, x)
  {}

  /** A gap between the intervals up to i and the rest is reached by none. */
  lemma GapAt(sorted: seq<Interval>, i: nat, x: int)
    requires InOrder(sorted) && i < |sorted| && sorted[i].lo > x
    requires forall j :: 0 <= j < i ==> sorted[j].hi.Some? && sorted[j].hi.value <= x
    ensures !Reached(sorted, x)
  {
    forall v | v in sorted ensures !Within(v, x) {
      var j :| 0 <= j < |sorted| && sorted[j] == v;
      assert j > i ==> Before(sorted[i], sorted[j]);
    }
  }

  /** What a positive answer guarantees at each instant of the window. */
  lemma HistoricalMeaning(r: Regime, inception: int, t: int, x: int)
    requires ValidRegime(r) && inception <= x <= t
    requires FrameCovers(r, inception, t) && NoRivals(r, inception, t) && BoundThroughout(r, inception, t)
    ensures Holds(r.coverage, x) && Holds(r.assignment.enrollment, x) && Holds(r.assignment.phase, x) && Holds(r.packages[r.package], x)
    ensures BoundAt(r, x)
    ensures forall a :: a in r.assignments && a.id != r.assignment.id ==> !PossiblyShare([a.enrollment, a.phase], x)
    ensures forall b :: b in r.assignment.bindings && b.package != r.package ==> !PossiblyShare([b.effective, r.packages[b.package]], x)
  {
    forall a | a in r.assignments && a.id != r.assignment.id ensures !PossiblyShare([a.enrollment, a.phase], x) {
      assert !RivalAssignment(r, inception, t, a);
      MayOverlapMeaning([a.enrollment, a.phase], inception, t);
    }
    forall b | b in r.assignment.bindings && b.package != r.package
      ensures !PossiblyShare([b.effective, r.packages[b.package]], x)
    {
      assert !RivalPackage(r, inception, t, b);
      MayOverlapMeaning([b.effective, r.packages[b.package]], inception, t);
    }
  }

  // ------------------------------------------------------------ exactly when the answer is positive

  ghost predicate MayMeet(p: Period, start: int, end: int) { exists x :: start <= x <= end && PossiblyHolds(p, x) }

  /** The frame and a binding of the package hold, and no other assignment or package can. */
  ghost predicate SafeAt(r: Regime, x: int)
    requires r.package in r.packages
  {
    && Holds(r.coverage, x) && Holds(r.assignment.enrollment, x) && Holds(r.assignment.phase, x) && Holds(r.packages[r.package], x)
    && (exists b :: b in r.assignment.bindings && b.package == r.package && Holds(b.effective, x))
    && (forall a :: a in r.assignments && a.id != r.assignment.id ==> !PossiblyShare([a.enrollment, a.phase], x))
    && (forall b :: b in r.assignment.bindings && b.package != r.package && b.package in r.packages ==>
          !PossiblyShare([b.effective, r.packages[b.package]], x))
  }

  ghost predicate BoundsSettled(r: Regime, start: int, end: int) {
    forall b :: b in r.assignment.bindings && b.package == r.package && MayMeet(b.effective, start, end) ==> Determined(b.effective)
  }

  /** The regime applied throughout exactly when every instant from inception on is safe and no binding
      of the package that may meet them has an open bound. */
  lemma HistoricalExactlyWhen(r: Regime, inception: int, t: int)
    requires ValidRegime(r) && inception <= t
    ensures FrameCovers(r, inception, t) && NoRivals(r, inception, t) && BoundThroughout(r, inception, t) <==>
      (forall x :: inception <= x <= t ==> SafeAt(r, x)) && BoundsSettled(r, inception, t)
  {
    hide MayOverlap, PossiblyShare, PossiblyHolds, Holds, Covers, Determined, MayMeet;
    if FrameCovers(r, inception, t) && NoRivals(r, inception, t) && BoundThroughout(r, inception, t) {
      forall x | inception <= x <= t ensures SafeAt(r, x) { HistoricalMeaning(r, inception, t, x); }
      forall b | b in r.assignment.bindings ensures MayOverlap([b.effective], inception, t) <==> MayMeet(b.effective, inception, t) {
        MayMeetMeans(r, b, inception, t);
      }
    }
    if (forall x :: inception <= x <= t ==> SafeAt(r, x)) && BoundsSettled(r, inception, t) {
      SafeFrame(r, inception, t);
      SafeFromRivals(r, inception, t);
      SafelyBound(r, inception, t);
    }
  }

  lemma MayMeetMeans(r: Regime, b: Binding, start: int, end: int)
    requires ValidRegime(r) && b in r.assignment.bindings && start <= end
    ensures MayOverlap([b.effective], start, end) <==> MayMeet(b.effective, start, end)
  {
    var i :| 0 <= i < |r.assignments| && r.assignments[i] == r.assignment;
    MayOverlapMeaning([b.effective], start, end);
    forall x ensures PossiblyShare([b.effective], x) <==> PossiblyHolds(b.effective, x) { HoldsPossibly(b.effective, x); }
  }

  lemma SafeFrame(r: Regime, start: int, end: int)
    requires ValidRegime(r) && start <= end && forall x :: start <= x <= end ==> SafeAt(r, x)
    ensures FrameCovers(r, start, end)
  {
    hide PossiblyShare, Holds, Covers;
    forall x | start <= x <= end
      ensures Holds(r.coverage, x) && Holds(r.assignment.enrollment, x) && Holds(r.assignment.phase, x) && Holds(r.packages[r.package], x)
    {
      assert SafeAt(r, x);
    }
    CoversMeaning(r.coverage, start, end);
    CoversMeaning(r.assignment.enrollment, start, end);
    CoversMeaning(r.assignment.phase, start, end);
    CoversMeaning(r.packages[r.package], start, end);
  }

  lemma SafeFromRivals(r: Regime, start: int, end: int)
    requires ValidRegime(r) && start <= end && forall x :: start <= x <= end ==> SafeAt(r, x)
    ensures NoRivals(r, start, end)
  {
    hide MayOverlap, PossiblyShare, Holds;
    forall a | a in r.assignments ensures !RivalAssignment(r, start, end, a) {
      MayOverlapMeaning([a.enrollment, a.phase], start, end);
      if a.id != r.assignment.id {
        forall x | start <= x <= end ensures !PossiblyShare([a.enrollment, a.phase], x) { assert SafeAt(r, x); }
      }
    }
    forall b | b in r.assignment.bindings ensures !RivalPackage(r, start, end, b) {
      MayOverlapMeaning([b.effective, r.packages[b.package]], start, end);
      if b.package != r.package {
        forall x | start <= x <= end ensures !PossiblyShare([b.effective, r.packages[b.package]], x) { assert SafeAt(r, x); }
      }
    }
  }

  lemma SafelyBound(r: Regime, start: int, end: int)
    requires ValidRegime(r) && start <= end && BoundsSettled(r, start, end) && forall x :: start <= x <= end ==> SafeAt(r, x)
    ensures BoundThroughout(r, start, end)
  {
    hide MayOverlap, PossiblyShare, Holds, Determined, MayMeet;
    forall b | b in r.assignment.bindings ensures MayOverlap([b.effective], start, end) <==> MayMeet(b.effective, start, end) {
      MayMeetMeans(r, b, start, end);
    }
    forall x | start <= x <= end ensures BoundAt(r, x) { assert SafeAt(r, x); }
  }
}
