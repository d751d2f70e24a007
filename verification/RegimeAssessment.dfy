/** Which approved rule regime, if any, applies to an account at an economic time,
    and for how long: one assignment, one package, and the approvals around it. */
module RegimeAssessment {
  import opened Wrappers
  import opened Periods
  import opened Regimes
  import opened ApprovalMerge

  datatype Completeness = Complete | Limited | UnknownCompleteness

  datatype Input = Input(
    completeness: Completeness, informationCutoff: Option<int>, coverage: Period,
    assignments: seq<Assignment>, packages: map<PackageKey, Period>, approvals: seq<Approval>,
    time: int, knowledgeBoundary: int)

  ghost predicate ValidInput(i: Input) {
    && Valid(i.coverage)
    && (forall k :: k in i.packages ==> Valid(i.packages[k]))
    && (forall j :: 0 <= j < |i.assignments| ==> ValidAssignment(i.assignments[j], i.packages))
    && (forall j :: 0 <= j < |i.approvals| ==> Valid(i.approvals[j].effective))
  }

  datatype Reason =
    | CoverageLimited | CoverageUnknown | CutoffBeforeBoundary | OutsideCoverage
    | TimingUnknown | IdentityUnknown | MultipleAssignments | MultiplePackages | ApprovalConflict
    | AssignmentNotEstablished | NoApplicablePackage | ApprovalNotEstablished | ApprovalNotEffective | ApprovalRejected

  datatype Outcome =
    | Unresolved(reasons: set<Reason>)
    | NotEstablished(reason: Reason)
    | Established(assignment: Assignment, package: PackageKey, approvals: seq<Approval>, applicable: Period)

  // ------------------------------------------------------------ three-valued membership

  /** Some(false): demonstrably inactive; None: possibly active but unsettled. */
  function Contains(p: Period, t: int): Option<bool> {
    if p.from.Some? && t < p.from.value then Some(false)
    else if p.end.Known? && t >= p.end.at then Some(false)
    else if p.from == None || p.end.UnknownEnd? then None
    else Some(true)
  }

  ghost predicate AllCompletionsHold(p: Period, t: int) { forall c :: Completes(c, p) ==> Holds(c, t) }

  ghost predicate NoCompletionHolds(p: Period, t: int) { forall c :: Completes(c, p) ==> !Holds(c, t) }

  /** An unsettled bound that cannot matter, periods being non-empty: the end is the next
      instant, or the start is this one. */
  predicate HoldsAnyway(p: Period, t: int) {
    (p.from == None && p.end == Known(t + 1)) || (p.from == Some(t) && p.end.UnknownEnd?)
  }

  /** The answer is definite exactly when every completion of the period agrees on it, except
      that it stays open in the two cases where an unsettled bound cannot matter. */
  lemma ContainsMeaning(p: Period, t: int)
    requires Valid(p)
    ensures Contains(p, t) == Some(false) <==> NoCompletionHolds(p, t)
    ensures Contains(p, t) == Some(true) <==> AllCompletionsHold(p, t) && !HoldsAnyway(p, t)
    ensures HoldsAnyway(p, t) ==> Contains(p, t) == None && AllCompletionsHold(p, t)
    ensures Contains(p, t) == Some(true) <==> Holds(p, t)
  {
    PossiblyHoldsWhen(p, t);
    assert NoCompletionHolds(p, t) <==> !PossiblyHolds(p, t);
    if Contains(p, t) == None && !HoldsAnyway(p, t) { SomeCompletionFails(p, t); }
    if Contains(p, t) == Some(false) { SomeCompletion(p); }
  }

  /** Every valid period has a completion. */
  lemma SomeCompletion(p: Period)
    requires Valid(p)
    ensures exists c :: Completes(c, p)
  {
    var start := if p.from.Some? then p.from.value else if p.end.Known? then p.end.at - 1 else 0;
    assert Completes(Period(Some(start), if p.end.UnknownEnd? then OpenEnded else p.end), p);
  }

  lemma SomeCompletionFails(p: Period, t: int)
    requires Valid(p) && Contains(p, t) == None && !HoldsAnyway(p, t)
    ensures exists c :: Completes(c, p) && !Holds(c, t)
  {
    if p.from == None {
      var c := Period(Some(if p.end.Known? then p.end.at - 1 else t + 1), if p.end.Known? then p.end else OpenEnded);
      assert Completes(c, p) && !Holds(c, t);
    } else {
      var c := Period(p.from, Known(t));
      assert Completes(c, p) && !Holds(c, t);
    }
  }

  // ------------------------------------------------------------ the stages

  predicate Possible(a: Assignment, t: int) {
    Contains(a.enrollment, t) != Some(false) && Contains(a.phase, t) != Some(false)
  }

  predicate Unsettled(a: Assignment, t: int) { Contains(a.enrollment, t) == None || Contains(a.phase, t) == None }

  function CoverageReasons(i: Input): set<Reason> {
    (if i.completeness == Limited then {CoverageLimited} else if i.completeness == UnknownCompleteness then {CoverageUnknown} else {})
    + (if i.informationCutoff.Some? && i.informationCutoff.value < i.knowledgeBoundary then {CutoffBeforeBoundary} else {})
    + (if Contains(i.coverage, i.time) != Some(true) then {OutsideCoverage} else {})
  }

  function Active(assignments: seq<Assignment>, t: int): (r: seq<Assignment>)
    ensures forall a :: a in r <==> a in assignments && Possible(a, t)
  {
    if assignments == [] then []
    else
      var last := assignments[|assignments| - 1];
      assert assignments == assignments[..|assignments| - 1] + [last];
      Active(assignments[..|assignments| - 1], t) + (if Possible(last, t) then [last] else [])
  }

  function AssignmentReasons(active: seq<Assignment>, t: int): set<Reason> {
    (if exists a :: a in active && Unsettled(a, t) then {TimingUnknown} else {})
    + (if exists a :: a in active && !a.identified then {IdentityUnknown} else {})
    + (if |active| > 1 then {MultipleAssignments} else {})
  }

  predicate PossibleBinding(b: Binding, packages: map<PackageKey, Period>, t: int)
    requires b.package in packages
  {
    Contains(b.effective, t) != Some(false) && Contains(packages[b.package], t) != Some(false)
  }

  predicate UnsettledBinding(b: Binding, packages: map<PackageKey, Period>, t: int)
    requires b.package in packages
  {
    Contains(b.effective, t) == None || Contains(packages[b.package], t) == None
  }

  ghost predicate Bound(bindings: seq<Binding>, packages: map<PackageKey, Period>) {
    forall b :: b in bindings ==> b.package in packages
  }

  function Candidates(bindings: seq<Binding>, packages: map<PackageKey, Period>, t: int): (r: seq<Binding>)
    requires Bound(bindings, packages)
    ensures forall b :: b in r <==> b in bindings && PossibleBinding(b, packages, t)
  {
    if bindings == [] then []
    else
      var last := bindings[|bindings| - 1];
      assert bindings == bindings[..|bindings| - 1] + [last];
      Candidates(bindings[..|bindings| - 1], packages, t) + (if PossibleBinding(last, packages, t) then [last] else [])
  }

  function PackageReasons(candidates: seq<Binding>, packages: map<PackageKey, Period>, t: int): set<Reason>
    requires Bound(candidates, packages)
  {
    (if exists b :: b in candidates && UnsettledBinding(b, packages, t) then {TimingUnknown} else {})
    + (if exists b, c :: b in candidates && c in candidates && b.package != c.package then {MultiplePackages} else {})
  }

  predicate Concerns(a: Approval, assignment: Assignment, package: PackageKey) {
    a.assignmentId == assignment.id && a.package == package
  }

  function Filtered(approvals: seq<Approval>, assignment: Assignment, package: PackageKey): (r: seq<Approval>)
    ensures forall a :: a in r <==> a in approvals && Concerns(a, assignment, package)
  {
    if approvals == [] then []
    else
      var last := approvals[|approvals| - 1];
      assert approvals == approvals[..|approvals| - 1] + [last];
      Filtered(approvals[..|approvals| - 1], assignment, package) + (if Concerns(last, assignment, package) then [last] else [])
  }

  /** What the approvals say before any merging; None when they establish the regime. */
  function ApprovalVerdict(approvals: seq<Approval>, t: int): Option<Outcome> {
    if approvals == [] then Some(NotEstablished(ApprovalNotEstablished))
    else if exists a :: a in approvals && Contains(a.effective, t) == None then Some(Unresolved({TimingUnknown}))
    else
      var yes := exists a :: a in approvals && a.decision == Approved && Contains(a.effective, t) == Some(true);
      var no := exists a :: a in approvals && a.decision == Rejected && Contains(a.effective, t) == Some(true);
      if yes && no then Some(Unresolved({ApprovalConflict}))
      else if no then Some(NotEstablished(ApprovalRejected))
      else if !yes then Some(NotEstablished(ApprovalNotEffective))
      else None
  }

  function IntervalOf(p: Period): Interval
    requires Determined(p)
  {
    Interval(p.from.value, if p.end.Known? then Some(p.end.at) else None)
  }

  function PeriodOf(v: Interval): Period { Period(Some(v.lo), if v.hi.Some? then Known(v.hi.value) else OpenEnded) }

  /** Where all the periods hold: the latest start and the earliest known end. */
  function Intersection(ps: seq<Period>): Period
    requires ps != [] && forall p :: p in ps ==> Determined(p)
  {
    assert ps[0] in ps;
    Period(LatestStart(ps), if EarliestEnd(ps).Some? then Known(EarliestEnd(ps).value) else OpenEnded)
  }

  lemma IntersectionHolds(ps: seq<Period>, x: int)
    requires ps != [] && forall p :: p in ps ==> Determined(p)
    ensures Holds(Intersection(ps), x) <==> forall p :: p in ps ==> Holds(p, x)
  {
    assert ps[0] in ps;
    if forall p :: p in ps ==> Holds(p, x) {
      assert forall i :: 0 <= i < |ps| ==> ps[i] in ps;
    } else {
      var p :| p in ps && !Holds(p, x);
      var i :| 0 <= i < |ps| && ps[i] == p;
    }
  }

  // ------------------------------------------------------------ establishing a regime

  /** An approval that counts towards the stretch: approving, with settled bounds. */
  predicate Countable(a: Approval) { a.decision == Approved && Determined(a.effective) }

  function Spans(approvals: seq<Approval>): (r: seq<Interval>)
    ensures forall v :: v in r <==> exists a :: a in approvals && Countable(a) && IntervalOf(a.effective) == v
  {
    if approvals == [] then []
    else
      var last := approvals[|approvals| - 1];
      assert approvals == approvals[..|approvals| - 1] + [last];
      Spans(approvals[..|approvals| - 1]) + (if Countable(last) then [IntervalOf(last.effective)] else [])
  }

  /** The countable approvals whose periods are in the given list. */
  function WithSpanIn(approvals: seq<Approval>, spans: seq<Interval>): (r: seq<Approval>)
    ensures forall a :: a in r <==> a in approvals && Countable(a) && IntervalOf(a.effective) in spans
  {
    if approvals == [] then []
    else
      var last := approvals[|approvals| - 1];
      assert approvals == approvals[..|approvals| - 1] + [last];
      WithSpanIn(approvals[..|approvals| - 1], spans)
        + (if Countable(last) && IntervalOf(last.effective) in spans then [last] else [])
  }

  function BindingPeriods(candidates: seq<Binding>): (r: seq<Period>)
    ensures |r| == |candidates| && forall k :: 0 <= k < |r| ==> r[k] == candidates[k].effective
  {
    seq(|candidates|, k requires 0 <= k < |candidates| => candidates[k].effective)
  }

  function Intervals(ps: seq<Period>): (r: seq<Interval>)
    requires forall k :: 0 <= k < |ps| ==> Determined(ps[k])
    ensures |r| == |ps| && forall k :: 0 <= k < |r| ==> r[k] == IntervalOf(ps[k])
  {
    seq(|ps|, k requires 0 <= k < |ps| => IntervalOf(ps[k]))
  }

  /** Several bindings of one package stand for their union. */
  function UnionPeriod(candidates: seq<Binding>): (p: Period)
    requires candidates != [] && forall k :: 0 <= k < |candidates| ==> Determined(candidates[k].effective)
    ensures Determined(p)
  {
    if |candidates| == 1 then candidates[0].effective
    else PeriodOf(Hull(Intervals(BindingPeriods(candidates))))
  }

  lemma UnionHolds(candidates: seq<Binding>, t: int, x: int)
    requires candidates != []
    requires forall k :: 0 <= k < |candidates| ==> Determined(candidates[k].effective) && Holds(candidates[k].effective, t)
    ensures Holds(UnionPeriod(candidates), t)
    ensures Holds(UnionPeriod(candidates), x) <==> exists k :: 0 <= k < |candidates| && Holds(candidates[k].effective, x)
  {
    hide Start, Stop;
    if |candidates| > 1 {
      var c := Intervals(BindingPeriods(candidates));
      assert forall k :: 0 <= k < |c| ==> (Within(c[k], x) <==> Holds(candidates[k].effective, x));
      assert forall k :: 0 <= k < |c| ==> Within(c[k], t);
      CommonInstantContiguous(c, t);
      if k :| 0 <= k < |candidates| && Holds(candidates[k].effective, x) {
        MemberWithinHull(c, c[k], x);
      }
      assert Within(Hull(c), x) ==> Reached(c, x);
    }
  }

  /** The stages before the approvals left exactly one assignment and one package, with settled periods. */
  ghost predicate Framed(i: Input, a: Assignment, candidates: seq<Binding>) {
    && candidates != [] && Bound(candidates, i.packages)
    && Determined(a.enrollment) && Determined(a.phase) && Determined(i.packages[candidates[0].package])
    && forall k :: 0 <= k < |candidates| ==> Determined(candidates[k].effective)
  }

  /** The approved spans linked to the time, in some order; together they leave no gap around it. */
  ghost predicate IsStretch(relevant: seq<Approval>, t: int, spans: seq<Interval>) {
    && spans != [] && Contiguous(spans) && Within(Hull(spans), t)
    && forall v :: v in spans <==> Linked(Elements(Spans(relevant)), t, v)
  }

  /** The frame cut down to the stretch of approvals. */
  function Applicable(i: Input, a: Assignment, candidates: seq<Binding>, spans: seq<Interval>): Period
    requires Framed(i, a, candidates) && spans != []
  {
    Intersection([a.enrollment, a.phase, UnionPeriod(candidates), i.packages[candidates[0].package], PeriodOf(Hull(spans))])
  }

  /** The regime that relevant approvals establish around the time. */
  ghost predicate Establishes(i: Input, a: Assignment, candidates: seq<Binding>, relevant: seq<Approval>, o: Outcome)
    requires Framed(i, a, candidates)
  {
    && o.Established? && o.assignment == a && o.package == candidates[0].package
    && (forall x :: x in o.approvals <==> (x in relevant && Countable(x) && Linked(Elements(Spans(relevant)), i.time, IntervalOf(x.effective))))
    && exists spans :: IsStretch(relevant, i.time, spans) && o.applicable == Applicable(i, a, candidates, spans)
  }

  /** The outcome, stage by stage. */
  ghost predicate Assesses(i: Input, o: Outcome)
    requires ValidInput(i)
  {
    var active := Active(i.assignments, i.time);
    if CoverageReasons(i) != {} then o == Unresolved(CoverageReasons(i))
    else if AssignmentReasons(active, i.time) != {} then o == Unresolved(AssignmentReasons(active, i.time))
    else if active == [] then o == NotEstablished(AssignmentNotEstablished)
    else
      assert active[0] in active;
      AssignmentBound(i, active[0]);
      var candidates := Candidates(active[0].bindings, i.packages, i.time);
      if PackageReasons(candidates, i.packages, i.time) != {} then o == Unresolved(PackageReasons(candidates, i.packages, i.time))
      else if candidates == [] then o == NotEstablished(NoApplicablePackage)
      else
        assert candidates[0] in candidates;
        var relevant := Filtered(i.approvals, active[0], candidates[0].package);
        var verdict := ApprovalVerdict(relevant, i.time);
        if verdict.Some? then o == verdict.value
        else
          SettledStages(i, active, candidates);
          Establishes(i, active[0], candidates, relevant, o)
  }

  lemma AssignmentBound(i: Input, a: Assignment)
    requires ValidInput(i) && a in i.assignments
    ensures Bound(a.bindings, i.packages) && Valid(a.enrollment) && Valid(a.phase)
    ensures forall b :: b in a.bindings ==> Valid(b.effective)
  {
    var j :| 0 <= j < |i.assignments| && i.assignments[j] == a;
  }

  /** Past the earlier stages, every period involved holds at the time. */
  lemma SettledStages(i: Input, active: seq<Assignment>, candidates: seq<Binding>)
    requires ValidInput(i) && active == Active(i.assignments, i.time) && active != [] && AssignmentReasons(active, i.time) == {}
    requires Bound(active[0].bindings, i.packages) && candidates == Candidates(active[0].bindings, i.packages, i.time)
    requires candidates != [] && PackageReasons(candidates, i.packages, i.time) == {}
    ensures Holds(active[0].enrollment, i.time) && Holds(active[0].phase, i.time)
    ensures forall k :: 0 <= k < |candidates| ==>
      Holds(candidates[k].effective, i.time) && candidates[k].package == candidates[0].package && candidates[k] in active[0].bindings
    ensures Holds(i.packages[candidates[0].package], i.time)
    ensures Framed(i, active[0], candidates)
  {
    assert active[0] in active;
    assert TimingUnknown !in AssignmentReasons(active, i.time);
    assert TimingUnknown !in PackageReasons(candidates, i.packages, i.time);
    assert MultiplePackages !in PackageReasons(candidates, i.packages, i.time);
    assert forall k :: 0 <= k < |candidates| ==> candidates[k] in candidates;
  }

  method MergeApprovals(relevant: seq<Approval>, t: int) returns (component: seq<Approval>, spans: seq<Interval>)
    requires forall a :: a in relevant ==> Valid(a.effective) && Contains(a.effective, t) != None
    requires exists a :: a in relevant && a.decision == Approved && Contains(a.effective, t) == Some(true)
    ensures IsStretch(relevant, t, spans)
    ensures forall x :: x in component <==> (x in relevant && Countable(x) && Linked(Elements(Spans(relevant)), t, IntervalOf(x.effective)))
  {
    var all := Spans(relevant);
    var current, others := Containing(all, t, true), Containing(all, t, false);
    SomeSpanContains(relevant, t);
    assert forall v :: v in current + others <==> v in all;
    assert Elements(current + others) == Elements(all);
    assert AllNonEmpty(all);
    spans := Merge(current, others, t);
    component := WithSpanIn(relevant, spans);
  }

  /** The intervals that do, or do not, contain the time. */
  function Containing(c: seq<Interval>, t: int, inside: bool): (r: seq<Interval>)
    ensures forall v :: v in r <==> v in c && Within(v, t) == inside
  {
    if c == [] then []
    else
      var last := c[|c| - 1];
      assert c == c[..|c| - 1] + [last];
      Containing(c[..|c| - 1], t, inside) + (if Within(last, t) == inside then [last] else [])
  }

  lemma SomeSpanContains(relevant: seq<Approval>, t: int)
    requires forall a :: a in relevant ==> Valid(a.effective) && Contains(a.effective, t) != None
    requires exists a :: a in relevant && a.decision == Approved && Contains(a.effective, t) == Some(true)
    ensures Containing(Spans(relevant), t, true) != [] && AllNonEmpty(Spans(relevant))
  {
    var a :| a in relevant && a.decision == Approved && Contains(a.effective, t) == Some(true);
    assert Countable(a) && IntervalOf(a.effective) in Spans(relevant);
    assert IntervalOf(a.effective) in Containing(Spans(relevant), t, true);
  }

  method Assess(i: Input) returns (o: Outcome)
    requires ValidInput(i)
    ensures Assesses(i, o)
  {
    if CoverageReasons(i) != {} { return Unresolved(CoverageReasons(i)); }
    var active := Active(i.assignments, i.time);
    if AssignmentReasons(active, i.time) != {} { return Unresolved(AssignmentReasons(active, i.time)); }
    if active == [] { return NotEstablished(AssignmentNotEstablished); }
    var a := active[0];
    assert a in active;
    AssignmentBound(i, a);
    var candidates := Candidates(a.bindings, i.packages, i.time);
    if PackageReasons(candidates, i.packages, i.time) != {} { return Unresolved(PackageReasons(candidates, i.packages, i.time)); }
    if candidates == [] { return NotEstablished(NoApplicablePackage); }
    assert candidates[0] in candidates;
    var relevant := Filtered(i.approvals, a, candidates[0].package);
    var verdict := ApprovalVerdict(relevant, i.time);
    if verdict.Some? { return verdict.value; }
    SettledStages(i, active, candidates);
    RelevantIsValid(i, relevant);
    var component, spans := MergeApprovals(relevant, i.time);
    o := Established(a, candidates[0].package, component, Applicable(i, a, candidates, spans));
  }

  lemma RelevantIsValid(i: Input, relevant: seq<Approval>)
    requires ValidInput(i) && forall a :: a in relevant ==> a in i.approvals
    ensures forall a :: a in relevant ==> Valid(a.effective)
  {
    forall a | a in relevant ensures Valid(a.effective) { var j :| 0 <= j < |i.approvals| && i.approvals[j] == a; }
  }

  lemma FiveHold(p: Period, q: Period, r: Period, s: Period, u: Period, x: int)
    requires Determined(p) && Determined(q) && Determined(r) && Determined(s) && Determined(u)
    ensures Holds(Intersection([p, q, r, s, u]), x) <==> Holds(p, x) && Holds(q, x) && Holds(r, x) && Holds(s, x) && Holds(u, x)
  {
    hide Intersection, Holds;
    var ps := [p, q, r, s, u];
    IntersectionHolds(ps, x);
    assert p == ps[0] && q == ps[1] && r == ps[2] && s == ps[3] && u == ps[4];
  }

  /** Some reported approval is in force at each instant of the stretch, and the time is one of them. */
  lemma StretchMeaning(relevant: seq<Approval>, t: int, spans: seq<Interval>, reported: seq<Approval>, x: int)
    requires IsStretch(relevant, t, spans)
    requires forall b :: b in reported <==> b in relevant && Countable(b) && Linked(Elements(Spans(relevant)), t, IntervalOf(b.effective))
    ensures Holds(PeriodOf(Hull(spans)), t)
    ensures Holds(PeriodOf(Hull(spans)), x) ==> exists b :: b in reported && b.decision == Approved && Holds(b.effective, x)
  {
    hide Start, Stop, Linked, Spans;
    if Holds(PeriodOf(Hull(spans)), x) {
      assert Within(Hull(spans), x) && Reached(spans, x);
      var v :| v in spans && Within(v, x);
      LinkedIsMember(Elements(Spans(relevant)), t, v);
      var b :| b in relevant && Countable(b) && IntervalOf(b.effective) == v;
      HoldsWithin(b.effective, x);
      assert b in reported;
    }
  }

  lemma HoldsWithin(p: Period, x: int)
    requires Determined(p)
    ensures Holds(p, x) <==> Within(IntervalOf(p), x)
  {}

  lemma LinkedIsMember(c: set<Interval>, t: int, v: Interval)
    requires Linked(c, t, v)
    ensures v in c
  {}

  /** And every reported approval lies in the stretch. */
  lemma ReportedInStretch(relevant: seq<Approval>, t: int, spans: seq<Interval>, b: Approval, x: int)
    requires IsStretch(relevant, t, spans) && Countable(b) && Linked(Elements(Spans(relevant)), t, IntervalOf(b.effective))
    requires Holds(b.effective, x)
    ensures Holds(PeriodOf(Hull(spans)), x)
  {
    hide Start, Stop, Linked, Spans;
    HoldsWithin(b.effective, x);
    MemberWithinHull(spans, IntervalOf(b.effective), x);
  }

  ghost predicate ReportedInForce(reported: seq<Approval>, x: int) { exists b :: b in reported && Holds(b.effective, x) }

  lemma StretchExactly(relevant: seq<Approval>, t: int, spans: seq<Interval>, reported: seq<Approval>, x: int)
    requires IsStretch(relevant, t, spans)
    requires forall b :: b in reported <==> b in relevant && Countable(b) && Linked(Elements(Spans(relevant)), t, IntervalOf(b.effective))
    ensures Holds(PeriodOf(Hull(spans)), t)
    ensures Holds(PeriodOf(Hull(spans)), x) <==> ReportedInForce(reported, x)
  {
    hide Hull, Linked, Spans, Contiguous, Within, PeriodOf, Holds, Countable;
    StretchMeaning(relevant, t, spans, reported, x);
    if b :| b in reported && Holds(b.effective, x) { ReportedInStretch(relevant, t, spans, b, x); }
  }

  ghost predicate CandidateInForce(candidates: seq<Binding>, x: int) { exists k :: 0 <= k < |candidates| && Holds(candidates[k].effective, x) }

  /** The instants of an established regime's period: the time is one of them, and they are
      exactly those at which the assignment, the package, one of the bindings that contain the
      time and one of the reported approvals are certainly in force. */
  lemma EstablishedMeaning(i: Input, a: Assignment, candidates: seq<Binding>, relevant: seq<Approval>, o: Outcome, x: int)
    requires Framed(i, a, candidates) && Establishes(i, a, candidates, relevant, o)
    requires Holds(a.enrollment, i.time) && Holds(a.phase, i.time) && Holds(i.packages[candidates[0].package], i.time)
    requires forall k :: 0 <= k < |candidates| ==> Holds(candidates[k].effective, i.time)
    ensures Holds(o.applicable, i.time)
    ensures Holds(o.applicable, x) <==>
      && Holds(a.enrollment, x) && Holds(a.phase, x) && Holds(i.packages[o.package], x)
      && CandidateInForce(candidates, x) && ReportedInForce(o.approvals, x)
  {
    hide Intersection, UnionPeriod, Hull, Linked, Spans, Contiguous, Within, ReportedInForce;
    var spans :| IsStretch(relevant, i.time, spans) && o.applicable == Applicable(i, a, candidates, spans);
    UnionHolds(candidates, i.time, x);
    StretchExactly(relevant, i.time, spans, o.approvals, x);
    var package := i.packages[candidates[0].package];
    FiveHold(a.enrollment, a.phase, UnionPeriod(candidates), package, PeriodOf(Hull(spans)), i.time);
    FiveHold(a.enrollment, a.phase, UnionPeriod(candidates), package, PeriodOf(Hull(spans)), x);
  }

  /** One of the assignment's bindings of the package is certainly in force, at the time of the
      assessment too. A binding that only adjoins those at the time does not count. */
  ghost predicate BindingInForce(a: Assignment, package: PackageKey, t: int, x: int) {
    exists b :: b in a.bindings && b.package == package && Holds(b.effective, t) && Holds(b.effective, x)
  }

  /** A recorded approval of the assignment under the package that approves, with settled bounds. */
  predicate Counts(i: Input, o: Outcome, b: Approval)
    requires o.Established?
  {
    b in i.approvals && Concerns(b, o.assignment, o.package) && Countable(b)
  }

  /** The same, read off the assessment's own inputs and outcome. */
  lemma EstablishedRegime(i: Input, o: Outcome, x: int)
    requires ValidInput(i) && Assesses(i, o) && o.Established?
    ensures o.assignment in i.assignments && o.package in i.packages
    ensures forall b :: b in o.approvals ==> Counts(i, o, b)
    ensures Holds(o.applicable, i.time)
    ensures Holds(o.applicable, x) <==>
      && Holds(o.assignment.enrollment, x) && Holds(o.assignment.phase, x) && Holds(i.packages[o.package], x)
      && BindingInForce(o.assignment, o.package, i.time, x) && ReportedInForce(o.approvals, x)
  {
    hide CoverageReasons, AssignmentReasons, PackageReasons, Establishes, Contains, ReportedInForce, PossibleBinding;
    var active := Active(i.assignments, i.time);
    assert active[0] in active;
    AssignmentBound(i, active[0]);
    var candidates := Candidates(active[0].bindings, i.packages, i.time);
    var relevant := Filtered(i.approvals, active[0], candidates[0].package);
    VerdictNeverEstablishes(relevant, i.time);
    SettledStages(i, active, candidates);
    EstablishedParts(i, active[0], candidates, relevant, o);
    EstablishedMeaning(i, active[0], candidates, relevant, o, x);
    BindingsAround(i, active[0], candidates, o.package, x);
  }

  lemma VerdictNeverEstablishes(relevant: seq<Approval>, t: int)
    ensures ApprovalVerdict(relevant, t).Some? ==> !ApprovalVerdict(relevant, t).value.Established?
  {}

  lemma EstablishedParts(i: Input, a: Assignment, candidates: seq<Binding>, relevant: seq<Approval>, o: Outcome)
    requires Framed(i, a, candidates) && Establishes(i, a, candidates, relevant, o)
    ensures o.Established? && o.assignment == a && o.package == candidates[0].package
    ensures forall b :: b in o.approvals <==>
      b in relevant && Countable(b) && Linked(Elements(Spans(relevant)), i.time, IntervalOf(b.effective))
  {}

  /** The candidates are the bindings of the package that contain the time. */
  lemma BindingsAround(i: Input, a: Assignment, candidates: seq<Binding>, package: PackageKey, x: int)
    requires Bound(a.bindings, i.packages) && candidates == Candidates(a.bindings, i.packages, i.time) && package in i.packages
    requires Holds(i.packages[package], i.time)
    requires forall k :: 0 <= k < |candidates| ==>
      Holds(candidates[k].effective, i.time) && candidates[k].package == package && candidates[k] in a.bindings
    ensures CandidateInForce(candidates, x) <==> BindingInForce(a, package, i.time, x)
  {
    if b :| b in a.bindings && b.package == package && Holds(b.effective, i.time) && Holds(b.effective, x) {
      assert PossibleBinding(b, i.packages, i.time);
      assert b in candidates;
    }
  }

  /** The stretch ends where it does for a reason: an approval that counts and is in force at, right
      before or right after an instant of a reported one is reported itself. */
  lemma StretchIsMaximal(i: Input, o: Outcome, b: Approval, c: Approval, x: int, y: int)
    requires ValidInput(i) && Assesses(i, o) && o.Established?
    requires c in o.approvals && Holds(c.effective, x) && Counts(i, o, b) && Holds(b.effective, y) && x - 1 <= y <= x + 1
    ensures b in o.approvals
  {
    hide CoverageReasons, AssignmentReasons, PackageReasons, Establishes, Contains, Linked, Spans, Holds, PossibleBinding;
    var active := Active(i.assignments, i.time);
    assert active[0] in active;
    AssignmentBound(i, active[0]);
    var candidates := Candidates(active[0].bindings, i.packages, i.time);
    var relevant := Filtered(i.approvals, active[0], candidates[0].package);
    VerdictNeverEstablishes(relevant, i.time);
    SettledStages(i, active, candidates);
    EstablishedParts(i, active[0], candidates, relevant, o);
    CloseTouch(b.effective, c.effective, y, x);
    TouchLinked(Elements(Spans(relevant)), i.time, IntervalOf(c.effective), IntervalOf(b.effective));
  }

  lemma CloseTouch(p: Period, q: Period, x: int, y: int)
    requires Holds(p, x) && Holds(q, y) && y - 1 <= x <= y + 1
    ensures Touch(IntervalOf(q), IntervalOf(p))
  {}
}
