/** Effective periods whose start may be unknown and whose end may be known,
    open or unknown. Instants are integers: timestamps are fixed-width UTC text
    at microsecond resolution, whose order is the order of instants. */
module Periods {
  import opened Wrappers
  import Sorting

  datatype End = Known(at: int) | OpenEnded | UnknownEnd

  datatype Period = Period(from: Option<int>, end: End)

  /** A known period is not empty. */
  predicate Valid(p: Period) {
    p.from.Some? && p.end.Known? ==> p.from.value < p.end.at
  }

  predicate AllValid(ps: seq<Period>) { forall i :: 0 <= i < |ps| ==> Valid(ps[i]) }

  /** Both bounds are settled. */
  predicate Determined(p: Period) { p.from.Some? && !p.end.UnknownEnd? }

  /** The instants of a determined period: start included, end excluded. */
  predicate Holds(p: Period, x: int) {
    Determined(p) && p.from.value <= x && (p.end.Known? ==> x < p.end.at)
  }

  /** A determined, non-empty period that agrees with everything known about another. */
  ghost predicate Completes(c: Period, p: Period) {
    && Determined(c) && Valid(c)
    && (p.from.Some? ==> c.from == p.from)
    && (!p.end.UnknownEnd? ==> c.end == p.end)
  }

  /** Some way of settling the unknown bounds puts an instant of the window in all the periods. */
  ghost predicate PossiblyShare(ps: seq<Period>, x: int) {
    forall i :: 0 <= i < |ps| ==> PossiblyHolds(ps[i], x)
  }

  ghost predicate PossiblyHolds(p: Period, x: int) { exists c :: Completes(c, p) && Holds(c, x) }

  lemma PossiblyHoldsWhen(p: Period, x: int)
    requires Valid(p)
    ensures PossiblyHolds(p, x) <==> (p.from.Some? ==> p.from.value <= x) && (p.end.Known? ==> x < p.end.at)
  {
    if (p.from.Some? ==> p.from.value <= x) && (p.end.Known? ==> x < p.end.at) {
      var c := Period(if p.from.Some? then p.from else Some(x), if p.end.UnknownEnd? then OpenEnded else p.end);
      assert Completes(c, p) && Holds(c, x);
    }
  }

  /** A period that holds at an instant possibly does; and sharing it alone is holding. */
  lemma HoldsPossibly(p: Period, x: int)
    requires Valid(p)
    ensures Holds(p, x) ==> PossiblyHolds(p, x)
    ensures PossiblyShare([p], x) <==> PossiblyHolds(p, x)
  {
    PossiblyHoldsWhen(p, x);
    assert [p][0] == p;
  }

  // ------------------------------------------------------------ latest start, earliest end

  function LatestStart(ps: seq<Period>): (lower: Option<int>)
    ensures lower == None <==> forall i :: 0 <= i < |ps| ==> ps[i].from == None
    ensures lower.Some? ==> forall i :: 0 <= i < |ps| && ps[i].from.Some? ==> ps[i].from.value <= lower.value
    ensures lower.Some? ==> exists i :: 0 <= i < |ps| && ps[i].from == lower
  {
    if ps == [] then None
    else
      var rest, first := LatestStart(ps[..|ps| - 1]), ps[|ps| - 1].from;
      if first == None then rest
      else if rest == None || rest.value < first.value then first else rest
  }

  function EarliestEnd(ps: seq<Period>): (upper: Option<int>)
    ensures upper == None <==> forall i :: 0 <= i < |ps| ==> !ps[i].end.Known?
    ensures upper.Some? ==> forall i :: 0 <= i < |ps| && ps[i].end.Known? ==> upper.value <= ps[i].end.at
    ensures upper.Some? ==> exists i :: 0 <= i < |ps| && ps[i].end == Known(upper.value)
  {
    if ps == [] then None
    else
      var rest, last := EarliestEnd(ps[..|ps| - 1]), ps[|ps| - 1].end;
      if !last.Known? then rest
      else if rest == None || last.at < rest.value then Some(last.at) else rest
  }

  /** The known bounds leave room for a common instant. */
  predicate Compatible(lower: Option<int>, upper: Option<int>, x: int) {
    (lower.Some? ==> lower.value <= x) && (upper.Some? ==> x < upper.value)
  }

  lemma SharedExactlyWhen(ps: seq<Period>, x: int)
    requires AllValid(ps)
    ensures PossiblyShare(ps, x) <==> Compatible(LatestStart(ps), EarliestEnd(ps), x)
  {
    forall i | 0 <= i < |ps|
      ensures PossiblyHolds(ps[i], x) <==>
        (ps[i].from.Some? ==> ps[i].from.value <= x) && (ps[i].end.Known? ==> x < ps[i].end.at)
    {
      PossiblyHoldsWhen(ps[i], x);
    }
    if PossiblyShare(ps, x) {
      assert forall i :: 0 <= i < |ps| ==> PossiblyHolds(ps[i], x);
    }
  }

  /** Every instant of [start, stop) lies in one of the determined periods. */
  ghost predicate Covered(ps: seq<Period>, start: int, stop: int) {
    forall x :: start <= x < stop ==> HeldBySome(ps, x)
  }

  ghost predicate HeldBySome(ps: seq<Period>, x: int) { exists i :: 0 <= i < |ps| && Holds(ps[i], x) }

  // ------------------------------------------------------------ intervals in order

  /** A stretch of instants from `lo` up to `hi`, or without end. */
  datatype Interval = Interval(lo: int, hi: Option<int>)

  predicate Within(v: Interval, x: int) { v.lo <= x && (v.hi.Some? ==> x < v.hi.value) }

  /** By start, then by end, open ends last. */
  predicate Before(a: Interval, b: Interval) {
    a.lo < b.lo || (a.lo == b.lo && (b.hi == None || (a.hi.Some? && a.hi.value <= b.hi.value)))
  }

  predicate InOrder(s: seq<Interval>) { forall i, j :: 0 <= i < j < |s| ==> Before(s[i], s[j]) }

  /** Some interval contains the instant. */
  ghost predicate Reached(s: seq<Interval>, x: int) { exists v :: v in s && Within(v, x) }

  lemma ReachedMore(intervals: seq<Interval>, v: Interval, x: int)
    ensures Reached(intervals + [v], x) <==> Reached(intervals, x) || Within(v, x)
  {
    assert v in intervals + [v];
    if Reached(intervals, x) {
      var u :| u in intervals && Within(u, x);
      assert u in intervals + [v];
    }
  }

  function Sorted(s: seq<Interval>): (r: seq<Interval>)
    ensures InOrder(r)
    ensures forall x :: x in r <==> x in s
  {
    Sorting.SortedInOrder(Before, s);
    Sorting.Sorted(Before, s)
  }
}
