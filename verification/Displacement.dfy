/** Displacement candles, judged against the true ranges before them, and the
    sequences of neighbouring ones in the candidate window. */
module Displacement {
  import opened Wrappers
  import opened Swings
  import Sorting

  datatype Direction = Bullish | Bearish | Neutral

  datatype Config = Config(
    lookback: nat, window: nat, minimumBody: real, minimumExpansion: real, bullishCloseMin: real, bearishCloseMax: real, minimumEvents: nat)

  predicate ValidConfig(c: Config) {
    c.window >= 1 && c.minimumEvents >= 2 && c.minimumBody >= 0.0
  }

  function Abs(x: real): real { if x < 0.0 then -x else x }

  function Max(x: real, y: real): real { if x < y then y else x }

  // ------------------------------------------------------------ one candle

  function TrueRangeAt(candles: seq<Candle>, i: nat): real
    requires i < |candles|
  {
    var c := candles[i];
    if i == 0 then c.high - c.low
    else Max(Max(c.high - c.low, Abs(c.high - candles[i - 1].close)), Abs(c.low - candles[i - 1].close))
  }

  /** The interval holds the whole candle and the close before it. */
  predicate Encloses(low: real, high: real, candles: seq<Candle>, i: nat)
    requires i < |candles|
  {
    low <= candles[i].low && candles[i].high <= high && (i > 0 ==> low <= candles[i - 1].close <= high)
  }

  /** The true range is the length of the smallest interval that holds the candle and the close before it. */
  lemma TrueRangeMeaning(candles: seq<Candle>, i: nat)
    requires i < |candles| && candles[i].low <= candles[i].high
    ensures forall low, high :: Encloses(low, high, candles, i) ==> TrueRangeAt(candles, i) <= high - low
    ensures exists low, high :: Encloses(low, high, candles, i) && TrueRangeAt(candles, i) == high - low
  {
    var c := candles[i];
    if i == 0 {
      assert Encloses(c.low, c.high, candles, i);
    } else {
      var close := candles[i - 1].close;
      var low, high := if close < c.low then close else c.low, Max(c.high, close);
      assert Encloses(low, high, candles, i) && TrueRangeAt(candles, i) == high - low;
    }
  }

  function TrueRanges(candles: seq<Candle>): (r: seq<real>)
    ensures |r| == |candles| && forall i :: 0 <= i < |r| ==> r[i] == TrueRangeAt(candles, i)
  {
    seq(|candles|, i requires 0 <= i < |candles| => TrueRangeAt(candles, i))
  }

  method BuildTrueRangeSeries(candles: seq<Candle>) returns (ranges: seq<real>)
    ensures ranges == TrueRanges(candles)
  {
    ranges := [];
    for i := 0 to |candles|
      invariant |ranges| == i && forall k :: 0 <= k < i ==> ranges[k] == TrueRangeAt(candles, k)
    {
      ranges := ranges + [TrueRangeAt(candles, i)];
    }
  }

  predicate AtMost(x: real, y: real) { x <= y }

  /** The middle value in order, or halfway between the two middle values. */
  function Median(s: seq<real>): real
    requires s != []
  {
    var sorted, half := Sorting.Sorted(AtMost, s), |s| / 2;
    if |s| % 2 == 1 then sorted[half] else (sorted[half - 1] + sorted[half]) / 2.0
  }

  /** In rising order of the values, the median is the mean of the two in the middle, which are one and the
      same when their number is odd; so half of them lie at or below it and half at or above it. */
  lemma MedianMeaning(s: seq<real>)
    requires s != []
    ensures exists r: seq<real> ::
      multiset(r) == multiset(s) && |r| == |s| && Rising(r) && 2.0 * Median(s) == r[(|r| - 1) / 2] + r[|r| / 2] && Halves(r, Median(s))
  {
    var r := Sorting.Sorted(AtMost, s);
    Sorting.SortedInOrder(AtMost, s);
    assert Rising(r) by { assert forall i, j :: 0 <= i < j < |r| ==> AtMost(r[i], r[j]); }
    MiddleHalves(r, Median(s));
  }

  ghost predicate Rising(r: seq<real>) { forall i, j :: 0 <= i < j < |r| ==> r[i] <= r[j] }

  lemma MiddleHalves(r: seq<real>, middle: real)
    requires r != [] && Rising(r)
    requires middle == if |r| % 2 == 1 then r[|r| / 2] else (r[|r| / 2 - 1] + r[|r| / 2]) / 2.0
    ensures Halves(r, middle)
  {
    var half := |r| / 2;
    assert |r| % 2 == 0 ==> r[half - 1] <= r[half];
  }

  predicate Halves(r: seq<real>, middle: real) {
    && (forall i :: 0 <= i < (|r| + 1) / 2 ==> r[i] <= middle)
    && (forall i :: |r| / 2 <= i < |r| ==> middle <= r[i])
  }

  datatype Baseline = Available(median: real) | InsufficientContext | InsufficientHistory

  function BaselineAt(ranges: seq<real>, i: nat, config: Config): Baseline
    requires i < |ranges| && ValidConfig(config)
  {
    if i < config.window then InsufficientHistory
    else
      var median := Median(ranges[i - config.window..i]);
      if median == 0.0 then InsufficientContext else Available(median)
  }

  function DirectionOf(c: Candle): Direction {
    if c.close > c.open then Bullish else if c.close < c.open then Bearish else Neutral
  }

  /** The direction of a displacement candle; None when the candle does not qualify. */
  function EvaluateCandidate(candles: seq<Candle>, ranges: seq<real>, i: nat, config: Config): (mark: Option<Direction>)
    requires i < |candles| && |ranges| == |candles| && ValidConfig(config)
    ensures mark != Some(Neutral)
  {
    var c, direction, baseline := candles[i], DirectionOf(candles[i]), BaselineAt(ranges, i, config);
    var height := c.high - c.low;
    if direction == Neutral || height == 0.0 || !baseline.Available? then None
    else
      var body, closeAt, expansion := Abs(c.close - c.open) / height, (c.close - c.low) / height, ranges[i] / baseline.median;
      var closeGate := if direction == Bullish then closeAt >= config.bullishCloseMin else closeAt <= config.bearishCloseMax;
      if body >= config.minimumBody && closeGate && expansion >= config.minimumExpansion then Some(direction) else None
  }

  // ------------------------------------------------------------ what qualifies, in prices

  /** No true range of proper candles is negative, so no median of them is. */
  lemma RangesNotNegative(candles: seq<Candle>, i: nat)
    requires i < |candles| && candles[i].low <= candles[i].high
    ensures TrueRangeAt(candles, i) >= 0.0
  {}

  lemma MedianNotNegative(s: seq<real>)
    requires s != [] && forall x :: x in s ==> x >= 0.0
    ensures Median(s) >= 0.0
  {
    var r := Sorting.Sorted(AtMost, s);
    assert r[|s| / 2] in r && r[(|s| - 1) / 2] in r;
  }

  /** A share of the height, without dividing. */
  lemma AtLeastShare(part: real, height: real, share: real)
    requires height > 0.0
    ensures part / height >= share <==> part >= share * height
    ensures part / height <= share <==> part <= share * height
  {
    assert part == part / height * height;
    ScaleOrder(part / height, share, height);
    ScaleOrder(share, part / height, height);
  }

  lemma ScaleOrder(a: real, b: real, height: real)
    requires height > 0.0
    ensures a <= b <==> a * height <= b * height
  {
    if a <= b { assert (b - a) * height >= 0.0; } else { assert (a - b) * height > 0.0; }
  }

  /** The typical true range of the candles before, when there are enough of them. */
  ghost predicate Typical(candles: seq<Candle>, i: nat, window: nat, typical: real) {
    window <= i < |candles| && 0 < window && typical == Median(TrueRanges(candles)[i - window..i])
  }

  /** Up from the open by enough of its height, closing near the high, and large for its time. */
  ghost predicate RisesFar(candles: seq<Candle>, i: nat, config: Config)
    requires i < |candles|
  {
    var c := candles[i];
    && c.open < c.close
    && c.close - c.open >= config.minimumBody * (c.high - c.low)
    && c.close - c.low >= config.bullishCloseMin * (c.high - c.low)
    && exists typical :: Typical(candles, i, config.window, typical) && typical > 0.0
         && TrueRangeAt(candles, i) >= config.minimumExpansion * typical
  }

  /** The same downwards, closing near the low. */
  ghost predicate FallsFar(candles: seq<Candle>, i: nat, config: Config)
    requires i < |candles|
  {
    var c := candles[i];
    && c.close < c.open
    && c.open - c.close >= config.minimumBody * (c.high - c.low)
    && c.close - c.low <= config.bearishCloseMax * (c.high - c.low)
    && exists typical :: Typical(candles, i, config.window, typical) && typical > 0.0
         && TrueRangeAt(candles, i) >= config.minimumExpansion * typical
  }

  /** Among proper candles these are exactly the bullish and the bearish displacement candles. */
  lemma QualifiesExactlyWhen(candles: seq<Candle>, i: nat, config: Config)
    requires ValidConfig(config) && i < |candles| && forall j :: 0 <= j < |candles| ==> Proper(candles[j])
    ensures Marks(candles, config)[i] == Some(Bullish) <==> RisesFar(candles, i, config)
    ensures Marks(candles, config)[i] == Some(Bearish) <==> FallsFar(candles, i, config)
  {
    hide Median, TrueRangeAt, TrueRanges;
    var c, ranges := candles[i], TrueRanges(candles);
    assert Proper(c);
    if i >= config.window {
      var median := Median(ranges[i - config.window..i]);
      BaselineNotNegative(candles, i, config.window);
      assert Typical(candles, i, config.window, median);
      if c.high - c.low > 0.0 && median > 0.0 { Gates(c, ranges[i], median, config); }
    }
  }

  lemma BaselineNotNegative(candles: seq<Candle>, i: nat, window: nat)
    requires 0 < window <= i < |candles| && forall j :: 0 <= j < |candles| ==> Proper(candles[j])
    ensures Median(TrueRanges(candles)[i - window..i]) >= 0.0
  {
    hide Median, TrueRangeAt;
    var before := TrueRanges(candles)[i - window..i];
    forall x | x in before ensures x >= 0.0 {
      var k :| 0 <= k < |before| && before[k] == x;
      RangesNotNegative(candles, i - window + k);
    }
    MedianNotNegative(before);
  }

  lemma Gates(c: Candle, range: real, median: real, config: Config)
    requires c.high - c.low > 0.0 && median > 0.0
    ensures var height, up := c.high - c.low, c.close - c.low;
      && (Abs(c.close - c.open) / height >= config.minimumBody <==> Abs(c.close - c.open) >= config.minimumBody * height)
      && (up / height >= config.bullishCloseMin <==> up >= config.bullishCloseMin * height)
      && (up / height <= config.bearishCloseMax <==> up <= config.bearishCloseMax * height)
      && (range / median >= config.minimumExpansion <==> range >= config.minimumExpansion * median)
  {
    AtLeastShare(Abs(c.close - c.open), c.high - c.low, config.minimumBody);
    AtLeastShare(c.close - c.low, c.high - c.low, config.bullishCloseMin);
    AtLeastShare(c.close - c.low, c.high - c.low, config.bearishCloseMax);
    AtLeastShare(range, median, config.minimumExpansion);
  }

  function Marks(candles: seq<Candle>, config: Config): (marks: seq<Option<Direction>>)
    requires ValidConfig(config)
    ensures |marks| == |candles|
    ensures forall i :: 0 <= i < |marks| ==> marks[i] == EvaluateCandidate(candles, TrueRanges(candles), i, config)
  {
    seq(|candles|, i requires 0 <= i < |candles| => EvaluateCandidate(candles, TrueRanges(candles), i, config))
  }

  /** Whether a candle qualifies is settled when it closes: later candles change nothing. */
  lemma MarksAreCausal(candles: seq<Candle>, config: Config, n: nat)
    requires ValidConfig(config) && n <= |candles|
    ensures Marks(candles[..n], config) == Marks(candles, config)[..n]
  {
    hide EvaluateCandidate, TrueRanges;
    forall i | 0 <= i < n ensures Marks(candles[..n], config)[i] == Marks(candles, config)[i] { MarkIsCausal(candles, config, n, i); }
  }

  lemma RangesAreCausal(candles: seq<Candle>, n: nat)
    requires n <= |candles|
    ensures TrueRanges(candles[..n]) == TrueRanges(candles)[..n]
  {
    hide Max, Abs;
    forall i | 0 <= i < n ensures TrueRangeAt(candles[..n], i) == TrueRangeAt(candles, i) {}
  }

  lemma MarkIsCausal(candles: seq<Candle>, config: Config, n: nat, i: nat)
    requires ValidConfig(config) && i < n <= |candles|
    ensures EvaluateCandidate(candles[..n], TrueRanges(candles[..n]), i, config) == EvaluateCandidate(candles, TrueRanges(candles), i, config)
  {
    hide Median, Abs, TrueRangeAt;
    var prefix, all := TrueRanges(candles[..n]), TrueRanges(candles);
    RangesAreCausal(candles, n);
    if i >= config.window { assert prefix[i - config.window..i] == all[i - config.window..i]; }
  }

  // ------------------------------------------------------------ sequences

  /** Candles start to end - 1, all displaced in one direction. */
  datatype Sequence = Sequence(direction: Direction, start: nat, end: nat)

  predicate SameMarks(marks: seq<Option<Direction>>, q: Sequence) {
    q.start < q.end <= |marks| && forall i :: q.start <= i < q.end ==> marks[i] == Some(q.direction)
  }

  /** A run of the whole history that neither neighbour continues. */
  predicate IsMaximalRun(marks: seq<Option<Direction>>, q: Sequence) {
    && SameMarks(marks, q)
    && (q.start > 0 ==> marks[q.start - 1] != Some(q.direction))
    && (q.end < |marks| ==> marks[q.end] != Some(q.direction))
  }

  /** What is reported: maximal runs that start in the window and are long enough. */
  predicate Reported(marks: seq<Option<Direction>>, q: Sequence, lo: nat, minimum: nat) {
    IsMaximalRun(marks, q) && lo <= q.start && q.end - q.start >= minimum
  }

  ghost predicate Complete(marks: seq<Option<Direction>>, found: seq<Sequence>, lo: nat, minimum: nat, upTo: nat) {
    && (forall q :: q in found <==> Reported(marks, q, lo, minimum) && q.end <= upTo)
    && forall i, j :: 0 <= i < j < |found| ==> found[i].end <= found[j].start
  }

  /** As many candles as have been seen of a run that starts in the window. */
  predicate Growing(marks: seq<Option<Direction>>, lo: nat, q: Sequence, excluded: bool) {
    && lo <= q.start && SameMarks(marks, q) && (q.start > lo ==> marks[q.start - 1] != Some(q.direction))
    && (excluded <==> q.start == lo && lo > 0 && marks[lo - 1] == Some(q.direction))
  }

  /** A run under construction: its members so far, and whether it continues one from before the window. */
  ghost predicate UnderConstruction(
    marks: seq<Option<Direction>>, lo: nat, start: nat, k: nat, indices: seq<nat>, direction: Option<Direction>, excluded: bool)
  {
    && lo <= start <= k <= |marks| && indices == seq(k - start, i => start + i)
    && (start == k ==> direction == None && !excluded && (k > lo ==> marks[k - 1] == None))
    && (start < k ==> direction.Some? && Growing(marks, lo, Sequence(direction.value, start, k), excluded))
  }

  lemma MarkInside(marks: seq<Option<Direction>>, q: Sequence, i: int)
    requires SameMarks(marks, q) && q.start <= i < q.end
    ensures marks[i] == Some(q.direction)
  {}

  /** A reported run that ends within the finished stretch after `start` is that stretch. */
  lemma RunIsStretch(
    marks: seq<Option<Direction>>, lo: nat, start: nat, k: nat, direction: Direction, excluded: bool, q: Sequence, minimum: nat)
    requires start < k && Growing(marks, lo, Sequence(direction, start, k), excluded)
    requires k < |marks| ==> marks[k] != Some(direction)
    requires Reported(marks, q, lo, minimum) && start < q.end <= k
    ensures q == Sequence(direction, start, k) && !excluded
  {
    var run := Sequence(direction, start, k);
    var shared := if q.start < start then start else q.start;
    MarkInside(marks, q, shared);
    MarkInside(marks, run, shared);
    if q.start < start { MarkInside(marks, q, start - 1); }
    if q.start > start { MarkInside(marks, run, q.start - 1); }
    if q.end < k { MarkInside(marks, run, q.end); }
  }

  lemma FinalizeCompletes(
    marks: seq<Option<Direction>>, found: seq<Sequence>, lo: nat, minimum: nat, start: nat, k: nat, direction: Direction, excluded: bool)
    requires Complete(marks, found, lo, minimum, start)
    requires start < k && Growing(marks, lo, Sequence(direction, start, k), excluded)
    requires k < |marks| ==> marks[k] != Some(direction)
    ensures var more := if !excluded && k - start >= minimum then found + [Sequence(direction, start, k)] else found;
      Complete(marks, more, lo, minimum, k)
  {
    var run := Sequence(direction, start, k);
    var more := if !excluded && k - start >= minimum then found + [run] else found;
    assert Reported(marks, run, lo, minimum) <==> !excluded && k - start >= minimum;
    forall q ensures q in more <==> Reported(marks, q, lo, minimum) && q.end <= k {
      if Reported(marks, q, lo, minimum) && start < q.end <= k { RunIsStretch(marks, lo, start, k, direction, excluded, q, minimum); }
    }
    forall i | 0 <= i < |found| ensures found[i].end <= start { assert found[i] in found; }
  }

  lemma SkipCompletes(marks: seq<Option<Direction>>, found: seq<Sequence>, lo: nat, minimum: nat, k: nat)
    requires Complete(marks, found, lo, minimum, k) && k < |marks| && marks[k] == None
    ensures Complete(marks, found, lo, minimum, k + 1)
  {
    forall q | Reported(marks, q, lo, minimum) ensures q.end != k + 1 {
      if q.end == k + 1 { NotAtGap(marks, q, k); }
    }
  }

  lemma NotAtGap(marks: seq<Option<Direction>>, q: Sequence, k: nat)
    requires SameMarks(marks, q) && q.end == k + 1
    ensures marks[k] != None
  {}

  /** Closing the current run, if there is one. */
  method FinalizeRun(
    ghost marks: seq<Option<Direction>>, found: seq<Sequence>, ghost lo: nat, minimum: nat, ghost start: nat, ghost k: nat,
    indices: seq<nat>, direction: Option<Direction>, excluded: bool) returns (more: seq<Sequence>)
    requires minimum >= 2 && Complete(marks, found, lo, minimum, start) && UnderConstruction(marks, lo, start, k, indices, direction, excluded)
    requires k < |marks| ==> marks[k] != direction || marks[k] == None
    ensures Complete(marks, more, lo, minimum, k)
  {
    hide Complete;
    more := found;
    if start < k { FinalizeCompletes(marks, found, lo, minimum, start, k, direction.value, excluded); }
    if !excluded && direction.Some? && |indices| >= minimum {
      more := found + [Sequence(direction.value, indices[0], indices[|indices| - 1] + 1)];
    }
  }

  /** The run detection over the candidate window, which starts at `lo`. */
  method FindSequences(marks: seq<Option<Direction>>, lo: nat, minimum: nat, continues: bool) returns (found: seq<Sequence>)
    requires minimum >= 2 && lo <= |marks|
    requires continues <==> 0 < lo < |marks| && marks[lo - 1].Some? && marks[lo - 1] == marks[lo]
    ensures Complete(marks, found, lo, minimum, |marks|)
  {
    hide Complete, Reported;
    found := [];
    var indices: seq<nat>, direction, excluded := [], None, false;
    ghost var start: nat := lo;
    NothingYet(marks, lo, minimum);
    for k := lo to |marks|
      invariant UnderConstruction(marks, lo, start, k, indices, direction, excluded)
      invariant Complete(marks, found, lo, minimum, start)
    {
      if marks[k].Some? {
        if indices != [] && direction == marks[k] {
          indices := indices + [k];
        } else {
          found := FinalizeRun(marks, found, lo, minimum, start, k, indices, direction, excluded);
          indices, direction, excluded := [k], marks[k], k == lo && continues;
          start := k;
        }
      } else {
        found := FinalizeRun(marks, found, lo, minimum, start, k, indices, direction, excluded);
        SkipCompletes(marks, found, lo, minimum, k);
        indices, direction, excluded := [], None, false;
        start := k + 1;
      }
    }
    found := FinalizeRun(marks, found, lo, minimum, start, |marks|, indices, direction, excluded);
  }

  lemma NothingYet(marks: seq<Option<Direction>>, lo: nat, minimum: nat)
    requires minimum >= 2
    ensures Complete(marks, [], lo, minimum, lo)
  {}

  /** The reported sequences are exactly the maximal runs of the whole history that lie in
      the candidate window and are long enough; in order, so no candle is in two of them. */
  method Analyze(candles: seq<Candle>, config: Config) returns (sequences: seq<Sequence>)
    requires ValidConfig(config)
    ensures var lo := if |candles| < config.lookback then 0 else |candles| - config.lookback;
      Complete(Marks(candles, config), sequences, lo, config.minimumEvents, |candles|)
  {
    hide EvaluateCandidate, Complete;
    var ranges := BuildTrueRangeSeries(candles);
    var lo := if |candles| < config.lookback then 0 else |candles| - config.lookback;
    var marks := Marks(candles, config);
    var continues := false;
    if lo > 0 && lo < |candles| {
      var prior := EvaluateCandidate(candles, ranges, lo - 1, config);
      var first := EvaluateCandidate(candles, ranges, lo, config);
      continues := prior.Some? && first.Some? && prior == first;
    }
    sequences := FindSequences(marks, lo, config.minimumEvents, continues);
  }
}
