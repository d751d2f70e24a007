/** Three-candle price gaps, and how far later candles have filled them. */
module FairValueGaps {
  import opened Wrappers
  import opened Swings

  datatype GapSide = Bullish | Bearish

  datatype Config = Config(lookback: nat, minimumGap: real, tolerance: real)

  /** A gap around candle b, between its two neighbours. */
  datatype Gap = Gap(side: GapSide, b: nat, lower: real, upper: real)

  function Width(g: Gap): real { g.upper - g.lower }

  // ------------------------------------------------------------ finding gaps

  /** The gap around a candle: its neighbours leave prices that neither reaches. */
  function GapAt(candles: seq<Candle>, b: nat): Option<Gap>
    requires 1 <= b < |candles| - 1
  {
    var before, after := candles[b - 1], candles[b + 1];
    if before.high < after.low then Some(Gap(Bullish, b, before.high, after.low))
    else if before.low > after.high then Some(Gap(Bearish, b, after.high, before.low))
    else None
  }

  /** Between the high of one neighbour and the low of the other, which lies above it: bullish when the
      earlier one is below, bearish when the later one is. A candle of the scanned part has it around it. */
  ghost predicate IsCandidate(candles: seq<Candle>, config: Config, g: Gap) {
    && 1 <= g.b && g.b + 2 <= |candles| && |candles| <= g.b + config.lookback
    && g.lower < g.upper && g.upper - g.lower >= config.minimumGap
    && var before, after := candles[g.b - 1], candles[g.b + 1];
    && (g.side == Bullish ==> g.lower == before.high && g.upper == after.low)
    && (g.side == Bearish ==> g.lower == after.high && g.upper == before.low && after.low <= before.high)
  }

  lemma GapInPrices(candles: seq<Candle>, config: Config, g: Gap)
    ensures IsCandidate(candles, config, g) <==>
      1 <= g.b < |candles| - 1 && |candles| - config.lookback <= g.b && GapAt(candles, g.b) == Some(g) && Width(g) >= config.minimumGap
  {}

  ghost predicate AllCandidates(candles: seq<Candle>, config: Config, gaps: seq<Gap>, b: int) {
    && (forall g :: g in gaps <==> IsCandidate(candles, config, g) && g.b < b)
    && forall i, j :: 0 <= i < j < |gaps| ==> gaps[i].b < gaps[j].b
  }

  method FindGaps(candles: seq<Candle>, config: Config) returns (gaps: seq<Gap>)
    ensures AllCandidates(candles, config, gaps, |candles|)
  {
    gaps := [];
    var b := if |candles| - config.lookback > 1 then |candles| - config.lookback else 1;
    while b <= |candles| - 2
      invariant 1 <= b && |candles| - config.lookback <= b
      invariant AllCandidates(candles, config, gaps, b)
    {
      var found := GapAt(candles, b);
      forall g ensures IsCandidate(candles, config, g) && g.b == b <==> found == Some(g) && Width(g) >= config.minimumGap { GapInPrices(candles, config, g); }
      if found.Some? && Width(found.value) >= config.minimumGap { gaps := gaps + [found.value]; }
      b := b + 1;
    }
  }

  // ------------------------------------------------------------ one candle and one gap

  function Clamp(value: real, low: real, high: real): real {
    var capped := if high < value then high else value;
    if low > capped then low else capped
  }

  function DepthOf(g: Gap, c: Candle): real { Clamp(if g.side == Bullish then g.upper - c.low else c.high - g.lower, 0.0, Width(g)) }

  predicate Fills(g: Gap, c: Candle) { if g.side == Bullish then c.low <= g.lower else c.high >= g.upper }

  predicate InZone(g: Gap, c: Candle, tolerance: real) { !(c.high < g.lower - tolerance || c.low > g.upper + tolerance) }

  datatype FillEvent = FullFill | PartialFill | Touch

  function EventOf(g: Gap, c: Candle, tolerance: real): Option<FillEvent> {
    if Fills(g, c) then Some(FullFill)
    else if DepthOf(g, c) > 0.0 then Some(PartialFill)
    else if InZone(g, c, tolerance) then Some(Touch)
    else None
  }

  // ------------------------------------------------------------ one candle, in prices

  /** How far into the gap the candle's wick comes, from the side the price has left. */
  ghost predicate Enters(g: Gap, c: Candle) { if g.side == Bullish then c.low < g.upper else c.high > g.lower }

  ghost predicate Closes(g: Gap, c: Candle) { if g.side == Bullish then c.low <= g.lower else c.high >= g.upper }

  /** Within the tolerance of the gap, on either side. */
  ghost predicate Near(g: Gap, c: Candle, tolerance: real) { c.high + tolerance >= g.lower && c.low - tolerance <= g.upper }

  /** A candle fills the gap when its wick gets to the far side, partly when it only gets in; otherwise
      it touches it when it comes within the tolerance. */
  lemma EventInPrices(g: Gap, c: Candle, tolerance: real)
    requires g.lower < g.upper
    ensures EventOf(g, c, tolerance) == Some(FullFill) <==> Closes(g, c)
    ensures EventOf(g, c, tolerance) == Some(PartialFill) <==> Enters(g, c) && !Closes(g, c)
    ensures EventOf(g, c, tolerance) == Some(Touch) <==> !Enters(g, c) && Near(g, c, tolerance)
  {}

  /** The depth is the distance from the near side, no more than the width. */
  lemma DepthInPrices(g: Gap, c: Candle)
    requires g.lower < g.upper
    ensures !Enters(g, c) ==> DepthOf(g, c) == 0.0
    ensures Closes(g, c) ==> DepthOf(g, c) == g.upper - g.lower
    ensures Enters(g, c) && !Closes(g, c) ==>
      0.0 < DepthOf(g, c) < g.upper - g.lower && if g.side == Bullish then c.low + DepthOf(g, c) == g.upper else g.lower + DepthOf(g, c) == c.high
    ensures Fills(g, c) <==> Closes(g, c)
  {}

  // ------------------------------------------------------------ closed forms over the candles after the gap

  datatype FillStatus = Open | PartiallyFilled | FullyFilled

  /** The deepest fill by any of the candles. */
  function Deepest(g: Gap, cs: seq<Candle>): (depth: real)
    requires g.lower < g.upper
    ensures 0.0 <= depth <= Width(g)
    ensures forall c :: c in cs ==> DepthOf(g, c) <= depth
    ensures depth == 0.0 || exists c :: c in cs && DepthOf(g, c) == depth
  {
    if cs == [] then 0.0
    else
      var last, rest := cs[|cs| - 1], Deepest(g, cs[..|cs| - 1]);
      assert cs == cs[..|cs| - 1] + [last];
      if DepthOf(g, last) > rest then DepthOf(g, last) else rest
  }

  function StatusBy(depth: real, g: Gap): FillStatus {
    if depth == Width(g) then FullyFilled else if depth > 0.0 then PartiallyFilled else Open
  }

  /** The first candle, in order, that satisfies the condition. */
  function FirstWhere(cs: seq<Candle>, condition: Candle -> bool): Option<Candle> {
    if cs == [] then None
    else
      var earlier, last := FirstWhere(cs[..|cs| - 1], condition), cs[|cs| - 1];
      if earlier.Some? then earlier else if condition(last) then Some(last) else None
  }

  function LastWhere(cs: seq<Candle>, condition: Candle -> bool): Option<Candle> {
    if cs == [] then None else if condition(cs[|cs| - 1]) then Some(cs[|cs| - 1]) else LastWhere(cs[..|cs| - 1], condition)
  }

  datatype Interaction = Interaction(candle: Candle, event: FillEvent, depth: real, status: FillStatus)

  /** One entry for each candle that meets the gap, with the status it leaves. */
  function Interactions(g: Gap, cs: seq<Candle>, tolerance: real): seq<Interaction>
    requires g.lower < g.upper
  {
    if cs == [] then []
    else
      var last := cs[|cs| - 1];
      var event := EventOf(g, last, tolerance);
      Interactions(g, cs[..|cs| - 1], tolerance)
        + (if event.Some? then [Interaction(last, event.value, DepthOf(g, last), StatusBy(Deepest(g, cs), g))] else [])
  }

  function TimeOf(c: Option<Candle>): Option<Timestamp> { if c.Some? then Some(c.value.timestamp) else None }

  lemma FillsExactlyWhen(g: Gap, c: Candle)
    requires g.lower < g.upper
    ensures 0.0 <= DepthOf(g, c) <= Width(g)
    ensures Fills(g, c) <==> DepthOf(g, c) == Width(g)
  {}

  datatype Fill = Fill(
    depth: real, percentage: real, status: FillStatus, first: Option<Timestamp>, last: Option<Timestamp>, full: Option<Timestamp>, interactions: seq<Interaction>)

  /** What the tracking of a gap amounts to, without any loop state. */
  function FillOf(g: Gap, cs: seq<Candle>, tolerance: real): Fill
    requires g.lower < g.upper
  {
    var depth := Deepest(g, cs);
    Fill(depth, depth / Width(g) * 100.0, StatusBy(depth, g),
         TimeOf(FirstWhere(cs, c => EventOf(g, c, tolerance).Some?)), TimeOf(LastWhere(cs, c => EventOf(g, c, tolerance).Some?)),
         TimeOf(FirstWhere(cs, c => Fills(g, c))), Interactions(g, cs, tolerance))
  }

  // ------------------------------------------------------------ the loop

  lemma ScaleMonotone(a: real, b: real, w: real)
    requires w > 0.0 && a <= b
    ensures a / w * 100.0 <= b / w * 100.0
  {
    assert b / w - a / w == (b - a) / w >= 0.0;
  }

  /** A candle that meets nothing leaves everything as it was. */
  lemma NothingMet(g: Gap, cs: seq<Candle>, c: Candle, tolerance: real)
    requires g.lower < g.upper && EventOf(g, c, tolerance) == None
    ensures FillOf(g, cs + [c], tolerance) == FillOf(g, cs, tolerance)
  {
    hide Clamp;
    assert (cs + [c])[..|cs|] == cs;
    FillsExactlyWhen(g, c);
  }

  /** One more candle that meets the gap. */
  lemma OneMoreMet(g: Gap, cs: seq<Candle>, c: Candle, tolerance: real)
    requires g.lower < g.upper && EventOf(g, c, tolerance).Some?
    ensures var f, f' := FillOf(g, cs, tolerance), FillOf(g, cs + [c], tolerance);
      && f'.depth == (if DepthOf(g, c) > f.depth then DepthOf(g, c) else f.depth)
      && f'.status == StatusBy(f'.depth, g)
      && f'.first == (if f.first.Some? then f.first else Some(c.timestamp)) && f'.last == Some(c.timestamp)
      && f'.full == (if f.full.Some? then f.full else if Fills(g, c) then Some(c.timestamp) else None)
      && f'.interactions == f.interactions + [Interaction(c, EventOf(g, c, tolerance).value, DepthOf(g, c), f'.status)]
  {
    hide Clamp;
    assert (cs + [c])[..|cs|] == cs;
  }

  /** The status the loop keeps is the one the depth implies. */
  lemma StatusStep(g: Gap, depth: real, c: Candle, tolerance: real)
    requires g.lower < g.upper && 0.0 <= depth <= Width(g) && EventOf(g, c, tolerance).Some?
    ensures var event, status := EventOf(g, c, tolerance).value, StatusBy(depth, g);
      StatusBy(if DepthOf(g, c) > depth then DepthOf(g, c) else depth, g)
      == if status == FullyFilled || event == FullFill then FullyFilled
         else if event == PartialFill && status == Open then PartiallyFilled else status
  {
    hide Clamp;
    FillsExactlyWhen(g, c);
  }

  lemma PercentageStep(g: Gap, depth: real, more: real)
    requires g.lower < g.upper
    ensures var w := Width(g);
      (if more > depth then more else depth) / w * 100.0
      == if more / w * 100.0 > depth / w * 100.0 then more / w * 100.0 else depth / w * 100.0
  {
    if more > depth { ScaleMonotone(depth, more, Width(g)); } else { ScaleMonotone(more, depth, Width(g)); }
  }

  /** What one event does to each of the loop's variables. */
  lemma FillStep(g: Gap, cs: seq<Candle>, c: Candle, tolerance: real)
    requires g.lower < g.upper && EventOf(g, c, tolerance).Some?
    ensures var f, f', event, depth := FillOf(g, cs, tolerance), FillOf(g, cs + [c], tolerance), EventOf(g, c, tolerance).value, DepthOf(g, c);
      && f'.depth == (if depth > f.depth then depth else f.depth)
      && f'.percentage == (if depth / Width(g) * 100.0 > f.percentage then depth / Width(g) * 100.0 else f.percentage)
      && f'.status == (if f.status == FullyFilled || event == FullFill then FullyFilled
                       else if event == PartialFill && f.status == Open then PartiallyFilled else f.status)
      && f'.first == (if f.first.Some? then f.first else Some(c.timestamp)) && f'.last == Some(c.timestamp)
      && f'.full == (if f.full.Some? then f.full else if event == FullFill then Some(c.timestamp) else None)
      && f'.interactions == f.interactions + [Interaction(c, event, depth, f'.status)]
  {
    hide FillOf, DepthOf, Fills, InZone, StatusBy;
    var f, f' := FillOf(g, cs, tolerance), FillOf(g, cs + [c], tolerance);
    FillShape(g, cs, tolerance);
    FillShape(g, cs + [c], tolerance);
    OneMoreMet(g, cs, c, tolerance);
    StatusStep(g, f.depth, c, tolerance);
    PercentageStep(g, f.depth, DepthOf(g, c));
  }

  lemma FillShape(g: Gap, cs: seq<Candle>, tolerance: real)
    requires g.lower < g.upper
    ensures var f := FillOf(g, cs, tolerance);
      0.0 <= f.depth <= Width(g) && f.status == StatusBy(f.depth, g) && f.percentage == f.depth / Width(g) * 100.0
  {}

  method TrackFill(g: Gap, candles: seq<Candle>, tolerance: real) returns (f: Fill)
    requires g.lower < g.upper && g.b + 1 < |candles|
    ensures f == FillOf(g, candles[g.b + 2..], tolerance)
  {
    hide FillOf, EventOf;
    var start := g.b + 2;
    f := Fill(0.0, 0.0, Open, None, None, None, []);
    NothingYet(g, tolerance);
    assert candles[start..start] == [];
    for k := start to |candles|
      invariant f == FillOf(g, candles[start..k], tolerance)
    {
      var c := candles[k];
      assert candles[start..k + 1] == candles[start..k] + [c];
      var event := EventOf(g, c, tolerance);
      if event == None {
        NothingMet(g, candles[start..k], c, tolerance);
      } else {
        f := AfterEvent(g, candles[start..k], f, c, event.value, tolerance);
      }
    }
    assert candles[start..|candles|] == candles[start..];
  }

  lemma NothingYet(g: Gap, tolerance: real)
    requires g.lower < g.upper
    ensures FillOf(g, [], tolerance) == Fill(0.0, 0.0, Open, None, None, None, [])
  {}

  /** One event's effect on the loop's variables. */
  method AfterEvent(g: Gap, ghost cs: seq<Candle>, f: Fill, c: Candle, event: FillEvent, tolerance: real) returns (f': Fill)
    requires g.lower < g.upper && EventOf(g, c, tolerance) == Some(event) && f == FillOf(g, cs, tolerance)
    ensures f' == FillOf(g, cs + [c], tolerance)
  {
    FillStep(g, cs, c, tolerance);
    hide FillOf, DepthOf, InZone;
    var fillDepth := DepthOf(g, c);
    var percentage := fillDepth / Width(g) * 100.0;
    var status := f.status;
    if status != FullyFilled {
      if event == FullFill {
        status := FullyFilled;
      } else if event == PartialFill && status == Open {
        status := PartiallyFilled;
      }
    }
    f' := Fill(
      if fillDepth > f.depth then fillDepth else f.depth, if percentage > f.percentage then percentage else f.percentage, status,
      if f.first == None then Some(c.timestamp) else f.first, Some(c.timestamp),
      if event == FullFill && f.full == None then Some(c.timestamp) else f.full,
      f.interactions + [Interaction(c, event, fillDepth, status)]);
  }

  // ------------------------------------------------------------ what the fill means

  lemma {:induction false} FirstFound(cs: seq<Candle>, condition: Candle -> bool)
    ensures FirstWhere(cs, condition).Some? <==> exists c :: c in cs && condition(c)
    ensures FirstWhere(cs, condition).Some? ==>
      exists k :: 0 <= k < |cs| && cs[k] == FirstWhere(cs, condition).value && condition(cs[k]) && forall j :: 0 <= j < k ==> !condition(cs[j])
  {
    if cs != [] {
      assert cs == cs[..|cs| - 1] + [cs[|cs| - 1]];
      FirstFound(cs[..|cs| - 1], condition);
    }
  }

  /** Depth, status and the instants of the interactions tell the same story: the gap is filled
      exactly when some later candle closed it, and partly filled exactly when some candle
      entered it and none closed it. */
  lemma FillMeaning(g: Gap, cs: seq<Candle>, tolerance: real)
    requires g.lower < g.upper
    ensures var f := FillOf(g, cs, tolerance);
      && (f.status == FullyFilled <==> exists c :: c in cs && Closes(g, c))
      && (f.status == FullyFilled <==> f.full.Some?)
      && (f.status == Open <==> forall c :: c in cs ==> !Enters(g, c))
      && (f.first.Some? <==> exists c :: c in cs && (Enters(g, c) || Near(g, c, tolerance)))
  {
    hide DepthOf, Fills, EventOf, Interactions, Enters, Closes, Near;
    FirstFound(cs, c => Fills(g, c));
    FirstFound(cs, c => EventOf(g, c, tolerance).Some?);
    forall c | c in cs
      ensures (Fills(g, c) <==> Closes(g, c)) && (DepthOf(g, c) == 0.0 <==> !Enters(g, c))
      ensures EventOf(g, c, tolerance).Some? <==> Enters(g, c) || Near(g, c, tolerance)
    {
      DepthInPrices(g, c);
      EventInPrices(g, c, tolerance);
      if Closes(g, c) { ClosingEnters(g, c); }
      match EventOf(g, c, tolerance)
      case None =>
      case Some(FullFill) =>
      case Some(PartialFill) =>
      case Some(Touch) =>
    }
    forall c | c in cs ensures 0.0 <= DepthOf(g, c) <= Width(g) && (Fills(g, c) <==> DepthOf(g, c) == Width(g)) { FillsExactlyWhen(g, c); }
  }

  lemma ClosingEnters(g: Gap, c: Candle)
    requires g.lower < g.upper && Closes(g, c)
    ensures Enters(g, c)
  {}

  /** Later candles never undo a fill. */
  lemma {:induction false} NeverUnfills(g: Gap, cs: seq<Candle>, more: seq<Candle>, tolerance: real)
    requires g.lower < g.upper
    ensures var f, f' := FillOf(g, cs, tolerance), FillOf(g, cs + more, tolerance);
      && f.depth <= f'.depth && |f.interactions| <= |f'.interactions| && f'.interactions[..|f.interactions|] == f.interactions
      && (f.full.Some? ==> f'.full == f.full) && (f.first.Some? ==> f'.first == f.first)
      && (f.status == FullyFilled ==> f'.status == FullyFilled) && (f.status == PartiallyFilled ==> f'.status != Open)
    decreases |more|
  {
    hide EventOf, DepthOf, Fills;
    if more == [] {
      assert cs + more == cs;
    } else {
      var front, last := more[..|more| - 1], more[|more| - 1];
      assert cs + more == (cs + front) + [last];
      NeverUnfills(g, cs, front, tolerance);
      if EventOf(g, last, tolerance) == None { NothingMet(g, cs + front, last, tolerance); } else { OneMoreMet(g, cs + front, last, tolerance); }
    }
  }
}
