/** Market structure from confirmed swings, and breaks of it judged against the
    swings that were confirmed before the last candle. */
module MarketStructure {
  import opened Wrappers
  import opened CodePoints
  import opened Swings

  datatype Relation = Higher | Lower | Unclassified

  datatype Structure = BullishStructure | BearishStructure | Unresolved

  function Compare(latest: real, previous: real): Relation {
    if latest > previous then Higher else if latest < previous then Lower else Unclassified
  }

  /** The relation of the last two swings of a side, by the price the side is about. */
  function LatestRelation(candles: seq<Candle>, side: Side, swings: seq<nat>): Relation
    requires forall i :: i in swings ==> i < |candles|
  {
    if |swings| < 2 then Unclassified
    else
      assert swings[|swings| - 1] in swings && swings[|swings| - 2] in swings;
      Compare(PriceOf(candles, side, swings[|swings| - 1]), PriceOf(candles, side, swings[|swings| - 2]))
  }

  function PriceOf(candles: seq<Candle>, side: Side, i: nat): real
    requires i < |candles|
  {
    if side == High then candles[i].high else candles[i].low
  }

  function StructureOf(candles: seq<Candle>): Structure {
    SwingsMeaning(candles, High, |candles|);
    SwingsMeaning(candles, Low, |candles|);
    var highs, lows := SwingsBelow(candles, High, |candles|), SwingsBelow(candles, Low, |candles|);
    if |highs| < 2 || |lows| < 2 then Unresolved
    else if LatestRelation(candles, High, highs) == Higher && LatestRelation(candles, Low, lows) == Higher then BullishStructure
    else if LatestRelation(candles, High, highs) == Lower && LatestRelation(candles, Low, lows) == Lower then BearishStructure
    else Unresolved
  }

  /** The last swing of a side is at i, and the one before it at j. */
  ghost predicate LastTwo(candles: seq<Candle>, side: Side, i: nat, j: nat) {
    && j < i && IsSwing(candles, side, i) && IsSwing(candles, side, j)
    && forall k: nat :: IsSwing(candles, side, k) && k != i && k != j ==> k < j
  }

  lemma LastTwoAreLast(candles: seq<Candle>, side: Side)
    ensures var s := SwingsBelow(candles, side, |candles|);
      && (|s| >= 2 ==> LastTwo(candles, side, s[|s| - 1], s[|s| - 2]))
      && forall i: nat, j: nat :: LastTwo(candles, side, i, j) ==> |s| >= 2 && s[|s| - 1] == i && s[|s| - 2] == j
  {
    hide IsSwing, SwingsBelow;
    SwingsMeaning(candles, side, |candles|);
    SwingsInside(candles, side);
    var s := SwingsBelow(candles, side, |candles|);
    if |s| >= 2 {
      assert s[|s| - 1] in s && s[|s| - 2] in s;
      forall k: nat | IsSwing(candles, side, k) && k != s[|s| - 1] && k != s[|s| - 2] ensures k < s[|s| - 2] {
        assert k in s;
        var n :| 0 <= n < |s| && s[n] == k;
      }
    }
    forall i: nat, j: nat | LastTwo(candles, side, i, j) ensures |s| >= 2 && s[|s| - 1] == i && s[|s| - 2] == j {
      assert i in s && j in s;
      var m :| 0 <= m < |s| && s[m] == i;
      var n :| 0 <= n < |s| && s[n] == j;
      assert s[|s| - 1] in s && IsSwing(candles, side, s[|s| - 1]);
      assert s[|s| - 2] in s && IsSwing(candles, side, s[|s| - 2]);
    }
  }

  lemma SwingsInside(candles: seq<Candle>, side: Side)
    ensures forall k: nat :: IsSwing(candles, side, k) ==> k < |candles|
  {}

  /** The prices that the side is about went up, or down, from the last swing but one to the last. */
  ghost predicate Went(candles: seq<Candle>, side: Side, up: bool) {
    exists i: nat, j: nat :: LastTwo(candles, side, i, j) && i < |candles|
      && var now, before := if side == High then candles[i].high else candles[i].low, if side == High then candles[j].high else candles[j].low;
         if up then now > before else now < before
  }

  /** Bullish while both the highs and the lows of the last swings rise, bearish while both fall. */
  lemma StructureMeaning(candles: seq<Candle>)
    ensures StructureOf(candles) == BullishStructure <==> Went(candles, High, true) && Went(candles, Low, true)
    ensures StructureOf(candles) == BearishStructure <==> Went(candles, High, false) && Went(candles, Low, false)
  {
    hide IsSwing, SwingsBelow, LastTwo;
    SwingsMeaning(candles, High, |candles|);
    SwingsMeaning(candles, Low, |candles|);
    LastTwoAreLast(candles, High);
    LastTwoAreLast(candles, Low);
    WentOrNot(candles, High);
    WentOrNot(candles, Low);
  }

  lemma WentOrNot(candles: seq<Candle>, side: Side)
    requires forall i :: i in SwingsBelow(candles, side, |candles|) ==> i < |candles|
    ensures var s := SwingsBelow(candles, side, |candles|);
      && (Went(candles, side, true) <==> LatestRelation(candles, side, s) == Higher)
      && (Went(candles, side, false) <==> LatestRelation(candles, side, s) == Lower)
  {
    hide IsSwing, SwingsBelow, LastTwo;
    LastTwoAreLast(candles, side);
    var s := SwingsBelow(candles, side, |candles|);
    if |s| >= 2 {
      assert s[|s| - 1] in s && s[|s| - 2] in s;
      assert LastTwo(candles, side, s[|s| - 1], s[|s| - 2]);
    }
  }

  datatype Anchor = Anchor(index: nat, timestamp: Timestamp, price: real)

  /** The latest swing of a side that the candles confirm. */
  function LatestAnchor(candles: seq<Candle>, side: Side): (a: Option<Anchor>)
    ensures a.Some? ==> IsSwing(candles, side, a.value.index) && a.value.price == PriceOf(candles, side, a.value.index)
    ensures a.Some? ==> a.value.timestamp == candles[a.value.index].timestamp
    ensures a.Some? ==> forall i: nat :: IsSwing(candles, side, i) ==> i <= a.value.index
  {
    SwingsMeaning(candles, side, |candles|);
    var swings := SwingsBelow(candles, side, |candles|);
    if swings == [] then None
    else
      var i := swings[|swings| - 1];
      assert i in swings;
      Some(Anchor(i, candles[i].timestamp, PriceOf(candles, side, i)))
  }

  datatype Break = Break(continuationCandidate: bool, continuation: bool, reversalCandidate: bool, reversal: bool, broken: Option<Side>)

  predicate ReachesAbove(c: Candle, a: Anchor) { c.high > a.price }

  predicate ClosesAbove(c: Candle, a: Anchor) { TextAfter(c.timestamp, a.timestamp) && c.close > a.price }

  predicate ReachesBelow(c: Candle, a: Anchor) { c.low < a.price }

  predicate ClosesBelow(c: Candle, a: Anchor) { TextAfter(c.timestamp, a.timestamp) && c.close < a.price }

  function BreakOf(structure: Structure, c: Candle, high: Anchor, low: Anchor): Break
    requires structure != Unresolved
  {
    match structure
    case BullishStructure =>
      Break(ReachesAbove(c, high), ClosesAbove(c, high), ReachesBelow(c, low), ClosesBelow(c, low),
            if ClosesAbove(c, high) then Some(High) else if ClosesBelow(c, low) then Some(Low) else None)
    case BearishStructure =>
      Break(ReachesBelow(c, low), ClosesBelow(c, low), ReachesAbove(c, high), ClosesAbove(c, high),
            if ClosesBelow(c, low) then Some(Low) else if ClosesAbove(c, high) then Some(High) else None)
  }

  /** A resolved structure has both anchors, so a break always has something to be judged against. */
  lemma ResolvedHasAnchors(candles: seq<Candle>)
    requires StructureOf(candles) != Unresolved
    ensures forall side :: LatestAnchor(candles, side).Some?
  {
    forall side ensures LatestAnchor(candles, side).Some? { assert side == High || side == Low; }
  }

  /** The break state of a history: its last candle against the structure before it. */
  function Analyze(candles: seq<Candle>): Break
    requires candles != []
  {
    var prior := candles[..|candles| - 1];
    if StructureOf(prior) == Unresolved then Break(false, false, false, false, None)
    else
      ResolvedHasAnchors(prior);
      BreakOf(StructureOf(prior), candles[|candles| - 1], LatestAnchor(prior, High).value, LatestAnchor(prior, Low).value)
  }

  /** The prior anchors are exactly the swings that a candle before the last one confirmed:
      the last candle neither is one nor confirms one. */
  lemma AnchorsConfirmedBefore(candles: seq<Candle>, side: Side, i: nat)
    requires candles != []
    ensures IsSwing(candles[..|candles| - 1], side, i) <==> IsSwing(candles, side, i) && i + 1 < |candles| - 1
  {}

  /** Confirmed breaks are candidates too, an anchor is reported exactly when a break is confirmed, and
      where the structure is unresolved there is nothing to break. */
  lemma BreakMeaning(candles: seq<Candle>)
    requires candles != [] && Proper(candles[|candles| - 1])
    ensures var b := Analyze(candles);
      && (b.continuation ==> b.continuationCandidate) && (b.reversal ==> b.reversalCandidate)
      && (b.broken.Some? <==> b.continuation || b.reversal)
      && (StructureOf(candles[..|candles| - 1]) == Unresolved ==> !b.continuationCandidate && !b.reversalCandidate)
  {
    hide StructureOf, LatestAnchor;
  }

  /** What is reported of a break, in prices and texts: going on beyond the swing on the structure's own side
      continues it, going beyond the other one reverses it; and the side reported is the first confirmed. */
  lemma BreakInPrices(candles: seq<Candle>)
    requires candles != [] && StructureOf(candles[..|candles| - 1]) != Unresolved
    ensures var b, last, prior := Analyze(candles), candles[|candles| - 1], candles[..|candles| - 1];
      var onward, back := if StructureOf(prior) == BullishStructure then High else Low, if StructureOf(prior) == BullishStructure then Low else High;
      && LatestAnchor(prior, onward).Some? && LatestAnchor(prior, back).Some?
      && (b.continuationCandidate <==> WickBeyond(last, onward, LatestAnchor(prior, onward).value))
      && (b.continuation <==> CloseBeyond(last, onward, LatestAnchor(prior, onward).value))
      && (b.reversalCandidate <==> WickBeyond(last, back, LatestAnchor(prior, back).value))
      && (b.reversal <==> CloseBeyond(last, back, LatestAnchor(prior, back).value))
      && (b.broken == Some(onward) <==> b.continuation) && (b.broken == Some(back) <==> b.reversal && !b.continuation)
  {
    hide StructureOf, LatestAnchor;
    ResolvedHasAnchors(candles[..|candles| - 1]);
  }

  ghost predicate WickBeyond(c: Candle, side: Side, a: Anchor) { if side == High then a.price < c.high else c.low < a.price }

  /** The close lies beyond the price, and the timestamp reads later. */
  ghost predicate CloseBeyond(c: Candle, side: Side, a: Anchor) {
    (if side == High then a.price < c.close else c.close < a.price) && a.timestamp.text != c.timestamp.text && Leq(a.timestamp.text, c.timestamp.text)
  }

  /** The close confirms a break upwards, whichever role that plays in the structure. */
  predicate BrokenUp(candles: seq<Candle>)
    requires candles != []
  {
    if StructureOf(candles[..|candles| - 1]) == BullishStructure then Analyze(candles).continuation else Analyze(candles).reversal
  }

  predicate BrokenDown(candles: seq<Candle>)
    requires candles != []
  {
    if StructureOf(candles[..|candles| - 1]) == BullishStructure then Analyze(candles).reversal else Analyze(candles).continuation
  }

  /** The last close lies beyond the latest prior swing of the side. */
  predicate ClosesBeyond(candles: seq<Candle>, side: Side)
    requires candles != [] && StructureOf(candles[..|candles| - 1]) != Unresolved
  {
    var prior := candles[..|candles| - 1];
    ResolvedHasAnchors(prior);
    var close, price := candles[|candles| - 1].close, LatestAnchor(prior, side).value.price;
    if side == High then close > price else close < price
  }

  /** The text of the last timestamp sorts after that of the swing. */
  predicate ReadsLater(candles: seq<Candle>, side: Side)
    requires candles != [] && StructureOf(candles[..|candles| - 1]) != Unresolved
  {
    var prior := candles[..|candles| - 1];
    ResolvedHasAnchors(prior);
    TextAfter(candles[|candles| - 1].timestamp, LatestAnchor(prior, side).value.timestamp)
  }

  /** A close beyond a swing is confirmed exactly when its timestamp also reads later; and
      one close confirms both breaks exactly when it lies beyond both swings and reads later. */
  lemma ConfirmedExactlyWhen(candles: seq<Candle>)
    requires candles != []
    ensures StructureOf(candles[..|candles| - 1]) == Unresolved ==> !BrokenUp(candles) && !BrokenDown(candles)
    ensures StructureOf(candles[..|candles| - 1]) != Unresolved ==>
      && (BrokenUp(candles) <==> ClosesBeyond(candles, High) && ReadsLater(candles, High))
      && (BrokenDown(candles) <==> ClosesBeyond(candles, Low) && ReadsLater(candles, Low))
  {
    hide StructureOf, LatestAnchor, TextAfter;
  }

  /** The texts sort as the instants do, as they do when all have one form and one offset. */
  predicate TextsFollowInstants(candles: seq<Candle>) {
    forall i, j :: 0 <= i < |candles| && 0 <= j < |candles| && candles[i].timestamp.instant < candles[j].timestamp.instant ==>
      TextAfter(candles[j].timestamp, candles[i].timestamp)
  }

  /** In such a history only the prices matter. */
  lemma UniformTexts(candles: seq<Candle>)
    requires candles != [] && Chronological(candles) && TextsFollowInstants(candles)
    requires StructureOf(candles[..|candles| - 1]) != Unresolved
    ensures BrokenUp(candles) <==> ClosesBeyond(candles, High)
    ensures BrokenDown(candles) <==> ClosesBeyond(candles, Low)
  {
    hide StructureOf, LatestAnchor, TextAfter, BrokenUp, BrokenDown, ClosesBeyond;
    ConfirmedExactlyWhen(candles);
    var prior, n := candles[..|candles| - 1], |candles| - 1;
    ResolvedHasAnchors(prior);
    AnchorReadsEarlier(candles, High);
    AnchorReadsEarlier(candles, Low);
  }

  lemma AnchorReadsEarlier(candles: seq<Candle>, side: Side)
    requires candles != [] && Chronological(candles) && TextsFollowInstants(candles)
    ensures var a := LatestAnchor(candles[..|candles| - 1], side);
      a.Some? ==> TextAfter(candles[|candles| - 1].timestamp, a.value.timestamp)
  {
    hide LatestAnchor, TextAfter;
    var a := LatestAnchor(candles[..|candles| - 1], side);
    if a.Some? { assert candles[a.value.index].timestamp == a.value.timestamp; }
  }

  // ------------------------------------------------------------ two histories

  /** Equal highs leave an earlier, lower swing high standing, below the latest swing low. */
  function Plateau(t: seq<Timestamp>): seq<Candle>
    requires |t| == 9
  {
    [Candle(t[0], 4.5, 5.0, 4.0, 4.5), Candle(t[1], 7.0, 10.0, 6.0, 8.0), Candle(t[2], 5.0, 8.0, 3.0, 6.0), Candle(t[3], 7.0, 11.0, 5.0, 8.0),
     Candle(t[4], 6.0, 9.0, 4.0, 7.0), Candle(t[5], 16.0, 20.0, 15.0, 18.0), Candle(t[6], 17.0, 20.0, 14.0, 16.0), Candle(t[7], 17.0, 20.0, 16.0, 17.0)]
  }

  /** The plateau, and a close between the two swings. */
  function Broken(t: seq<Timestamp>): seq<Candle>
    requires |t| == 9
  {
    Plateau(t) + [Candle(t[8], 17.0, 20.0, 12.0, 12.5)]
  }

  predicate SwingsAre(candles: seq<Candle>, side: Side, wanted: set<nat>) {
    forall i: nat :: i < 8 ==> (IsSwing(candles, side, i) <==> i in wanted)
  }

  lemma PlateauHighs(t: seq<Timestamp>)
    requires |t| == 9
    ensures SwingsAre(Plateau(t), High, {1, 3})
  {
    var c := Plateau(t);
    assert c[0].high == 5.0 && c[1].high == 10.0 && c[2].high == 8.0 && c[3].high == 11.0;
    assert c[4].high == 9.0 && c[5].high == 20.0 && c[6].high == 20.0 && c[7].high == 20.0;
  }

  lemma PlateauLows(t: seq<Timestamp>)
    requires |t| == 9
    ensures SwingsAre(Plateau(t), Low, {2, 4, 6})
  {
    var c := Plateau(t);
    assert c[0].low == 4.0 && c[1].low == 6.0 && c[2].low == 3.0 && c[3].low == 5.0;
    assert c[4].low == 4.0 && c[5].low == 15.0 && c[6].low == 14.0 && c[7].low == 16.0;
  }

  lemma HighsInOrder(candles: seq<Candle>)
    requires SwingsAre(candles, High, {1, 3})
    ensures SwingsBelow(candles, High, 8) == [1, 3]
  {
    hide IsSwing;
    NoneAtTheStart(candles, High);
    assert SwingsBelow(candles, High, 2) == [1];
    assert SwingsBelow(candles, High, 4) == [1, 3];
    assert SwingsBelow(candles, High, 6) == [1, 3];
  }

  lemma LowsInOrder(candles: seq<Candle>)
    requires SwingsAre(candles, Low, {2, 4, 6})
    ensures SwingsBelow(candles, Low, 8) == [2, 4, 6]
  {
    hide IsSwing;
    NoneAtTheStart(candles, Low);
    assert SwingsBelow(candles, Low, 2) == [];
    assert SwingsBelow(candles, Low, 4) == [2];
    assert SwingsBelow(candles, Low, 6) == [2, 4];
  }

  lemma PlateauStructure(t: seq<Timestamp>)
    requires |t| == 9
    ensures StructureOf(Plateau(t)) == BullishStructure
    ensures LatestAnchor(Plateau(t), High) == Some(Anchor(3, t[3], 11.0))
    ensures LatestAnchor(Plateau(t), Low) == Some(Anchor(6, t[6], 14.0))
  {
    hide SwingsBelow, IsSwing;
    PlateauHighs(t);
    PlateauLows(t);
    HighsInOrder(Plateau(t));
    LowsInOrder(Plateau(t));
  }

  /** The close lies beyond both swings; whether it counts is up to the texts alone. */
  lemma BrokenBoth(t: seq<Timestamp>)
    requires |t| == 9
    ensures var candles := Broken(t);
      && |candles| == 9 && (forall i :: 0 <= i < |candles| ==> Proper(candles[i]) && candles[i].timestamp == t[i])
      && StructureOf(candles[..|candles| - 1]) == BullishStructure
      && ClosesBeyond(candles, High) && ClosesBeyond(candles, Low)
      && (Analyze(candles).continuation <==> TextAfter(t[8], t[3])) && (Analyze(candles).reversal <==> TextAfter(t[8], t[6]))
  {
    hide StructureOf, LatestAnchor, TextAfter;
    var candles := Broken(t);
    assert candles[..|candles| - 1] == Plateau(t);
    PlateauStructure(t);
    ConfirmedExactlyWhen(candles);
  }

  /** Minute k of an hour on one day, in the order of the minutes. */
  function Stamp(hour: string, k: nat, offset: string, instant: int): Timestamp
    requires k < 9 && (forall i :: 0 <= i < |hour| ==> hour[i] < 128 as char) && forall i :: 0 <= i < |offset| ==> offset[i] < 128 as char
  {
    Timestamp(FromAscii(hour) + ([0x30 + k] + FromAscii(offset)), instant)
  }

  lemma LaterMinuteReadsLater(hour: string, j: nat, k: nat, offset: string, a: int, b: int)
    requires j < k < 9 && (forall i :: 0 <= i < |hour| ==> hour[i] < 128 as char) && forall i :: 0 <= i < |offset| ==> offset[i] < 128 as char
    ensures TextAfter(Stamp(hour, k, offset, b), Stamp(hour, j, offset, a))
  {
    var x, y := [0x30 + j] + FromAscii(offset), [0x30 + k] + FromAscii(offset);
    LeqAfterPrefix(FromAscii(hour), x, y);
    assert (FromAscii(hour) + x)[|hour|] == 0x30 + j && (FromAscii(hour) + y)[|hour|] == 0x30 + k;
  }

  /** Nine proper candles, in order, of which the last is a continuation and a reversal at once. */
  lemma BothCanHappen()
    ensures exists candles: seq<Candle> ::
      && |candles| == 9 && Chronological(candles) && (forall i :: 0 <= i < 9 ==> Proper(candles[i]))
      && Analyze(candles).continuation && Analyze(candles).reversal
  {
    hide Analyze, Plateau;
    var t := seq(9, k requires 0 <= k < 9 => Stamp("2026-10-24T00:0", k, ":00Z", k));
    BrokenBoth(t);
    LaterMinuteReadsLater("2026-10-24T00:0", 3, 8, ":00Z", 3, 8);
    LaterMinuteReadsLater("2026-10-24T00:0", 6, 8, ":00Z", 6, 8);
    var candles := Broken(t);
    assert Chronological(candles);
  }

  /** Nine proper candles, in order, whose last close lies beyond both swings and confirms neither
      break: its offset is an hour behind theirs, so its later instant reads earlier. Instants are
      minutes from midnight of 24 October 2026, in UTC. */
  lemma MixedOffsetsHideBreaks()
    ensures exists candles: seq<Candle> ::
      && |candles| == 9 && Chronological(candles) && (forall i :: 0 <= i < 9 ==> Proper(candles[i]))
      && StructureOf(candles[..8]) != Unresolved && ClosesBeyond(candles, High) && ClosesBeyond(candles, Low)
      && !Analyze(candles).continuation && !Analyze(candles).reversal
      && candles[8].timestamp == Stamp("2026-10-25T02:1", 0, ":00+02:00", 1450)
      && candles[6].timestamp == Stamp("2026-10-25T02:3", 6, ":00+03:00", 1416)
  {
    hide Analyze, Broken, StructureOf, ClosesBeyond, Stamp, TextAfter;
    var t := MixedTimes();
    BrokenBoth(t);
    ReadsEarlier(3);
    ReadsEarlier(6);
    var candles := Broken(t);
    assert candles[..8] == candles[..|candles| - 1];
    MixedTimesInOrder(candles);
  }

  function MixedTimes(): (t: seq<Timestamp>)
    ensures |t| == 9 && t[8] == Stamp("2026-10-25T02:1", 0, ":00+02:00", 1450)
    ensures forall k :: 0 <= k < 8 ==> t[k] == Stamp("2026-10-25T02:3", k, ":00+03:00", 1410 + k)
  {
    seq(8, k requires 0 <= k < 8 => Stamp("2026-10-25T02:3", k, ":00+03:00", 1410 + k)) + [Stamp("2026-10-25T02:1", 0, ":00+02:00", 1450)]
  }

  lemma MixedTimesInOrder(candles: seq<Candle>)
    requires |candles| == 9 && forall i :: 0 <= i < 9 ==> candles[i].timestamp == MixedTimes()[i]
    ensures Chronological(candles)
  {
    assert MixedTimes()[8].instant == 1450 && forall k :: 0 <= k < 8 ==> MixedTimes()[k].instant == 1410 + k;
  }

  lemma ReadsEarlier(k: nat)
    requires k < 9
    ensures !TextAfter(Stamp("2026-10-25T02:1", 0, ":00+02:00", 1450), Stamp("2026-10-25T02:3", k, ":00+03:00", 1410 + k))
  {
    var p := FromAscii("2026-10-25T02:");
    var a, b := [0x31] + ([0x30] + FromAscii(":00+02:00")), [0x33] + ([0x30 + k] + FromAscii(":00+03:00"));
    assert FromAscii("2026-10-25T02:1") == p + [0x31] && FromAscii("2026-10-25T02:3") == p + [0x33];
    assert FromAscii("2026-10-25T02:1") + ([0x30] + FromAscii(":00+02:00")) == p + a;
    assert FromAscii("2026-10-25T02:3") + ([0x30 + k] + FromAscii(":00+03:00")) == p + b;
    LeqAfterPrefix(p, b, a);
  }
}
