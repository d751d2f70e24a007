/** Candles, and the swings that a candle on each side confirms. Prices are reals. */
module Swings {
  import opened CodePoints

  /** A timestamp as given, with whatever offset, and the instant it denotes. */
  datatype Timestamp = Timestamp(text: Str, instant: int)

  datatype Candle = Candle(timestamp: Timestamp, open: real, high: real, low: real, close: real)

  /** How the analyzers compare timestamps: as text. */
  predicate TextAfter(a: Timestamp, b: Timestamp) { a.text != b.text && Leq(b.text, a.text) }

  /** What validation checks: the instants increase. */
  predicate Chronological(candles: seq<Candle>) {
    forall i, j :: 0 <= i < j < |candles| ==> candles[i].timestamp.instant < candles[j].timestamp.instant
  }

  predicate Proper(c: Candle) { c.low <= c.open <= c.high && c.low <= c.close <= c.high }

  datatype Side = High | Low

  /** Strictly beyond both neighbours; the candle after it confirms it. */
  predicate IsSwing(candles: seq<Candle>, side: Side, i: int) {
    && 0 < i < |candles| - 1
    && match side
       case High => candles[i].high > candles[i - 1].high && candles[i].high > candles[i + 1].high
       case Low => candles[i].low < candles[i - 1].low && candles[i].low < candles[i + 1].low
  }

  /** The swings of one side among the first k candles, in order. */
  function SwingsBelow(candles: seq<Candle>, side: Side, k: nat): seq<nat> {
    if k == 0 then [] else SwingsBelow(candles, side, k - 1) + (if IsSwing(candles, side, k - 1) then [k - 1] else [])
  }

  /** Exactly the swings, each once, in order. */
  lemma {:induction false} SwingsMeaning(candles: seq<Candle>, side: Side, k: nat)
    ensures forall i: nat :: i in SwingsBelow(candles, side, k) <==> i < k && IsSwing(candles, side, i)
    ensures forall i, j :: 0 <= i < j < |SwingsBelow(candles, side, k)| ==> SwingsBelow(candles, side, k)[i] < SwingsBelow(candles, side, k)[j]
  {
    hide IsSwing;
    if k > 0 {
      SwingsMeaning(candles, side, k - 1);
      var earlier := SwingsBelow(candles, side, k - 1);
      assert forall i :: 0 <= i < |earlier| ==> earlier[i] in earlier;
    }
  }

  method FindConfirmedSwings(candles: seq<Candle>) returns (highs: seq<nat>, lows: seq<nat>)
    ensures highs == SwingsBelow(candles, High, |candles|)
    ensures lows == SwingsBelow(candles, Low, |candles|)
  {
    hide SwingsBelow;
    highs, lows := [], [];
    var idx := 1;
    NoneAtTheStart(candles, High);
    NoneAtTheStart(candles, Low);
    while idx < |candles| - 1
      invariant 1 <= idx <= |candles| + 1
      invariant highs == SwingsBelow(candles, High, idx) && lows == SwingsBelow(candles, Low, idx)
    {
      var isHigh, isLow := true, true;
      if candles[idx].high <= candles[idx - 1].high { isHigh := false; }
      if candles[idx].high <= candles[idx + 1].high { isHigh := false; }
      if candles[idx].low >= candles[idx - 1].low { isLow := false; }
      if candles[idx].low >= candles[idx + 1].low { isLow := false; }
      OneMoreCandle(candles, High, idx);
      OneMoreCandle(candles, Low, idx);
      if isHigh { highs := highs + [idx]; }
      if isLow { lows := lows + [idx]; }
      idx := idx + 1;
    }
    NoneAtTheEnd(candles, High, idx);
    NoneAtTheEnd(candles, Low, idx);
  }

  lemma NoneAtTheStart(candles: seq<Candle>, side: Side)
    ensures SwingsBelow(candles, side, 1) == []
  {
    assert SwingsBelow(candles, side, 0) == [];
  }

  lemma OneMoreCandle(candles: seq<Candle>, side: Side, k: nat)
    ensures SwingsBelow(candles, side, k + 1) == if IsSwing(candles, side, k) then SwingsBelow(candles, side, k) + [k] else SwingsBelow(candles, side, k)
  {}

  lemma NoneAtTheEnd(candles: seq<Candle>, side: Side, k: nat)
    requires |candles| - 1 <= k <= |candles| + 1
    ensures SwingsBelow(candles, side, |candles|) == SwingsBelow(candles, side, k)
  {}

  /** Later candles do not change which swings a prefix has confirmed. */
  lemma {:induction false} PrefixSwings(candles: seq<Candle>, side: Side, n: nat, k: nat)
    requires n <= |candles| && k < n
    ensures SwingsBelow(candles[..n], side, k) == SwingsBelow(candles, side, k)
  {
    if k > 0 { PrefixSwings(candles, side, n, k - 1); }
  }
}
