/** What being stopped out can cost (src/strategy/config.py:63-101,
    src/risk/position_sizing.py:77-94, src/strategy/engine.py:255-285). */
module RiskBound {
  import opened Prelude
  import opened Sizing
  import opened Ledgers
  import opened Strategy
  import opened Replay
  import opened Chronicle
  import opened Equity

  /** Every position of every run deploys a fraction of the account, in every mode. */
  lemma WeightsAreFractions(m: Machine, bars: seq<Bar>, signals: seq<Act>, i: nat)
    requires Numbered(bars) && i < |RunLedger(m, bars, signals).legs|
    ensures RunLedger(m, bars, signals).legs[i].Trade? && 0.0 <= RunLedger(m, bars, signals).legs[i].weight <= 1.0
  {
    RunIsChronicle(m, bars, signals);
    assert IsEpisode(m, bars, signals, RunLedger(m, bars, signals).legs[i]);
  }

  /** The price return of a stop at distance `a`, charged `c` on the way out. */
  function StoppedReturn(short: bool, a: real, c: real): real
    requires 0.0 <= a && 0.0 <= c
  {
    if short then 1.0 / ((1.0 + a) * (1.0 + c)) - 1.0 else (1.0 - a) * (1.0 - c) - 1.0
  }

  lemma StoppedReturnBound(short: bool, a: real, c: real)
    requires 0.0 < a < 1.0 && 0.0 <= c < 1.0
    ensures -(a + c) <= StoppedReturn(short, a, c) <= 0.0
  {
    if short {
      var d := (1.0 + a) * (1.0 + c);
      assert d == 1.0 + a + c + a * c;
      InverseBound(a, c, d);
    } else {
      assert (1.0 - a) * (1.0 - c) == 1.0 - a - c + a * c;
      SmallProduct(a, c);
    }
  }

  lemma SmallProduct(a: real, c: real)
    requires 0.0 < a < 1.0 && 0.0 <= c < 1.0
    ensures 0.0 <= a * c <= c
  {
  }

  lemma InverseBound(a: real, c: real, d: real)
    requires 0.0 < a < 1.0 && 0.0 <= c < 1.0 && d == 1.0 + a + c + a * c
    ensures 1.0 - (a + c) <= 1.0 / d <= 1.0
  {
    SmallProduct(a, c);
    var y := a + c;
    assert (1.0 - y) * d == 1.0 - y * y + (1.0 - y) * (a * c);
    SquareDominates(a, c);
    assert (1.0 - y) * d <= 1.0;
    DivideBoth(1.0 - y, d);
  }

  lemma SquareDominates(a: real, c: real)
    requires 0.0 < a < 1.0 && 0.0 <= c < 1.0
    ensures (1.0 - (a + c)) * (a * c) <= (a + c) * (a + c)
  {
    var y, p := a + c, a * c;
    SmallProduct(a, c);
    assert y * y == a * a + 2.0 * p + c * c;
    assert a * a >= 0.0 && c * c >= 0.0;
    assert (1.0 - y) * p <= p;
  }

  lemma DivideBoth(x: real, d: real)
    requires d >= 1.0 && x * d <= 1.0
    ensures x <= 1.0 / d <= 1.0
  {
    var inverse := 1.0 / d;
    assert inverse * d == 1.0;
    if x > inverse {
      assert x * d > inverse * d;
    }
  }

  /** A touched stop is the position's stop. */
  lemma StopIsTheLevel(m: Machine, p: Position, bar: Bar)
    requires m.LevelHit(p, bar).Some? && m.LevelHit(p, bar).value.1 == Stop
    ensures p.stop == Some(m.LevelHit(p, bar).value.0)
  {
  }

  lemma StopPriceReturn(m: Machine, entry: real, short: bool, s: real)
    requires entry > 0.0 && m.config.stopLossPercent == Some(s) && 0.0 < s < 100.0 && 0.0 <= m.config.Cost() < 1.0
    ensures m.Levels(entry, short).0.Some?
    ensures PriceReturn(short, entry, m.ExitPrice(m.Levels(entry, short).0.value, short))
            == StoppedReturn(short, s / 100.0, m.config.Cost())
  {
    var a, c := s / 100.0, m.config.Cost();
    if short {
      ShortStopExit(entry, a, c);
    } else {
      LongStopExit(entry, a, 1.0 - a, 1.0 - c);
    }
    assert StopDistance(entry, s) == entry * a;
  }

  lemma ShortStopExit(entry: real, a: real, c: real)
    requires entry > 0.0 && 0.0 < a < 1.0 && 0.0 <= c < 1.0
    ensures Ratio(entry, (entry + entry * a) * (1.0 + c)) == 1.0 / ((1.0 + a) * (1.0 + c))
  {
    var k := (1.0 + a) * (1.0 + c);
    assert k > 0.0;
    assert (entry + entry * a) * (1.0 + c) == entry * k;
    QuotientOfMultiple(entry, k);
  }

  lemma LongStopExit(entry: real, a: real, x: real, y: real)
    requires entry > 0.0 && x == 1.0 - a && x > 0.0 && y > 0.0
    ensures Ratio((entry - entry * a) * y, entry) == x * y
  {
    ProductIsPositive(x, y);
    assert entry - entry * a == entry * x;
    assert (entry * x) * y == entry * (x * y);
    QuotientOfMultiple(entry, x * y);
  }

  lemma QuotientOfMultiple(x: real, k: real)
    requires x > 0.0 && k > 0.0
    ensures x * k > 0.0
    ensures Ratio(x, x * k) == 1.0 / k && Ratio(x * k, x) == k
  {
  }

  /** A loss on the account within the risk limit `r` plus the exit cost `c` of what was
      deployed. */
  predicate WithinRisk(equityRet: real, r: real, weight: real, c: real) {
    equityRet >= -(r / 100.0 + weight * c)
  }

  predicate SizedFor(weight: real, s: real, r: real) {
    0.0 <= weight && weight * s <= r
  }

  predicate LosesAtMost(ret: real, s: real, c: real) {
    -(s / 100.0 + c) <= ret
  }

  lemma WeightedBound(w: real, s: real, c: real, r: real, ret: real, equityRet: real)
    requires SizedFor(w, s, r) && LosesAtMost(ret, s, c) && equityRet == ret * w
    ensures WithinRisk(equityRet, r, w, c)
  {
    assert ret * w >= -(s / 100.0 + c) * w;
    assert (s / 100.0 + c) * w == w * s / 100.0 + w * c;
  }

  /** Risk bound. In a fixed-risk run no stopped trade, long or short, costs more of the
      account than the configured risk plus the exit cost of what was deployed. */
  lemma StopCostsAtMostTheRisk(m: Machine, bars: seq<Bar>, signals: seq<Act>, i: nat, r: real, s: real)
    requires Numbered(bars) && Priced(m, bars) && i < |RunLedger(m, bars, signals).legs|
    requires m.config.sizingMode == FixedRisk
    requires m.config.riskLimitPercent == Some(r) && r > 0.0
    requires m.config.stopLossPercent == Some(s) && 0.0 < s < 100.0
    ensures var leg := RunLedger(m, bars, signals).legs[i];
            && leg.Trade? && 0.0 <= leg.weight <= 1.0
            && (leg.reason == Stop ==>
                  && leg.ret == StoppedReturn(leg.short, s / 100.0, m.config.Cost())
                  && WithinRisk(leg.equityRet, r, leg.weight, m.config.Cost()))
  {
    var leg := RunLedger(m, bars, signals).legs[i];
    WeightsAreFractions(m, bars, signals, i);
    assert IsEpisode(m, bars, signals, leg) by {
      RunIsChronicle(m, bars, signals);
    }
    if leg.reason == Stop {
      StoppedEpisode(m, bars, signals, leg, r, s);
    }
  }

  lemma StoppedEpisode(m: Machine, bars: seq<Bar>, signals: seq<Act>, leg: Leg, r: real, s: real)
    requires Priced(m, bars) && IsEpisode(m, bars, signals, leg) && leg.reason == Stop
    requires m.config.sizingMode == FixedRisk
    requires m.config.riskLimitPercent == Some(r) && r > 0.0
    requires m.config.stopLossPercent == Some(s) && 0.0 < s < 100.0
    ensures leg.ret == StoppedReturn(leg.short, s / 100.0, m.config.Cost())
    ensures WithinRisk(leg.equityRet, r, leg.weight, m.config.Cost())
  {
    StoppedReturnOf(m, bars, signals, leg, s);
    FixedRiskWeight(m, bars, signals, leg, r, s);
    RowReturn(m, bars, signals, leg);
    StoppedRow(leg, m.config.Cost(), r, s);
  }

  lemma StoppedRow(leg: Leg, c: real, r: real, s: real)
    requires PaysItsPrices(leg) && SizedFor(leg.weight, s, r) && 0.0 < s < 100.0 && 0.0 <= c < 1.0
    requires leg.ret == StoppedReturn(leg.short, s / 100.0, c)
    ensures WithinRisk(leg.equityRet, r, leg.weight, c)
  {
    StoppedReturnBound(leg.short, s / 100.0, c);
    WeightedBound(leg.weight, s, c, r, leg.ret, leg.equityRet);
  }

  lemma FixedRiskWeight(m: Machine, bars: seq<Bar>, signals: seq<Act>, leg: Leg, r: real, s: real)
    requires IsEpisode(m, bars, signals, leg) && m.config.sizingMode == FixedRisk
    requires m.config.riskLimitPercent == Some(r) && r > 0.0
    requires m.config.stopLossPercent == Some(s) && s > 0.0
    ensures SizedFor(leg.weight, s, r)
  {
    var p := Entered(m, bars, leg.entryIdx, leg.short);
    assert p.weight == m.config.DeployWeightFor(m.config.stopLossPercent);
  }

  lemma StoppedReturnOf(m: Machine, bars: seq<Bar>, signals: seq<Act>, leg: Leg, s: real)
    requires Priced(m, bars) && IsEpisode(m, bars, signals, leg) && leg.reason == Stop
    requires m.config.stopLossPercent == Some(s) && 0.0 < s < 100.0
    ensures leg.ret == StoppedReturn(leg.short, s / 100.0, m.config.Cost())
  {
    var p := Entered(m, bars, leg.entryIdx, leg.short);
    EpisodePrices(m, bars, signals, leg);
    RowReturn(m, bars, signals, leg);
    StopIsTheLevel(m, p, bars[leg.exitIdx]);
    StopPriceReturn(m, leg.entryPrice, leg.short, s);
    assert p.stop == m.Levels(leg.entryPrice, leg.short).0;
  }
}
