/** The batch entry points around the machine: arrays to bars, the raw simulation and the
    intervals it implies (src/backtest/risk_sim.py:66-107, src/backtest/engine.py:65-133,
    422-451), and what the report reads off its returns (src/backtest/metrics.py). */
module Backtest {
  import opened Prelude
  import opened Sizing
  import opened Ledgers
  import opened Strategy
  import opened Replay
  import opened Engine
  import opened TradeRules
  import opened RawMode
  import opened Equity

  const DEFAULT_VOLATILITY_PERIOD := 14

  /** A run with no risk settings sizes by exposure alone and never takes a square root. */
  const NO_ROOT: real -> real := x => 0.0

  function RawConfig(allowShort: bool, slippage: real, commission: real): (c: StrategyConfig)
    ensures c.Raw() && c.allowShort == allowShort && c.Cost() == slippage + commission
  {
    StrategyConfig(allowShort, None, None, None, Some(100.0), FixedRisk, DEFAULT_VOLATILITY_PERIOD, slippage, commission)
  }

  function Reading(values: Option<seq<real>>, k: nat): Option<real> {
    if values.Some? && k < |values.value| then Some(values.value[k]) else None
  }

  /** The bars of parallel price lists; a missing high or low stays missing. */
  function BarsOf(opens: seq<real>, highs: Option<seq<real>>, lows: Option<seq<real>>, closes: seq<real>, n: nat): (bars: seq<Bar>)
    requires n <= |opens| && n <= |closes|
    ensures |bars| == n && Numbered(bars)
  {
    seq(n, k requires 0 <= k < n => Bar(k, 0, opens[k], closes[k], Reading(highs, k), Reading(lows, k)))
  }

  /** The costs of the run replace the config's, and shorts are allowed if either says so. */
  function Configured(config: StrategyConfig, allowShort: bool, slippage: real, commission: real): StrategyConfig {
    config.(slippage := slippage, commission := commission, allowShort := config.allowShort || allowShort)
  }

  /** What the adapter replays: each bar reads its own place of every list, short lists leaving
      highs or lows out, and of the settings only the costs and the permission to short are
      the run's. The legs are then those the rules call for on these bars. */
  lemma AdapterReadsTheLists(config: StrategyConfig, root: real -> real, signals: seq<Act>, opens: seq<real>,
                             highs: Option<seq<real>>, lows: Option<seq<real>>, closes: seq<real>, n: nat,
                             allowShort: bool, slippage: real, commission: real)
    requires n <= |opens| && n <= |closes|
    ensures var bars := BarsOf(opens, highs, lows, closes, n);
            && |bars| == n
            && (forall k :: 0 <= k < n ==> bars[k].index == k && bars[k].open == opens[k] && bars[k].close == closes[k])
            && (forall k :: 0 <= k < n ==>
                  bars[k].high == if highs.Some? && k < |highs.value| then Some(highs.value[k]) else None)
            && (forall k :: 0 <= k < n ==>
                  bars[k].low == if lows.Some? && k < |lows.value| then Some(lows.value[k]) else None)
    ensures var c := Configured(config, allowShort, slippage, commission);
            && c.slippage == slippage && c.commission == commission && (c.allowShort <==> config.allowShort || allowShort)
            && c.(slippage := config.slippage, commission := config.commission, allowShort := config.allowShort) == config
    ensures var m, bars := Machine(Configured(config, allowShort, slippage, commission), root), BarsOf(opens, highs, lows, closes, n);
            forall legs :: legs == RunLedger(m, bars, signals).legs <==> IsTradeLog(m, bars, signals, legs)
  {
    var m, bars := Machine(Configured(config, allowShort, slippage, commission), root), BarsOf(opens, highs, lows, closes, n);
    forall legs
      ensures legs == RunLedger(m, bars, signals).legs <==> IsTradeLog(m, bars, signals, legs)
    {
      RunFollowsTheRules(m, bars, signals, legs);
    }
  }

  method ApplyRiskLayer(config: StrategyConfig, root: real -> real, signals: seq<Act>, opens: seq<real>,
                        highs: Option<seq<real>>, lows: Option<seq<real>>, closes: seq<real>, n: nat,
                        allowShort: bool, slippage: real, commission: real)
    returns (ledger: Ledger)
    requires n <= |opens| && n <= |closes|
    ensures fresh(ledger) && ledger.Valid()
    ensures ledger.Value() == RunLedger(Machine(Configured(config, allowShort, slippage, commission), root),
                                        BarsOf(opens, highs, lows, closes, n), signals)
  {
    var engine := new StrategyEngine(Machine(Configured(config, allowShort, slippage, commission), root));
    ledger := engine.Run(signals, BarsOf(opens, highs, lows, closes, n));
  }

  lemma {:induction false} IntervalsOfTrades(legs: seq<Leg>, n: int)
    ensures Intervals(Trades(legs), n) == Intervals(legs, n)
  {
    if |legs| > 0 {
      var last := legs[|legs| - 1];
      IntervalsOfTrades(legs[..|legs| - 1], n);
      if last.Trade? {
        IntervalsGrow(Trades(legs[..|legs| - 1]), last, n);
      } else {
        assert Trades(legs) == Trades(legs[..|legs| - 1]);
      }
    }
  }

  /** Simulate from prices and signals alone: the run's returns, its trades, and which bars
      held a position. Whatever the prices, the trades are the fold of the signals. */
  method SimulateFrame(opens: seq<real>, closes: seq<real>, signals: seq<Act>, slippage: real, commission: real, allowShort: bool)
    returns (barReturns: seq<real>, trades: seq<Leg>, inPosition: nat, active: seq<bool>)
    requires |opens| <= |closes|
    ensures |opens| < 2 ==> barReturns == [] && trades == [] && inPosition == 0 && active == []
    ensures |opens| >= 2 ==>
              var acct := RunLedger(Machine(RawConfig(allowShort, slippage, commission), NO_ROOT),
                                    BarsOf(opens, None, None, closes, |opens|), signals);
              barReturns == acct.barReturns && trades == Trades(acct.legs) && active == acct.active
    ensures inPosition == CountTrue(active)
    ensures Intervals(trades, |opens|) == FoldedIntervals(allowShort, signals, |opens|)
  {
    var n := |opens|;
    if n < 2 {
      return [], [], 0, [];
    }
    var config := RawConfig(allowShort, 0.0, 0.0);
    assert Configured(config, allowShort, slippage, commission) == RawConfig(allowShort, slippage, commission);
    var ledger := ApplyRiskLayer(config, NO_ROOT, signals, opens, None, None, closes, n, allowShort, slippage, commission);
    ghost var m := Machine(RawConfig(allowShort, slippage, commission), NO_ROOT);
    RawRunIsFold(m, BarsOf(opens, None, None, closes, n), signals);
    barReturns, active := ledger.barReturns[..], ledger.active[..];
    var stats := ledger.Stats();
    inPosition := stats.inPosition;
    trades := Trades(ledger.legs);
    IntervalsOfTrades(ledger.legs, n);
  }

  /** Entry bar, exit bar and direction of every leg, found on made-up prices. */
  method PositionIntervals(signals: seq<Act>, n: int, allowShort: bool) returns (out: seq<Interval>)
    ensures out == if n < 2 then [] else FoldedIntervals(allowShort, signals, n)
  {
    if n < 2 {
      return [];
    }
    var flat := seq(n, _ => 1.0);
    var config := RawConfig(allowShort, 0.0, 0.0);
    var ledger := ApplyRiskLayer(config, NO_ROOT, signals, flat, None, None, flat, n, allowShort, 0.0, 0.0);
    RawRunIsFold(Machine(Configured(config, allowShort, 0.0, 0.0), NO_ROOT), BarsOf(flat, None, None, flat, n), signals);
    out := [];
    var legs := ledger.legs;
    for i := 0 to |legs|
      invariant out == Intervals(legs[..i], n)
    {
      assert legs[..i + 1][..i] == legs[..i];
      match legs[i] {
        case Skipped(_, _, _) =>
        case Trade(entryIdx, exitIdx, _, _, _, _, _, _, _, reason, _) =>
          out := out + [(entryIdx, if reason == Forced then n else exitIdx, legs[i].short)];
      }
    }
    assert legs[..|legs|] == legs;
  }

  // -- what the report reads ----------------------------------------------------------

  lemma EquityGrows(rets: seq<real>, i: nat)
    requires i < |rets|
    ensures FinalEquity(rets[..i + 1]) == FinalEquity(rets[..i]) * (1.0 + rets[i])
  {
    var f, g := Slots(rets[..i + 1]), Slots(rets[..i]);
    CompoundAgrees(f, g, 0, i);
  }

  /** The equity curve: each point compounds the returns up to it. */
  method EquityCurve(rets: seq<real>) returns (equity: seq<real>)
    ensures |equity| == |rets|
    ensures forall i :: 0 <= i < |rets| ==> equity[i] == FinalEquity(rets[..i + 1])
    ensures |rets| > 0 ==> equity[|rets| - 1] == FinalEquity(rets)
  {
    var all := [1.0];
    for i := 0 to |rets|
      invariant |all| == i + 1
      invariant forall k :: 0 <= k <= i ==> all[k] == FinalEquity(rets[..k])
    {
      EquityGrows(rets, i);
      all := all + [all[|all| - 1] * (1.0 + rets[i])];
    }
    equity := all[1..];
    assert rets[..|rets|] == rets;
  }

  function Drop(peak: real, v: real): real
    requires peak > 0.0
  {
    (peak - v) / peak
  }

  /** `i` is where the curve has been highest up to `j`. */
  ghost predicate IsPeak(equity: seq<real>, i: int, j: int) {
    0 <= i <= j < |equity| && forall k :: 0 <= k <= j ==> equity[k] <= equity[i]
  }

  /** No drop below the running peak before point `n` exceeds `mdd`. */
  ghost predicate Bounds(equity: seq<real>, n: int, mdd: real) {
    forall i, j :: IsPeak(equity, i, j) && j < n && equity[i] > 0.0 ==> Drop(equity[i], equity[j]) <= mdd
  }

  ghost predicate Attains(equity: seq<real>, mdd: real) {
    mdd == 0.0 || exists i, j :: IsPeak(equity, i, j) && equity[i] > 0.0 && Drop(equity[i], equity[j]) == mdd
  }

  lemma BoundsOneMore(equity: seq<real>, n: nat, at: int, before: real, mdd: real)
    requires n < |equity| && Bounds(equity, n, before) && before <= mdd && IsPeak(equity, at, n)
    requires equity[at] > 0.0 ==> Drop(equity[at], equity[n]) <= mdd
    ensures Bounds(equity, n + 1, mdd)
  {
  }

  lemma AttainsOneMore(equity: seq<real>, n: nat, at: int, before: real, mdd: real)
    requires n < |equity| && Attains(equity, before) && IsPeak(equity, at, n)
    requires mdd == before || (equity[at] > 0.0 && mdd == Drop(equity[at], equity[n]))
    ensures Attains(equity, mdd)
  {
  }

  lemma PeakMoves(equity: seq<real>, n: nat, at: int)
    requires n < |equity| && (n > 0 ==> IsPeak(equity, at, n - 1))
    ensures n == 0 || equity[n] > equity[at] ==> IsPeak(equity, n, n)
    ensures n > 0 && equity[n] <= equity[at] ==> IsPeak(equity, at, n)
  {
  }

  /** The running maximum with the drop from a positive peak taken in. */
  method Deeper(peak: real, v: real, mdd: real) returns (r: real)
    ensures mdd <= r && (peak > 0.0 ==> Drop(peak, v) <= r)
    ensures r == mdd || (peak > 0.0 && r == Drop(peak, v))
  {
    r := mdd;
    if peak > 0.0 {
      var dd := Drop(peak, v);
      if dd > mdd {
        r := dd;
      }
    }
  }

  /** The largest drop below the running peak, once there is a positive one. */
  method MaxDrawdown(equity: seq<real>) returns (mdd: real)
    ensures mdd >= 0.0
    ensures Bounds(equity, |equity|, mdd) && Attains(equity, mdd)
  {
    var peak: Option<real> := None;
    ghost var at := 0;
    mdd := 0.0;
    for n := 0 to |equity|
      invariant mdd >= 0.0
      invariant peak.Some? <==> n > 0
      invariant n > 0 ==> IsPeak(equity, at, n - 1) && peak.value == equity[at]
      invariant Bounds(equity, n, mdd) && Attains(equity, mdd)
    {
      hide Bounds, Attains, Drop, IsPeak;
      var v := equity[n];
      PeakMoves(equity, n, at);
      if peak.None? || v > peak.value {
        peak, at := Some(v), n;
      }
      var deeper := Deeper(peak.value, v, mdd);
      BoundsOneMore(equity, n, at, mdd, deeper);
      AttainsOneMore(equity, n, at, mdd, deeper);
      mdd := deeper;
    }
  }

  lemma DropIsShare(peak: real, v: real)
    requires peak > 0.0
    ensures Drop(peak, v) == 1.0 - v / peak
  {
    var q := v / peak;
    assert peak * q == v;
    assert peak - v == peak * (1.0 - q);
    DividesOut(peak - v, peak, 1.0 - q);
  }

  lemma DropGrowsWithThePeak(low: real, high: real, v: real)
    requires 0.0 < low <= high && v >= 0.0
    ensures Drop(low, v) <= Drop(high, v)
  {
    DropIsShare(low, v);
    DropIsShare(high, v);
    QuotientFalls(v, low, high);
  }

  lemma QuotientFalls(v: real, low: real, high: real)
    requires v >= 0.0 && 0.0 < low <= high
    ensures v / high <= v / low
  {
    var x, y := v / high, v / low;
    assert x * high == v && y * low == v;
  }

  lemma {:induction false} PeakExists(equity: seq<real>, j: nat)
    requires j < |equity|
    ensures exists i :: IsPeak(equity, i, j)
  {
    if j == 0 {
      assert IsPeak(equity, 0, 0);
    } else {
      PeakExists(equity, j - 1);
      var i :| IsPeak(equity, i, j - 1);
      assert if equity[j] > equity[i] then IsPeak(equity, j, j) else IsPeak(equity, i, j);
    }
  }

  /** On a curve that never goes below zero that is the largest drop from any earlier point,
      peak or not. */
  lemma NoDropIsLarger(equity: seq<real>, mdd: real, i: nat, j: nat)
    requires Bounds(equity, |equity|, mdd)
    requires i <= j < |equity| && equity[i] > 0.0 && equity[j] >= 0.0
    ensures Drop(equity[i], equity[j]) <= mdd
  {
    PeakExists(equity, j);
    var p :| IsPeak(equity, p, j);
    DropGrowsWithThePeak(equity[i], equity[p], equity[j]);
  }
}
