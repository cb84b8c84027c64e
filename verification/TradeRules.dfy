/** The rules of a trade in the words of the settings (src/strategy/config.py:25-101,
    src/strategy/engine.py:143-332), written without the machine that applies them: which
    signal opens it, at what price, behind which levels, at what size, and the first thing
    that ends it. A run books exactly the trades these rules call for. */
module TradeRules {
  import opened Prelude
  import opened Sizing
  import opened Ledgers
  import opened Strategy
  import opened Replay
  import opened Chronicle

  // -- signals -----------------------------------------------------------------------------

  /** The signal on the bar before `k` opens a position on bar `k`. */
  predicate Calls(c: StrategyConfig, signals: seq<Act>, k: int, short: bool) {
    1 <= k <= |signals| && if short then signals[k - 1] == Sell && c.allowShort else signals[k - 1] == Buy
  }

  /** The signal on the bar before `k` turns against a position. */
  predicate Turned(signals: seq<Act>, k: int, short: bool) {
    1 <= k <= |signals| && signals[k - 1] == if short then Buy else Sell
  }

  // -- prices and levels -------------------------------------------------------------------

  /** What a price becomes once costs are paid: buying pays more, selling gets less. */
  function Paid(c: StrategyConfig, price: real, buying: bool): real {
    var cost := price * (c.slippage + c.commission);
    if buying then price + cost else price - cost
  }

  /** `percent` of an entry price. */
  function Share(entry: real, percent: real): real {
    (if entry < 0.0 then -entry else entry) * percent / 100.0
  }

  /** The stop, where one is set: `stopLossPercent` of the entry away, on the losing side. */
  function StopLevel(c: StrategyConfig, entry: real, short: bool): Option<real> {
    if c.stopLossPercent.None? || c.stopLossPercent.value <= 0.0 then None
    else if short then Some(entry + Share(entry, c.stopLossPercent.value))
    else Some(entry - Share(entry, c.stopLossPercent.value))
  }

  /** The take, where one is set: `takeProfitPercent` of the entry away, on the winning side. */
  function TakeLevel(c: StrategyConfig, entry: real, short: bool): Option<real> {
    if c.takeProfitPercent.None? || c.takeProfitPercent.value <= 0.0 then None
    else if short then Some(entry - Share(entry, c.takeProfitPercent.value))
    else Some(entry + Share(entry, c.takeProfitPercent.value))
  }

  /** A bar known by its high and low reaches a level from below, or from above. */
  predicate Rises(bar: Bar, level: real) {
    bar.high.Some? && bar.low.Some? && bar.high.value >= level
  }

  predicate Falls(bar: Bar, level: real) {
    bar.high.Some? && bar.low.Some? && bar.low.value <= level
  }

  /** The bar goes through the stop of a position entered at this price. */
  predicate Stops(c: StrategyConfig, entry: real, short: bool, bar: Bar) {
    match StopLevel(c, entry, short)
    case None => false
    case Some(level) => if short then Rises(bar, level) else Falls(bar, level)
  }

  /** The bar goes through its take. */
  predicate Takes(c: StrategyConfig, entry: real, short: bool, bar: Bar) {
    match TakeLevel(c, entry, short)
    case None => false
    case Some(level) => if short then Falls(bar, level) else Rises(bar, level)
  }

  // -- size --------------------------------------------------------------------------------

  /** The newest closes a decision on bar `k` may use: the configured period and two more. */
  function Recent(c: StrategyConfig, bars: seq<Bar>, k: nat): seq<real>
    requires k <= |bars|
  {
    var from := if k <= c.volatilityPeriod + 2 then 0 else k - (c.volatilityPeriod + 2);
    seq(k - from, i requires 0 <= i < k - from => bars[from + i].close)
  }

  /** The stop distance an entry on bar `k` is sized by: the realised volatility when that
      mode is chosen, a stop is set and it can be measured, and the configured one otherwise. */
  predicate SizedBy(m: Machine, bars: seq<Bar>, k: nat, stopPct: Option<real>)
    requires k <= |bars|
  {
    var vol := RealizedVolatility(m.root, Recent(m.config, bars, k), m.config.volatilityPeriod);
    stopPct ==
      if m.config.sizingMode == VolatilityTarget && vol.Some?
         && m.config.stopLossPercent.Some? && m.config.stopLossPercent.value > 0.0
      then vol else m.config.stopLossPercent
  }

  /** The largest fraction of the account the exposure cap allows. */
  function Cap(c: StrategyConfig): real {
    match c.maxExposurePercent
    case None => 1.0
    case Some(x) => if x < 0.0 then 0.0 else if x > 100.0 then 1.0 else x / 100.0
  }

  /** The weight risks `riskLimitPercent` at this stop distance, unless the cap comes first;
      without a risk limit or a distance it is the cap. */
  predicate Weighs(c: StrategyConfig, stopPct: Option<real>, weight: real) {
    match (c.riskLimitPercent, stopPct)
    case (Some(risk), Some(stop)) =>
      if risk == 0.0 || stop == 0.0 then weight == Cap(c)
      else if risk < 0.0 || stop < 0.0 then weight == 0.0
      else weight <= Cap(c) && weight * stop <= risk && (weight == Cap(c) || weight * stop == risk)
    case _ => weight == Cap(c)
  }

  // -- one trade ---------------------------------------------------------------------------

  /** What one unit of price makes between entry and exit. */
  function Gain(short: bool, entry: real, exit: real): real {
    var (from, to) := if short then (exit, entry) else (entry, exit);
    if from == 0.0 then -1.0 else (to - from) / from
  }

  /** The return of the trade, and of the account on what was deployed. */
  predicate Earns(leg: Leg)
    requires leg.Trade?
  {
    leg.ret == Gain(leg.short, leg.entryPrice, leg.exitPrice) && leg.equityRet == leg.weight * leg.ret
  }

  /** Opened by a signal, at the open after it, at the size the settings give. */
  predicate OpenedRight(m: Machine, bars: seq<Bar>, signals: seq<Act>, leg: Leg)
    requires leg.Trade? && 1 <= leg.entryIdx < |bars|
  {
    && Calls(m.config, signals, leg.entryIdx, leg.short)
    && leg.rawEntryPrice == bars[leg.entryIdx].open
    && leg.entryPrice == Paid(m.config, leg.rawEntryPrice, !leg.short)
    && SizedBy(m, bars, leg.entryIdx, leg.stopPercent)
    && Weighs(m.config, leg.stopPercent, leg.weight)
  }

  /** Until its last bar no signal turned against it and no bar touched its levels. */
  ghost predicate HeldUntil(c: StrategyConfig, bars: seq<Bar>, signals: seq<Act>, leg: Leg, last: int)
    requires leg.Trade? && 1 <= leg.entryIdx && last <= |bars|
  {
    && (forall k :: leg.entryIdx < k < last ==> !Turned(signals, k, leg.short))
    && (forall k :: leg.entryIdx <= k < last ==>
          !Stops(c, leg.entryPrice, leg.short, bars[k]) && !Takes(c, leg.entryPrice, leg.short, bars[k]))
  }

  /** What ended it, and at what price: the turning signal at the open first, then the
      stop, then the take; the final close only when nothing else ever did. */
  predicate ClosedRight(c: StrategyConfig, bars: seq<Bar>, signals: seq<Act>, leg: Leg)
    requires leg.Trade? && 1 <= leg.entryIdx <= leg.exitIdx < |bars|
  {
    var bar, turned := bars[leg.exitIdx], leg.entryIdx < leg.exitIdx && Turned(signals, leg.exitIdx, leg.short);
    var stopped, taken := Stops(c, leg.entryPrice, leg.short, bar), Takes(c, leg.entryPrice, leg.short, bar);
    match leg.reason
    case Signal => turned && leg.exitPrice == Paid(c, bar.open, leg.short)
    case Stop =>
      !turned && stopped && leg.exitPrice == Paid(c, StopLevel(c, leg.entryPrice, leg.short).value, leg.short)
    case Take =>
      && !turned && !stopped && taken
      && leg.exitPrice == Paid(c, TakeLevel(c, leg.entryPrice, leg.short).value, leg.short)
    case Forced =>
      && leg.exitIdx == |bars| - 1 && !turned && !stopped && !taken
      && leg.exitPrice == Paid(c, bar.close, leg.short)
  }

  ghost predicate IsTrade(m: Machine, bars: seq<Bar>, signals: seq<Act>, leg: Leg) {
    && leg.Trade? && 1 <= leg.entryIdx <= leg.exitIdx < |bars|
    && OpenedRight(m, bars, signals, leg)
    && HeldUntil(m.config, bars, signals, leg, leg.exitIdx)
    && ClosedRight(m.config, bars, signals, leg)
    && Earns(leg)
  }

  /** The whole log: trades that follow one another, each by the rules, and no signal that
      could have been acted on passed over. */
  ghost predicate IsTradeLog(m: Machine, bars: seq<Bar>, signals: seq<Act>, legs: seq<Leg>) {
    && Ordered(legs)
    && (forall i :: 0 <= i < |legs| ==> IsTrade(m, bars, signals, legs[i]))
    && (forall k: nat, short :: 1 <= k < |bars| && Calls(m.config, signals, k, short) ==> !FlatAt(legs, k))
  }

  // -- the machine applies them --------------------------------------------------------------

  lemma EntersOnCall(m: Machine, signals: seq<Act>, k: nat, short: bool)
    requires 1 <= k
    ensures m.Entering(SignalFor(signals, k)) == Some(short) <==> Calls(m.config, signals, k, short)
    ensures Opposes(SignalFor(signals, k), short) <==> Turned(signals, k, short)
  {
  }

  lemma LevelsAreRuled(m: Machine, entry: real, short: bool)
    ensures m.Levels(entry, short) == (StopLevel(m.config, entry, short), TakeLevel(m.config, entry, short))
  {
    hide Share, StopDistance;
    if m.config.UsesStop() {
      ShareIsDistance(entry, m.config.stopLossPercent.value);
    }
    if m.config.UsesTake() {
      ShareIsDistance(entry, m.config.takeProfitPercent.value);
    }
  }

  lemma ShareIsDistance(entry: real, percent: real)
    requires percent > 0.0
    ensures Share(entry, percent) == StopDistance(entry, percent)
  {
  }

  lemma FillsAreRuled(m: Machine, price: real, short: bool)
    ensures m.EntryPrice(price, short) == Paid(m.config, price, !short)
    ensures m.ExitPrice(price, short) == Paid(m.config, price, short)
  {
  }

  /** A bar's levels, the stop before the take. */
  lemma HitIsRuled(m: Machine, p: Position, bar: Bar)
    requires (p.stop, p.take) == m.Levels(p.entryPrice, p.short)
    ensures var c := m.config;
            m.LevelHit(p, bar) ==
              if Stops(c, p.entryPrice, p.short, bar) then Some((StopLevel(c, p.entryPrice, p.short).value, Reason.Stop))
              else if Takes(c, p.entryPrice, p.short, bar) then Some((TakeLevel(c, p.entryPrice, p.short).value, Reason.Take))
              else None
  {
    LevelsAreRuled(m, p.entryPrice, p.short);
    hide Machine.Levels;
  }

  lemma RecentIsHistory(m: Machine, bars: seq<Bar>, k: nat)
    requires k <= |bars|
    ensures HistoryAt(m, bars, k) == Recent(m.config, bars, k)
  {
  }

  /** With positive closes those few size an entry like every close ever seen. */
  lemma BufferSizesLikeAllCloses(m: Machine, bars: seq<Bar>, k: nat)
    requires k <= |bars| && forall i :: 0 <= i < k ==> bars[i].close > 0.0
    ensures m.StopInForce(HistoryAt(m, bars, k)) == m.StopInForce(Closes(bars[..k]))
  {
    RecentIsHistory(m, bars, k);
    TrimmedHistorySuffices(m.root, Closes(bars[..k]), m.config.volatilityPeriod);
    hide RealizedVolatility;
  }

  lemma SizeIsRuled(m: Machine, bars: seq<Bar>, k: nat, stopPct: Option<real>)
    requires k <= |bars|
    ensures m.StopInForce(HistoryAt(m, bars, k)) == stopPct <==> SizedBy(m, bars, k, stopPct)
  {
    RecentIsHistory(m, bars, k);
  }

  /** One weight fits the rule. */
  lemma WeightIsRuled(c: StrategyConfig, stopPct: Option<real>, weight: real)
    ensures Weighs(c, stopPct, weight) <==> weight == c.DeployWeightFor(stopPct)
  {
    CapIsRuled(c);
    hide StrategyConfig.DeployWeightFor, StrategyConfig.ExposurePercent, Cap;
    var w := c.DeployWeightFor(stopPct);
    assert Weighs(c, stopPct, w);
    if Weighs(c, stopPct, weight) && c.SizesByRisk(stopPct) && c.riskLimitPercent.value > 0.0 && stopPct.value > 0.0 {
      OneLargest(Cap(c), c.riskLimitPercent.value, stopPct.value, w, weight);
    }
  }

  lemma CapIsRuled(c: StrategyConfig)
    ensures Cap(c) * 100.0 == c.ExposurePercent()
  {
  }

  predicate Largest(cap: real, risk: real, stop: real, w: real) {
    w <= cap && w * stop <= risk && (w == cap || w * stop == risk)
  }

  lemma OneLargest(cap: real, risk: real, stop: real, a: real, b: real)
    requires stop > 0.0 && Largest(cap, risk, stop, a) && Largest(cap, risk, stop, b)
    ensures a == b
  {
    if a < b {
      LargerRisksMore(a, b, stop);
    } else if b < a {
      LargerRisksMore(b, a, stop);
    }
  }

  lemma LargerRisksMore(a: real, b: real, stop: real)
    requires a < b && stop > 0.0
    ensures a * stop < b * stop
  {
  }

  // -- a run books exactly these ---------------------------------------------------------------

  lemma GainIsReturn(short: bool, entry: real, exit: real)
    ensures PriceReturn(short, entry, exit) == Gain(short, entry, exit)
  {
    var (from, to) := if short then (exit, entry) else (entry, exit);
    if from != 0.0 {
      var q, d := to / from, (to - from) / from;
      assert q * from == to && d * from == to - from;
      assert (q - 1.0 - d) * from == 0.0;
      OneIsZero(q - 1.0 - d, from);
    }
  }

  lemma OneIsZero(x: real, y: real)
    requires x * y == 0.0 && y != 0.0
    ensures x == 0.0
  {
  }

  /** The position an entry creates is the one the rules describe. */
  lemma EntryIsRuled(m: Machine, bars: seq<Bar>, e: nat, short: bool)
    requires 1 <= e < |bars| && Numbered(bars)
    ensures var p := Entered(m, bars, e, short);
            && p.entryIndex == e && p.short == short && p.rawEntryPrice == bars[e].open
            && p.entryPrice == Paid(m.config, bars[e].open, !short)
            && (p.stop, p.take) == m.Levels(p.entryPrice, short)
            && SizedBy(m, bars, e, p.stopPct) && Weighs(m.config, p.stopPct, p.weight)
  {
    FillsAreRuled(m, bars[e].open, short);
    SizeIsRuled(m, bars, e, m.StopInForce(HistoryAt(m, bars, e)));
    WeightIsRuled(m.config, m.StopInForce(HistoryAt(m, bars, e)), m.config.DeployWeightFor(m.StopInForce(HistoryAt(m, bars, e))));
  }

  /** What has to match between a leg and the position it comes from. */
  predicate RowOf(p: Position, leg: Leg) {
    && leg.Trade? && leg.entryIdx == p.entryIndex && leg.short == p.short
    && leg.entryPrice == p.entryPrice && leg.rawEntryPrice == p.rawEntryPrice
    && leg.stopPercent == p.stopPct && leg.weight == p.weight
  }

  lemma HeldIsRuled(m: Machine, bars: seq<Bar>, signals: seq<Act>, p: Position, leg: Leg, last: int)
    requires 1 <= p.entryIndex && last <= |bars| && RowOf(p, leg)
    requires (p.stop, p.take) == m.Levels(p.entryPrice, p.short)
    ensures Held(m, bars, signals, p, last) <==> HeldUntil(m.config, bars, signals, leg, last)
  {
    hide Machine.LevelHit, Machine.Levels, Stops, Takes;
    forall k: nat | 1 <= k
      ensures Opposes(SignalFor(signals, k), p.short) <==> Turned(signals, k, p.short)
    {
      EntersOnCall(m, signals, k, p.short);
    }
    hide Opposes, Turned, SignalFor;
    forall k | 0 <= k < |bars|
      ensures m.LevelHit(p, bars[k]).None? <==>
                !Stops(m.config, leg.entryPrice, leg.short, bars[k]) && !Takes(m.config, leg.entryPrice, leg.short, bars[k])
    {
      HitIsRuled(m, p, bars[k]);
    }
  }

  lemma CloseIsRuled(m: Machine, bars: seq<Bar>, signals: seq<Act>, p: Position, leg: Leg)
    requires RowOf(p, leg) && 1 <= p.entryIndex <= leg.exitIdx < |bars|
    requires (p.stop, p.take) == m.Levels(p.entryPrice, p.short)
    requires Held(m, bars, signals, p, leg.exitIdx)
    requires Calls(m.config, signals, leg.entryIdx, leg.short)
    ensures Leaves(m, bars, signals, p, leg.exitIdx, leg.reason, leg.exitPrice) <==> ClosedRight(m.config, bars, signals, leg)
  {
    var x, c := leg.exitIdx, m.config;
    EntersOnCall(m, signals, x, p.short);
    HitIsRuled(m, p, bars[x]);
    FillsAreRuled(m, bars[x].open, p.short);
    FillsAreRuled(m, bars[x].close, p.short);
    if StopLevel(c, p.entryPrice, p.short).Some? {
      FillsAreRuled(m, StopLevel(c, p.entryPrice, p.short).value, p.short);
    }
    if TakeLevel(c, p.entryPrice, p.short).Some? {
      FillsAreRuled(m, TakeLevel(c, p.entryPrice, p.short).value, p.short);
    }
    hide Machine.LevelHit, Machine.Levels, Machine.ExitPrice, Stops, Takes, StopLevel, TakeLevel, Paid, SignalFor, Turned, Opposes;
  }

  lemma RowParts(p: Position, leg: Leg)
    requires leg.Trade?
    ensures leg == LegFor(p, leg.exitIdx, leg.reason, leg.exitPrice) <==> RowOf(p, leg) && Earns(leg)
  {
    GainIsReturn(leg.short, leg.entryPrice, leg.exitPrice);
    hide PriceReturn, Gain;
    Commutes(leg.weight, leg.ret);
  }

  lemma Commutes(x: real, y: real)
    ensures x * y == y * x
  {
  }

  /** The row is that of the position its entry creates. */
  lemma RowIsRuled(m: Machine, bars: seq<Bar>, signals: seq<Act>, leg: Leg)
    requires Numbered(bars) && leg.Trade? && 1 <= leg.entryIdx < |bars|
    ensures var p := Entered(m, bars, leg.entryIdx, leg.short);
            RowOf(p, leg) && Calls(m.config, signals, leg.entryIdx, leg.short) <==> OpenedRight(m, bars, signals, leg)
  {
    var p := Entered(m, bars, leg.entryIdx, leg.short);
    EntryIsRuled(m, bars, leg.entryIdx, leg.short);
    hide Machine.NewPosition, Entered, Calls, Weighs, StrategyConfig.DeployWeightFor, SizedBy, Paid;
    if leg.stopPercent == p.stopPct {
      WeightIsRuled(m.config, leg.stopPercent, leg.weight);
      WeightIsRuled(m.config, leg.stopPercent, p.weight);
    }
    OneSize(m, bars, leg.entryIdx, leg.stopPercent, p.stopPct);
  }

  lemma OneSize(m: Machine, bars: seq<Bar>, k: nat, a: Option<real>, b: Option<real>)
    requires k <= |bars| && SizedBy(m, bars, k, b)
    ensures SizedBy(m, bars, k, a) <==> a == b
  {
  }

  lemma TradeIsEpisode(m: Machine, bars: seq<Bar>, signals: seq<Act>, leg: Leg)
    requires Numbered(bars)
    ensures IsTrade(m, bars, signals, leg) <==> IsEpisode(m, bars, signals, leg)
  {
    if leg.Trade? && 1 <= leg.entryIdx <= leg.exitIdx < |bars| {
      var p := Entered(m, bars, leg.entryIdx, leg.short);
      EntryIsRuled(m, bars, leg.entryIdx, leg.short);
      EntersOnCall(m, signals, leg.entryIdx, leg.short);
      RowIsRuled(m, bars, signals, leg);
      RowParts(p, leg);
      hide Held, HeldUntil, Leaves, ClosedRight, Machine.NewPosition, Entered, Machine.Entering, Machine.Levels, OpenedRight,
           Calls, SignalFor, LegFor, Earns;
      if RowOf(p, leg) && Calls(m.config, signals, leg.entryIdx, leg.short) {
        HeldIsRuled(m, bars, signals, p, leg, leg.exitIdx);
        if Held(m, bars, signals, p, leg.exitIdx) {
          CloseIsRuled(m, bars, signals, p, leg);
        }
      }
    }
  }

  lemma LogIsChronicle(m: Machine, bars: seq<Bar>, signals: seq<Act>, legs: seq<Leg>)
    requires Numbered(bars)
    ensures IsTradeLog(m, bars, signals, legs) <==> IsChronicle(m, bars, signals, legs)
  {
    forall i | 0 <= i < |legs|
      ensures IsTrade(m, bars, signals, legs[i]) <==> IsEpisode(m, bars, signals, legs[i])
    {
      TradeIsEpisode(m, bars, signals, legs[i]);
    }
    hide IsTrade, IsEpisode, Ordered, FlatAt;
    forall k: nat | 1 <= k
      ensures m.Entering(SignalFor(signals, k)).None? <==> forall short :: !Calls(m.config, signals, k, short)
    {
      EntersOnCall(m, signals, k, false);
      EntersOnCall(m, signals, k, true);
      hide Calls, Machine.Entering, SignalFor;
      if m.Entering(SignalFor(signals, k)).Some? {
        assert Calls(m.config, signals, k, m.Entering(SignalFor(signals, k)).value) by {
          EntersOnCall(m, signals, k, m.Entering(SignalFor(signals, k)).value);
        }
      } else {
        forall short
          ensures !Calls(m.config, signals, k, short)
        {
          EntersOnCall(m, signals, k, short);
        }
      }
    }
    hide Calls, Machine.Entering, SignalFor;
  }

  /** A list of legs is what a run books if and only if the rules call for exactly those
      trades. */
  lemma RunFollowsTheRules(m: Machine, bars: seq<Bar>, signals: seq<Act>, legs: seq<Leg>)
    requires Numbered(bars)
    ensures legs == RunLedger(m, bars, signals).legs <==> IsTradeLog(m, bars, signals, legs)
  {
    hide RunLedger, IsTradeLog, IsChronicle;
    LogIsChronicle(m, bars, signals, legs);
    RunIsTheChronicle(m, bars, signals, legs);
  }

  // -- in plain terms ----------------------------------------------------------------------

  /** For an entry at a positive price: a long's stop is below it and its take above, a
      short's the other way round, each by its own percentage. */
  lemma LevelsAreOnTheirSides(c: StrategyConfig, entry: real, s: real, t: real)
    requires entry > 0.0 && c.stopLossPercent == Some(s) && c.takeProfitPercent == Some(t) && s > 0.0 && t > 0.0
    ensures StopLevel(c, entry, false) == Some(entry * (1.0 - s / 100.0)) && StopLevel(c, entry, false).value < entry
    ensures TakeLevel(c, entry, false) == Some(entry * (1.0 + t / 100.0)) && TakeLevel(c, entry, false).value > entry
    ensures StopLevel(c, entry, true) == Some(entry * (1.0 + s / 100.0)) && StopLevel(c, entry, true).value > entry
    ensures TakeLevel(c, entry, true) == Some(entry * (1.0 - t / 100.0)) && TakeLevel(c, entry, true).value < entry
  {
    ShareIsPart(entry, s);
    ShareIsPart(entry, t);
  }

  lemma ShareIsPart(entry: real, percent: real)
    requires entry > 0.0 && percent > 0.0
    ensures Share(entry, percent) == entry * (percent / 100.0) && Share(entry, percent) > 0.0
  {
  }

  /** Every leg of every run is a trade by the rules. */
  lemma LegsFollowTheRules(m: Machine, bars: seq<Bar>, signals: seq<Act>, i: nat)
    requires Numbered(bars) && i < |RunLedger(m, bars, signals).legs|
    ensures IsTrade(m, bars, signals, RunLedger(m, bars, signals).legs[i])
  {
    RunFollowsTheRules(m, bars, signals, RunLedger(m, bars, signals).legs);
  }

  /** The rule's weight is within the cap and the risk, and no larger one is. */
  lemma WeightIsTheMost(c: StrategyConfig, stopPct: Option<real>, weight: real, w: real)
    requires Weighs(c, stopPct, weight)
    ensures 0.0 <= weight <= Cap(c)
    ensures c.riskLimitPercent.Some? && c.riskLimitPercent.value > 0.0 && stopPct.Some? && stopPct.value > 0.0 ==>
              && weight * stopPct.value <= c.riskLimitPercent.value
              && (w <= Cap(c) && w * stopPct.value <= c.riskLimitPercent.value ==> w <= weight)
  {
    WeightIsRuled(c, stopPct, weight);
    CapIsRuled(c);
    if c.riskLimitPercent.Some? && stopPct.Some? && stopPct.value > 0.0 && w > weight {
      LargerRisksMore(weight, w, stopPct.value);
    }
  }

  /** Within the exposure cap and the risk at its own stop distance, and as large as any
      weight `w` that is. */
  predicate LargestAllowed(c: StrategyConfig, leg: Leg, w: real) {
    && leg.Trade? && 0.0 <= leg.weight <= Cap(c)
    && (c.riskLimitPercent.Some? && c.riskLimitPercent.value > 0.0 && leg.stopPercent.Some? && leg.stopPercent.value > 0.0 ==>
          && leg.weight * leg.stopPercent.value <= c.riskLimitPercent.value
          && (w <= Cap(c) && w * leg.stopPercent.value <= c.riskLimitPercent.value ==> w <= leg.weight))
  }

  /** No leg of any run deploys more than the exposure cap; and one that has a risk limit and
      a stop distance deploys the most that both allow. */
  lemma EveryLegIsTheLargestAllowed(m: Machine, bars: seq<Bar>, signals: seq<Act>, i: nat, w: real)
    requires Numbered(bars) && i < |RunLedger(m, bars, signals).legs|
    ensures LargestAllowed(m.config, RunLedger(m, bars, signals).legs[i], w)
  {
    hide RunLedger, Cap, ClosedRight, HeldUntil, Weighs, Earns, LargestAllowed;
    LegsFollowTheRules(m, bars, signals, i);
    RuledIsLargest(m.config, RunLedger(m, bars, signals).legs[i], w);
  }

  lemma RuledIsLargest(c: StrategyConfig, leg: Leg, w: real)
    requires leg.Trade? && Weighs(c, leg.stopPercent, leg.weight)
    ensures LargestAllowed(c, leg, w)
  {
    WeightIsTheMost(c, leg.stopPercent, leg.weight, w);
  }

  /** Entered at 100 with a 2% stop and a 4% take: when the first bar to reach either level
      falls to 95 and reaches 105, a run books the stop, a long's at 98 and a short's at 102,
      unless a signal turned first. */
  lemma StopComesFirst(m: Machine, bars: seq<Bar>, signals: seq<Act>, i: nat)
    requires Numbered(bars) && i < |RunLedger(m, bars, signals).legs|
    requires m.config.stopLossPercent == Some(2.0) && m.config.takeProfitPercent == Some(4.0)
    ensures var leg := RunLedger(m, bars, signals).legs[i];
            leg.Trade? && leg.entryPrice == 100.0 && 0 <= leg.exitIdx < |bars| && leg.reason != Signal
            && bars[leg.exitIdx].high == Some(105.0) && bars[leg.exitIdx].low == Some(95.0) ==>
              leg.reason == Stop && leg.exitPrice == Paid(m.config, if leg.short then 102.0 else 98.0, leg.short)
  {
    hide RunLedger, HeldUntil, OpenedRight, Earns;
    LegsFollowTheRules(m, bars, signals, i);
  }
}
