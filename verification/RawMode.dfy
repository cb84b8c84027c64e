/** The raw replay: no risk settings (src/backtest/engine.py:65-133, 422-451). What it
    trades is a fold over the signals, so prices cannot matter, and its final equity is
    the product of its trades up to an entry on the very last bar. */
module RawMode {
  import opened Prelude
  import opened Sizing
  import opened Ledgers
  import opened Strategy
  import opened Replay
  import opened Chronicle
  import opened Returns
  import opened Equity
  import opened Engine

  /** Entry bar, exit bar and direction; an exit of `n` is a position still open. */
  type Interval = (int, int, bool)

  function Intervals(legs: seq<Leg>, n: int): seq<Interval> {
    if |legs| == 0 then []
    else
      var last := legs[|legs| - 1];
      Intervals(legs[..|legs| - 1], n)
      + if last.Trade? then [(last.entryIdx, if last.reason == Forced then n else last.exitIdx, last.short)] else []
  }

  /** The fold over the signals before bar `k`: finished intervals, and the open one. */
  function Folded(allowShort: bool, signals: seq<Act>, k: nat): (seq<Interval>, Option<(int, bool)>)
    requires 1 <= k
  {
    if k == 1 then ([], None)
    else
      var (done, open) := Folded(allowShort, signals, k - 1);
      var act := SignalFor(signals, k - 1);
      match open
      case None =>
        (done, if act == Buy then Some((k - 1, false)) else if act == Sell && allowShort then Some((k - 1, true)) else None)
      case Some((e, short)) =>
        if Opposes(act, short) then (done + [(e, k - 1, short)], None) else (done, open)
  }

  function FoldedIntervals(allowShort: bool, signals: seq<Act>, n: nat): seq<Interval> {
    if n < 2 then []
    else
      var (done, open) := Folded(allowShort, signals, n);
      done + if open.Some? then [(open.value.0, n, open.value.1)] else []
  }

  lemma IntervalsGrow(legs: seq<Leg>, leg: Leg, n: int)
    requires leg.Trade?
    ensures Intervals(legs + [leg], n)
            == Intervals(legs, n) + [(leg.entryIdx, if leg.reason == Forced then n else leg.exitIdx, leg.short)]
  {
  }

  /** A desk as the fold sees it: what it traded and what it holds. */
  function Seen(desk: Desk, n: int): (seq<Interval>, Option<(int, bool)>) {
    (Intervals(desk.acct.legs, n),
     match desk.mind.position case None => None case Some(p) => Some((p.entryIndex, p.short)))
  }

  predicate WithoutLevels(position: Option<Position>) {
    position.Some? ==> position.value.stop.None? && position.value.take.None?
  }

  lemma LeavingIsFolded(m: Machine, bars: seq<Bar>, k: nat, desk: Desk, p: Position, price: real)
    requires k < |bars| && bars[k].index == k && desk.mind.position == Some(p) && Fits(Opens(bars), desk.acct)
    ensures Intervals(Booked(Opens(bars), desk.acct, m.BookingFor(p, bars[k], Signal, price)).legs, |bars|)
            == Seen(desk, |bars|).0 + [(p.entryIndex, k, p.short)]
  {
    IntervalsGrow(desk.acct.legs, LegOf(Opens(bars), m.BookingFor(p, bars[k], Signal, price)), |bars|);
  }

  /** One turn of a raw machine is one step of the fold. */
  lemma TurnIsFolded(m: Machine, bars: seq<Bar>, k: nat, act: Act, desk: Desk)
    requires m.config.Raw() && k < |bars| && bars[k].index == k
    requires Fits(Opens(bars), desk.acct) && WithoutLevels(desk.mind.position)
    ensures var next := m.Turn(Opens(bars), HistoryAt(m, bars, k), desk, bars[k], act);
            WithoutLevels(next.mind.position) && Seen(next, |bars|) ==
              match Seen(desk, |bars|).1
              case None =>
                (Seen(desk, |bars|).0,
                 if act == Buy then Some((k, false)) else if act == Sell && m.config.allowShort then Some((k, true)) else None)
              case Some((e, short)) =>
                if Opposes(act, short) then (Seen(desk, |bars|).0 + [(e, k, short)], None) else Seen(desk, |bars|)
  {
    m.TurnIsJudged(Opens(bars), HistoryAt(m, bars, k), desk, bars[k], act);
    match m.Judge(HistoryAt(m, bars, k), desk.mind.position, bars[k], act) {
      case Stay =>
      case Enter(p) =>
      case Leave(p, reason, price) =>
        assert reason == Signal;
        LeavingIsFolded(m, bars, k, desk, desk.mind.position.value, price);
    }
  }

  lemma {:induction false} ReplayIsFold(m: Machine, bars: seq<Bar>, signals: seq<Act>, k: nat)
    requires 1 <= k <= |bars| && Numbered(bars) && m.config.Raw()
    ensures Folded(m.config.allowShort, signals, k) == Seen(Replayed(m, bars, signals, k), |bars|)
    ensures WithoutLevels(Replayed(m, bars, signals, k).mind.position)
  {
    if k > 1 {
      ReplayIsFold(m, bars, signals, k - 1);
      assert bars[k - 1].index == k - 1;
      TurnIsFolded(m, bars, k - 1, SignalFor(signals, k - 1), Replayed(m, bars, signals, k - 1));
    }
  }

  /** Without risk settings the trades are the fold of the signals, whatever the prices. */
  lemma RawRunIsFold(m: Machine, bars: seq<Bar>, signals: seq<Act>)
    requires Numbered(bars) && m.config.Raw()
    ensures Intervals(RunLedger(m, bars, signals).legs, |bars|)
            == FoldedIntervals(m.config.allowShort, signals, |bars|)
  {
    hide Machine.Turn, Machine.ExitPrice;
    if |bars| > 0 {
      hide Folded, Replayed;
      var desk := Replayed(m, bars, signals, |bars|);
      SoFarHolds(m, bars, signals, |bars|);
      OpenFromSoFar(m, bars, signals, desk, |bars|);
      ReplayIsFold(m, bars, signals, |bars|);
      RunLegs(m, bars, signals);
      if desk.mind.position.Some? {
        var p := desk.mind.position.value;
        IntervalsGrow(desk.acct.legs, LegFor(p, |bars| - 1, Forced, m.ExitPrice(bars[|bars| - 1].close, p.short)), |bars|);
      }
    }
  }

  /** Two raw runs over the same signals trade the same bars in the same directions, on any
      two price series and with any two cost models. */
  lemma RawIsPriceIndependent(m1: Machine, b1: seq<Bar>, m2: Machine, b2: seq<Bar>, signals: seq<Act>)
    requires Numbered(b1) && Numbered(b2) && |b1| == |b2|
    requires m1.config.Raw() && m2.config.Raw() && m1.config.allowShort == m2.config.allowShort
    ensures Intervals(RunLedger(m1, b1, signals).legs, |b1|) == Intervals(RunLedger(m2, b2, signals).legs, |b2|)
  {
    RawRunIsFold(m1, b1, signals);
    RawRunIsFold(m2, b2, signals);
  }

  // -- the raw equity curve -----------------------------------------------------

  lemma RawLegs(m: Machine, bars: seq<Bar>, signals: seq<Act>)
    requires Numbered(bars) && m.config.Raw()
    ensures UnitWeights(RunLedger(m, bars, signals).legs)
    ensures forall i :: 0 <= i < |RunLedger(m, bars, signals).legs| ==>
              RunLedger(m, bars, signals).legs[i].reason == Signal || RunLedger(m, bars, signals).legs[i].reason == Forced
  {
    var legs := RunLedger(m, bars, signals).legs;
    RunIsChronicle(m, bars, signals);
    forall i | 0 <= i < |legs|
      ensures legs[i].Trade? && legs[i].weight == 1.0 && (legs[i].reason == Signal || legs[i].reason == Forced)
    {
      RawEpisode(m, bars, signals, legs[i]);
    }
  }

  lemma RawEpisode(m: Machine, bars: seq<Bar>, signals: seq<Act>, leg: Leg)
    requires m.config.Raw() && IsEpisode(m, bars, signals, leg)
    ensures leg.weight == 1.0 && (leg.reason == Signal || leg.reason == Forced)
    ensures leg.entryIdx < |bars| - 1 ==> FullyBooked(leg, |bars|) && leg.entryIdx <= leg.LastBar()
    ensures leg.entryIdx == |bars| - 1 ==> leg.reason == Forced && SpanEnd(leg, |bars|) == leg.entryIdx
  {
    var p := Entered(m, bars, leg.entryIdx, leg.short);
    assert m.StopInForce(HistoryAt(m, bars, leg.entryIdx)) == m.config.stopLossPercent;
    assert p.weight == 100.0 / 100.0;
    assert p.stop.None? && p.take.None?;
    assert m.LevelHit(p, bars[leg.exitIdx]).None?;
  }

  /** The product of `1 + ret` over a trade log. */
  function ProductOfTrades(legs: seq<Leg>): real
    requires forall i :: 0 <= i < |legs| ==> legs[i].Trade?
  {
    if |legs| == 0 then 1.0
    else ProductOfTrades(legs[..|legs| - 1]) * (1.0 + legs[|legs| - 1].ret)
  }

  lemma {:induction false} KeptIsTraded(opens: seq<real>, legs: seq<Leg>)
    requires forall i :: 0 <= i < |legs| ==> legs[i].Trade? && 0 <= legs[i].entryIdx
    requires forall i :: 0 <= i < |legs| ==> Recouped(opens, legs[i]) == 1.0 + legs[i].ret
    ensures ProductKept(opens, legs) == ProductOfTrades(legs)
  {
    if |legs| > 0 {
      KeptIsTraded(opens, legs[..|legs| - 1]);
    }
  }

  /** The one raw leg the return series cannot hold: entered on the last bar. */
  predicate LateEntry(legs: seq<Leg>, n: int) {
    |legs| > 0 && legs[|legs| - 1].Trade? && legs[|legs| - 1].entryIdx == n - 1
  }

  ghost predicate RawLeg(opens: seq<real>, leg: Leg) {
    && leg.Trade? && 0 <= leg.entryIdx < |opens|
    && (leg.entryIdx < |opens| - 1 ==> Recouped(opens, leg) == 1.0 + leg.ret)
    && (leg.entryIdx == |opens| - 1 ==> Recouped(opens, leg) == 1.0)
  }

  lemma RawLegOfRun(m: Machine, bars: seq<Bar>, signals: seq<Act>, leg: Leg)
    requires m.config.Raw() && IsEpisode(m, bars, signals, leg)
    ensures RawLeg(Opens(bars), leg)
  {
    RawEpisode(m, bars, signals, leg);
    RowReturn(m, bars, signals, leg);
    if leg.entryIdx < |bars| - 1 {
      RecoupedWhenFull(Opens(bars), leg);
    }
  }

  lemma AllRecouped(opens: seq<real>, legs: seq<Leg>, n: nat)
    requires Ordered(legs) && n <= |legs| && (n == |legs| ==> !LateEntry(legs, |opens|))
    requires forall i :: 0 <= i < |legs| ==> RawLeg(opens, legs[i])
    ensures forall i :: 0 <= i < n ==> Recouped(opens, legs[i]) == 1.0 + legs[i].ret
  {
    forall i | 0 <= i < n
      ensures legs[i].entryIdx < |opens| - 1
    {
      assert i < |legs| - 1 ==> legs[i].exitIdx < legs[|legs| - 1].entryIdx;
    }
  }

  lemma LateFactor(traded: real, kept: real, front: real, last: real, factor: real)
    requires Multiplies(traded, front, factor) && Multiplies(kept, front, last) && last == 1.0
    ensures Multiplies(traded, kept, factor)
  {
  }

  lemma ProductsSplit(opens: seq<real>, legs: seq<Leg>)
    requires |legs| > 0 && forall i :: 0 <= i < |legs| ==> legs[i].Trade? && 0 <= legs[i].entryIdx
    ensures var front, last := legs[..|legs| - 1], legs[|legs| - 1];
            && Multiplies(ProductOfTrades(legs), ProductOfTrades(front), 1.0 + last.ret)
            && Multiplies(ProductKept(opens, legs), ProductKept(opens, front), Recouped(opens, last))
  {
  }

  lemma TradedWhenLate(opens: seq<real>, legs: seq<Leg>)
    requires Ordered(legs) && LateEntry(legs, |opens|)
    requires forall i :: 0 <= i < |legs| ==> RawLeg(opens, legs[i])
    ensures Multiplies(ProductOfTrades(legs), ProductKept(opens, legs), 1.0 + legs[|legs| - 1].ret)
  {
    hide Recouped, Multiplies, ProductOfTrades, ProductKept;
    var front, last := legs[..|legs| - 1], legs[|legs| - 1];
    AllRecouped(opens, legs, |front|);
    KeptIsTraded(opens, front);
    ProductsSplit(opens, legs);
    LateFactor(ProductOfTrades(legs), ProductKept(opens, legs), ProductOfTrades(front), Recouped(opens, last), 1.0 + last.ret);
  }

  lemma TradedFromKept(opens: seq<real>, legs: seq<Leg>)
    requires Ordered(legs)
    requires forall i :: 0 <= i < |legs| ==> RawLeg(opens, legs[i])
    ensures Multiplies(ProductOfTrades(legs), ProductKept(opens, legs),
                       if LateEntry(legs, |opens|) then 1.0 + legs[|legs| - 1].ret else 1.0)
  {
    if LateEntry(legs, |opens|) {
      TradedWhenLate(opens, legs);
    } else {
      AllRecouped(opens, legs, |legs|);
      KeptIsTraded(opens, legs);
    }
  }

  lemma RunHasRawLegs(m: Machine, bars: seq<Bar>, signals: seq<Act>)
    requires Numbered(bars) && m.config.Raw()
    ensures Ordered(RunLedger(m, bars, signals).legs)
    ensures forall i :: 0 <= i < |RunLedger(m, bars, signals).legs| ==> RawLeg(Opens(bars), RunLedger(m, bars, signals).legs[i])
  {
    RunIsChronicle(m, bars, signals);
    forall i | 0 <= i < |RunLedger(m, bars, signals).legs|
      ensures RawLeg(Opens(bars), RunLedger(m, bars, signals).legs[i])
    {
      RawLegOfRun(m, bars, signals, RunLedger(m, bars, signals).legs[i]);
    }
  }

  /** The product of a raw run's trades is its final equity times the one trade, if any,
      that was entered on the last bar. */
  lemma RawEquity(m: Machine, bars: seq<Bar>, signals: seq<Act>)
    requires |bars| > 0 && Numbered(bars) && Priced(m, bars) && m.config.Raw()
    ensures var acct := RunLedger(m, bars, signals);
            && UnitWeights(acct.legs)
            && Multiplies(ProductOfTrades(acct.legs), FinalEquity(acct.barReturns),
                          if LateEntry(acct.legs, |bars|) then 1.0 + acct.legs[|acct.legs| - 1].ret else 1.0)
  {
    RawLegs(m, bars, signals);
    EquityIsProductKept(m, bars, signals);
    RunHasRawLegs(m, bars, signals);
    TradedFromKept(Opens(bars), RunLedger(m, bars, signals).legs);
  }

  lemma {:induction false} TradesArePositive(legs: seq<Leg>)
    requires forall i :: 0 <= i < |legs| ==> legs[i].Trade? && 1.0 + legs[i].ret > 0.0
    ensures ProductOfTrades(legs) > 0.0
  {
    if |legs| > 0 {
      TradesArePositive(legs[..|legs| - 1]);
      ProductIsPositive(ProductOfTrades(legs[..|legs| - 1]), 1.0 + legs[|legs| - 1].ret);
    }
  }

  lemma GrowthIsPositive(leg: Leg)
    requires PaysItsPrices(leg) && leg.entryPrice > 0.0 && leg.exitPrice > 0.0
    ensures 1.0 + leg.ret > 0.0
  {
  }

  /** The final equity of a raw run equals the product of its trades exactly when no trade
      was entered on the last bar, or that trade neither won nor lost. */
  lemma RawEquityExactly(m: Machine, bars: seq<Bar>, signals: seq<Act>)
    requires |bars| > 0 && Numbered(bars) && Priced(m, bars) && m.config.Raw()
    ensures var acct := RunLedger(m, bars, signals);
            && UnitWeights(acct.legs)
            && (FinalEquity(acct.barReturns) == ProductOfTrades(acct.legs)
                <==> !LateEntry(acct.legs, |bars|) || acct.legs[|acct.legs| - 1].ret == 0.0)
  {
    var acct := RunLedger(m, bars, signals);
    RawEquity(m, bars, signals);
    forall i | 0 <= i < |acct.legs|
      ensures 1.0 + acct.legs[i].ret > 0.0
    {
      LegOfRun(m, bars, signals, i);
      GrowthIsPositive(acct.legs[i]);
    }
    TradesArePositive(acct.legs);
    OnlyOneKeeps(ProductOfTrades(acct.legs), FinalEquity(acct.barReturns),
                 if LateEntry(acct.legs, |bars|) then 1.0 + acct.legs[|acct.legs| - 1].ret else 1.0);
  }

  lemma OnlyOneKeeps(product: real, equity: real, factor: real)
    requires Multiplies(product, equity, factor) && product > 0.0
    ensures equity == product <==> factor == 1.0
  {
    if equity == product {
      assert product * (factor - 1.0) == 0.0;
    }
  }
}
