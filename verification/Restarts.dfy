/** The loop rebuilds the driver from its saved state before every tick
    (src/strategy/live.py:147-154, src/scheduler/orchestrator.py:43-46). What such a driver
    trades, and exactly when that is still the backtest. */
module Restarts {
  import opened Prelude
  import opened Sizing
  import opened Ledgers
  import opened Strategy
  import opened State
  import opened Brokers
  import opened Live
  import opened Replay
  import opened Chronicle
  import opened Lookahead
  import opened Parity

  /** A new process: memory from the file, no price history, an empty ledger. */
  function Restarted(s: SimScene): SimScene {
    var loaded := FromDict(s.file);
    Scene(if loaded.Some? then loaded.value else FLAT_MEMORY, [], EmptyAccount(0), s.book, s.file, [])
  }

  /** The scene after a driver rebuilt before every tick has seen the bars before `k`, and
      the legs its ticks reported. */
  function RestartedRun(d: SimDriver, bars: seq<Bar>, signals: seq<Act>, file: Document, k: nat): (r: (SimScene, seq<Leg>))
    requires 1 <= k <= |bars|
  {
    if k == 1 then (Arena(file), [])
    else
      var (s, log) := RestartedRun(d, bars, signals, file, k - 1);
      var t := d.OnBarClosed(Restarted(s), CandlesFor(bars, signals, k - 1)).0;
      (t, log + t.acct.legs)
  }

  /** The same machine sized by its configured stop alone. */
  function Unsized(m: Machine): Machine {
    m.(config := m.config.(sizingMode := FixedRisk))
  }

  lemma OneCloseHasNoVolatility(m: Machine, x: real)
    ensures m.StopInForce([x]) == m.config.stopLossPercent
  {
  }

  /** Before bar `k`, what a restart reads back matches the fixed-risk backtest. */
  ghost predicate ReadsBack(d: SimDriver, bars: seq<Bar>, signals: seq<Act>, file: Document, k: nat)
    requires 1 <= k <= |bars|
  {
    var (s, log) := RestartedRun(d, bars, signals, file, k);
    && Mirrors(Restarted(s), log, Replayed(Unsized(d.machine), bars, signals, k))
    && s.mem.mind.position == Restarted(s).mem.mind.position
    && Restarted(s).mem.last == if k == 1 then JNull else JKey(bars[k - 2].time)
  }

  lemma ReadsBackStep(d: SimDriver, bars: seq<Bar>, signals: seq<Act>, file: Document, k: nat)
    requires 1 <= k < |bars| && Stamped(bars) && d.seam == SIMULATED && ReadsBack(d, bars, signals, file, k)
    ensures ReadsBack(d, bars, signals, file, k + 1)
  {
    hide Machine.Turn, Driver.OnBarClosed, Mirrors, CandlesFor, AsDict, FromDict;
    var (before, logBefore) := RestartedRun(d, bars, signals, file, k);
    var (s, log) := RestartedRun(d, bars, signals, file, k + 1);
    RestartedTick(d, Restarted(before), logBefore, bars, signals, k);
    RestartedReads(s, log, logBefore, Replayed(Unsized(d.machine), bars, signals, k + 1));
  }

  /** A driver that restarts before every tick trades the fixed-risk backtest, whatever
      sizing mode it is configured with: one close is never enough to measure volatility. */
  lemma {:induction false} RestartedMirrorsUnsized(d: SimDriver, bars: seq<Bar>, signals: seq<Act>, file: Document, k: nat)
    requires 1 <= k <= |bars| && Stamped(bars) && d.seam == SIMULATED && FromDict(file) == Some(FLAT_MEMORY)
    ensures ReadsBack(d, bars, signals, file, k)
  {
    hide Machine.Turn, Driver.OnBarClosed, FromDict;
    if k > 1 {
      hide ReadsBack;
      RestartedMirrorsUnsized(d, bars, signals, file, k - 1);
      ReadsBackStep(d, bars, signals, file, k - 1);
    }
  }

  /** A restart reads back what the last tick saved, with an empty ledger of its own. */
  lemma RestartedReads(s: SimScene, log: seq<Leg>, before: seq<Leg>, desk: Desk)
    requires s.file == AsDict(s.mem) && Mirrors(s, before, desk) && log == before + s.acct.legs
    ensures Mirrors(Restarted(s), log, desk)
    ensures s.mem.mind.position == Restarted(s).mem.mind.position && Restarted(s).mem.last == s.mem.last
  {
    Restored(s.mem);
    assert log + [] == log;
  }

  /** A rebuilt driver and one with the fixed-risk machine tick alike. */
  lemma RestartedTick(d: SimDriver, s: SimScene, log: seq<Leg>, bars: seq<Bar>, signals: seq<Act>, k: nat)
    requires 1 <= k < |bars| && d.seam == SIMULATED && s.closed == []
    requires Mirrors(s, log, Replayed(Unsized(d.machine), bars, signals, k)) && s.mem.last != JKey(bars[k - 1].time)
    ensures var t := d.OnBarClosed(s, CandlesFor(bars, signals, k)).0;
            && Mirrors(t, log, Replayed(Unsized(d.machine), bars, signals, k + 1))
            && t.file == AsDict(t.mem) && t.mem.last == JKey(bars[k - 1].time)
  {
    var c := CandlesFor(bars, signals, k);
    var u := Plain(d);
    NothingToReconcile(d, s, c);
    DecidedIsSaved(d, d.Prepared(s, c), bars[k], c);
    OneCloseHasNoVolatility(d.machine, bars[k - 1].close);
    DecisionsAgree(d, d.Prepared(s, c), bars[k], c);
    ActingIsSettling(u, d.Prepared(s, c), log, Opens(bars), HistoryAt(u.machine, bars, k),
                     Replayed(u.machine, bars, signals, k), bars[k], c.act, c.key);
  }

  lemma LevelsAgree(m: Machine, px: real, short: bool)
    ensures m.Levels(px, short) == Unsized(m).Levels(px, short)
  {
  }

  lemma PositionsAgree(m: Machine, closed: seq<real>, other: seq<real>, bar: Bar, short: bool)
    requires m.StopInForce(closed) == m.config.stopLossPercent
    ensures m.NewPosition(closed, bar, short) == Unsized(m).NewPosition(other, bar, short)
  {
    var u := Unsized(m);
    assert u.StopInForce(other) == m.config.stopLossPercent;
    assert u.config.ExposurePercent() == m.config.ExposurePercent();
    assert u.config.DeployWeightFor(m.config.stopLossPercent) == m.config.DeployWeightFor(m.config.stopLossPercent);
    assert u.EntryPrice(bar.open, short) == m.EntryPrice(bar.open, short) by {
      assert u.config.Cost() == m.config.Cost();
    }
    LevelsAgree(m, m.EntryPrice(bar.open, short), short);
  }

  lemma LevelHitAgrees(m: Machine, p: Position, bar: Bar)
    ensures m.LevelHit(p, bar) == Unsized(m).LevelHit(p, bar)
  {
  }

  lemma ClosesAgree(m: Machine, p: Position, price: real, reason: Reason, level: Option<real>)
    ensures m.CloseAt(p, price, reason, level) == Unsized(m).CloseAt(p, price, reason, level)
  {
  }

  lemma EntriesAgree(m: Machine, closed: seq<real>, mind: Mind, bar: Bar, act: Act, veto: string)
    requires m.StopInForce(closed) == m.config.stopLossPercent
    ensures m.EntryIntent(closed, mind, bar, act, veto) == Unsized(m).EntryIntent(closed, mind, bar, act, veto)
  {
    PositionsAgree(m, closed, closed, bar, false);
    PositionsAgree(m, closed, closed, bar, true);
  }

  /** Where the configured stop is in force, the sizing mode makes no difference to a step. */
  lemma StepsAgree(m: Machine, closed: seq<real>, mind: Mind, bar: Bar, act: Act, veto: string)
    requires m.StopInForce(closed) == m.config.stopLossPercent
    ensures m.Step(closed, mind, bar, act, veto) == Unsized(m).Step(closed, mind, bar, act, veto)
  {
    EntriesAgree(m, closed, mind, bar, act, veto);
    var next := if mind.position.None? then m.EntryIntent(closed, mind, bar, act, veto).0 else mind;
    if next.position.Some? {
      var p := next.position.value;
      LevelHitAgrees(m, p, bar);
      ClosesAgree(m, p, bar.open, Signal, None);
      var hit := m.LevelHit(p, bar);
      if hit.Some? {
        ClosesAgree(m, p, hit.value.0, hit.value.1, Some(hit.value.0));
      }
    }
  }

  /** The driver with the fixed-risk machine. */
  function Plain(d: SimDriver): SimDriver {
    d.(machine := Unsized(d.machine))
  }

  lemma ActAgrees(d: SimDriver, s: SimScene, bar: Bar, intent: Intent, id: OrderId)
    requires LiveAccount(s.acct)
    ensures d.Act(s, bar, intent, id) == Plain(d).Act(s, bar, intent, id)
  {
    var (book, fill) := d.seam.submit(s.book, intent, id);
    if intent.Open? && fill.IsFilled() && s.mem.mind.position.Some? {
      LevelsAgree(d.machine, fill.price.value, s.mem.mind.position.value.short);
    }
  }

  lemma {:induction false} ActOnAgrees(d: SimDriver, s: SimScene, bar: Bar, intents: seq<Intent>, key: int, i: nat)
    requires LiveAccount(s.acct) && i <= |intents|
    ensures d.ActOn(s, bar, intents, key, i) == Plain(d).ActOn(s, bar, intents, key, i)
  {
    if i > 0 {
      ActOnAgrees(d, s, bar, intents, key, i - 1);
      ActAgrees(d, d.ActOn(s, bar, intents, key, i - 1), bar, intents[i - 1], OrderId(d.name, d.env, key, i - 1));
    }
  }

  lemma DecisionsAgree(d: SimDriver, s: SimScene, bar: Bar, c: Candles)
    requires LiveAccount(s.acct) && d.machine.StopInForce(s.closed) == d.machine.config.stopLossPercent
    ensures d.DecideOn(s, bar, c) == Plain(d).DecideOn(s, bar, c)
  {
    StepsAgree(d.machine, s.closed, s.mem.mind, bar, c.act, c.veto);
    var (mind, intents) := d.machine.Step(s.closed, s.mem.mind, bar, c.act, c.veto);
    ActOnAgrees(d, s.(mem := s.mem.(mind := mind)), bar, intents, c.key, |intents|);
  }

  /** What a driver rebuilt every tick has reported at the end is the fixed-risk backtest. */
  lemma RestartedTradesUnsized(d: SimDriver, bars: seq<Bar>, signals: seq<Act>, file: Document)
    requires |bars| > 0 && Numbered(bars) && Stamped(bars) && d.seam == SIMULATED && FromDict(file) == Some(FLAT_MEMORY)
    ensures var (s, log) := RestartedRun(d, bars, signals, file, |bars|);
            && log == ClosedBefore(RunLedger(Unsized(d.machine), bars, signals).legs, |bars|)
            && s.mem.mind.position == Replayed(Unsized(d.machine), bars, signals, |bars|).mind.position
            && HoldsLike(s.book, s.mem.mind.position)
  {
    RestartedMirrorsUnsized(d, bars, signals, file, |bars|);
    ClosedBeforeIsReplayed(Unsized(d.machine), bars, signals, |bars|);
    var (s, log) := RestartedRun(d, bars, signals, file, |bars|);
    assert log + [] == log;
  }

  // -- what a restart changes, and exactly when ---------------------------------------

  /** The same trade, possibly of another size. */
  predicate SameTrade(a: Leg, b: Leg) {
    a.Trade? && b.Trade?
    && b == a.(weight := b.weight, equityRet := b.equityRet, stopPercent := b.stopPercent)
  }

  predicate SameTrades(a: seq<Leg>, b: seq<Leg>) {
    |a| == |b| && forall i :: 0 <= i < |a| ==> SameTrade(a[i], b[i])
  }

  /** Positions that differ in size alone. */
  predicate SameBut(p: Position, q: Position) {
    q == p.(weight := q.weight, stopPct := q.stopPct)
  }

  lemma EnteredAlike(m: Machine, bars: seq<Bar>, e: nat, short: bool)
    requires e < |bars|
    ensures SameBut(Entered(m, bars, e, short), Entered(Unsized(m), bars, e, short))
    ensures Entered(m, bars, e, short).stopPct == m.StopInForce(HistoryAt(m, bars, e))
    ensures Entered(Unsized(m), bars, e, short).stopPct == m.config.stopLossPercent
    ensures Entered(Unsized(m), bars, e, short).weight == m.config.DeployWeightFor(m.config.stopLossPercent)
  {
    hide HistoryAt, RealizedVolatility;
    var u := Unsized(m);
    assert u.config.Cost() == m.config.Cost() && u.config.ExposurePercent() == m.config.ExposurePercent();
    LevelsAgree(m, m.EntryPrice(bars[e].open, short), short);
  }

  lemma HeldAlike(m: Machine, bars: seq<Bar>, signals: seq<Act>, p: Position, q: Position, upTo: int)
    requires SameBut(p, q) && 0 <= p.entryIndex && upTo <= |bars| && Held(m, bars, signals, p, upTo)
    ensures Held(Unsized(m), bars, signals, q, upTo)
  {
  }

  lemma LeavesAlike(m: Machine, bars: seq<Bar>, signals: seq<Act>, p: Position, q: Position, x: nat, reason: Reason, price: real)
    requires SameBut(p, q) && 0 <= p.entryIndex && x < |bars| && Leaves(m, bars, signals, p, x, reason, price)
    ensures Leaves(Unsized(m), bars, signals, q, x, reason, price)
  {
    LevelHitAgrees(m, p, bars[x]);
    if reason == Forced {
      HeldAlike(m, bars, signals, p, q, |bars|);
    }
  }

  /** The same trade as the fixed-risk machine would have sized it. */
  function Resized(m: Machine, bars: seq<Bar>, leg: Leg): Leg
    requires leg.Trade? && 0 <= leg.entryIdx < |bars|
  {
    LegFor(Entered(Unsized(m), bars, leg.entryIdx, leg.short), leg.exitIdx, leg.reason, leg.exitPrice)
  }

  lemma EpisodeResized(m: Machine, bars: seq<Bar>, signals: seq<Act>, leg: Leg)
    requires IsEpisode(m, bars, signals, leg)
    ensures IsEpisode(Unsized(m), bars, signals, Resized(m, bars, leg)) && SameTrade(leg, Resized(m, bars, leg))
  {
    hide Machine.NewPosition, Held, Leaves;
    var p, q := Entered(m, bars, leg.entryIdx, leg.short), Entered(Unsized(m), bars, leg.entryIdx, leg.short);
    EnteredAlike(m, bars, leg.entryIdx, leg.short);
    HeldAlike(m, bars, signals, p, q, leg.exitIdx);
    LeavesAlike(m, bars, signals, p, q, leg.exitIdx, leg.reason, leg.exitPrice);
  }

  lemma ResizedIsTheRun(m: Machine, bars: seq<Bar>, signals: seq<Act>)
    requires Numbered(bars)
    ensures var legs, plain := RunLedger(m, bars, signals).legs, RunLedger(Unsized(m), bars, signals).legs;
            && |plain| == |legs|
            && forall i :: 0 <= i < |legs| ==> IsEpisode(m, bars, signals, legs[i]) && plain[i] == Resized(m, bars, legs[i])
  {
    hide RunLedger, IsEpisode, Resized;
    var legs := RunLedger(m, bars, signals).legs;
    RunIsChronicle(m, bars, signals);
    assert forall i :: 0 <= i < |legs| ==> legs[i].Trade? && 0 <= legs[i].entryIdx < |bars| by {
      EpisodesAreInRange(m, bars, signals, legs);
    }
    var other := seq(|legs|, i requires 0 <= i < |legs| => Resized(m, bars, legs[i]));
    forall i | 0 <= i < |legs|
      ensures IsEpisode(Unsized(m), bars, signals, other[i]) && SameTrade(legs[i], other[i])
    {
      EpisodeResized(m, bars, signals, legs[i]);
    }
    ShapeIsChronicle(m, bars, signals, legs, other);
    RunIsTheChronicle(Unsized(m), bars, signals, other);
  }

  lemma EpisodesAreInRange(m: Machine, bars: seq<Bar>, signals: seq<Act>, legs: seq<Leg>)
    requires forall i :: 0 <= i < |legs| ==> IsEpisode(m, bars, signals, legs[i])
    ensures forall i :: 0 <= i < |legs| ==> legs[i].Trade? && 0 <= legs[i].entryIdx < |bars|
  {
  }

  lemma ShapeIsChronicle(m: Machine, bars: seq<Bar>, signals: seq<Act>, legs: seq<Leg>, other: seq<Leg>)
    requires IsChronicle(m, bars, signals, legs) && SameTrades(legs, other)
    requires forall i :: 0 <= i < |other| ==> IsEpisode(Unsized(m), bars, signals, other[i])
    ensures IsChronicle(Unsized(m), bars, signals, other)
  {
    hide IsEpisode;
    forall k: nat | 1 <= k < |bars| && FlatAt(other, k)
      ensures m.Entering(SignalFor(signals, k)).None?
    {
      forall i | 0 <= i < |legs|
        ensures !Spans(legs[i], k)
      {
        assert SameTrade(legs[i], other[i]) && !Spans(other[i], k);
      }
      assert FlatAt(legs, k);
    }
  }

  /** Whatever the sizing mode, the fixed-risk run makes the very same trades — bars,
      directions, prices, reasons and returns — and can differ only in their size. */
  lemma SizingKeepsEveryTrade(m: Machine, bars: seq<Bar>, signals: seq<Act>)
    requires Numbered(bars)
    ensures var plain := RunLedger(Unsized(m), bars, signals).legs;
            && SameTrades(RunLedger(m, bars, signals).legs, plain)
            && forall i :: 0 <= i < |plain| ==> plain[i].weight == m.config.DeployWeightFor(m.config.stopLossPercent)
  {
    hide RunLedger, IsEpisode, Machine.NewPosition;
    var legs := RunLedger(m, bars, signals).legs;
    ResizedIsTheRun(m, bars, signals);
    EpisodesAreInRange(m, bars, signals, legs);
    forall i | 0 <= i < |legs|
      ensures SameTrade(legs[i], Resized(m, bars, legs[i]))
      ensures Resized(m, bars, legs[i]).weight == m.config.DeployWeightFor(m.config.stopLossPercent)
    {
      EpisodeResized(m, bars, signals, legs[i]);
      EnteredAlike(m, bars, legs[i].entryIdx, legs[i].short);
    }
  }

  /** The stop in force when each of these positions was entered is the configured one. */
  ghost predicate SizedAsConfigured(m: Machine, bars: seq<Bar>, legs: seq<Leg>) {
    forall i :: 0 <= i < |legs| ==>
      legs[i].Trade? && 0 <= legs[i].entryIdx < |bars|
      && m.StopInForce(HistoryAt(m, bars, legs[i].entryIdx)) == m.config.stopLossPercent
  }

  lemma ResizedExactly(m: Machine, bars: seq<Bar>, signals: seq<Act>, leg: Leg)
    requires IsEpisode(m, bars, signals, leg)
    ensures Resized(m, bars, leg) == leg <==> m.StopInForce(HistoryAt(m, bars, leg.entryIdx)) == m.config.stopLossPercent
  {
    EnteredAlike(m, bars, leg.entryIdx, leg.short);
    if m.StopInForce(HistoryAt(m, bars, leg.entryIdx)) == m.config.stopLossPercent {
      PositionsAgree(m, HistoryAt(m, bars, leg.entryIdx), HistoryAt(Unsized(m), bars, leg.entryIdx),
                     bars[leg.entryIdx], leg.short);
    }
  }

  /** The two runs agree in size as well exactly when, on every bar the fixed-risk run
      enters, the closes seen by then leave the configured stop in force. */
  lemma RestartParityExactly(m: Machine, bars: seq<Bar>, signals: seq<Act>)
    requires Numbered(bars)
    ensures RunLedger(Unsized(m), bars, signals).legs == RunLedger(m, bars, signals).legs
            <==> SizedAsConfigured(m, bars, RunLedger(Unsized(m), bars, signals).legs)
  {
    hide RunLedger, IsEpisode, Resized, Machine.StopInForce, HistoryAt;
    var legs, plain := RunLedger(m, bars, signals).legs, RunLedger(Unsized(m), bars, signals).legs;
    ResizedIsTheRun(m, bars, signals);
    SizingKeepsEveryTrade(m, bars, signals);
    EpisodesAreInRange(m, bars, signals, legs);
    forall i | 0 <= i < |legs|
      ensures plain[i] == legs[i] <==>
                m.StopInForce(HistoryAt(m, bars, plain[i].entryIdx)) == m.config.stopLossPercent
      ensures plain[i].Trade? && plain[i].entryIdx == legs[i].entryIdx
    {
      ResizedExactly(m, bars, signals, legs[i]);
      assert SameTrade(legs[i], plain[i]);
    }
  }

  // -- so a restarted driver trades the backtest ----------------------------------------

  lemma {:induction false} ClosedBeforeAlike(a: seq<Leg>, b: seq<Leg>, k: int)
    requires SameTrades(a, b)
    ensures SameTrades(ClosedBefore(a, k), ClosedBefore(b, k))
  {
    if |a| > 0 {
      assert SameTrade(a[|a| - 1], b[|a| - 1]);
      ClosedBeforeAlike(a[..|a| - 1], b[..|a| - 1], k);
    }
  }

  /** In every sizing mode, a driver rebuilt before every tick makes exactly the trades of
      the backtest it was configured from, each of the size the configured stop gives. */
  lemma RestartedTradesInEveryMode(d: SimDriver, bars: seq<Bar>, signals: seq<Act>, file: Document)
    requires |bars| > 0 && Numbered(bars) && Stamped(bars) && d.seam == SIMULATED && FromDict(file) == Some(FLAT_MEMORY)
    ensures SameTrades(ClosedBefore(RunLedger(d.machine, bars, signals).legs, |bars|),
                       RestartedRun(d, bars, signals, file, |bars|).1)
    ensures HoldsLike(RestartedRun(d, bars, signals, file, |bars|).0.book,
                      RestartedRun(d, bars, signals, file, |bars|).0.mem.mind.position)
  {
    hide RunLedger, RestartedRun, HoldsLike;
    RestartedTradesUnsized(d, bars, signals, file);
    SizingKeepsEveryTrade(d.machine, bars, signals);
    ClosedBeforeAlike(RunLedger(d.machine, bars, signals).legs, RunLedger(Unsized(d.machine), bars, signals).legs, |bars|);
  }

  /** In fixed-risk mode, or without a stop, it trades them at the same size too. */
  lemma RestartedTradesTheBacktest(d: SimDriver, bars: seq<Bar>, signals: seq<Act>, file: Document)
    requires |bars| > 0 && Numbered(bars) && Stamped(bars) && d.seam == SIMULATED && FromDict(file) == Some(FLAT_MEMORY)
    requires !d.machine.config.UsesStop() || d.machine.config.sizingMode == FixedRisk
    ensures RestartedRun(d, bars, signals, file, |bars|).1
            == ClosedBefore(RunLedger(d.machine, bars, signals).legs, |bars|)
    ensures HoldsLike(RestartedRun(d, bars, signals, file, |bars|).0.book,
                      RestartedRun(d, bars, signals, file, |bars|).0.mem.mind.position)
  {
    hide RunLedger, RestartedRun, HoldsLike, IsEpisode;
    var plain := RunLedger(Unsized(d.machine), bars, signals).legs;
    RestartedTradesUnsized(d, bars, signals, file);
    RunIsChronicle(Unsized(d.machine), bars, signals);
    EpisodesAreInRange(Unsized(d.machine), bars, signals, plain);
    assert SizedAsConfigured(d.machine, bars, plain);
    RestartParityExactly(d.machine, bars, signals);
  }

  const FLAT_BARS: seq<Bar> := seq(5, k requires 0 <= k < 5 => Bar(k, k, 100.0, 100.0, None, None))
  const ONE_BUY: seq<Act> := [Hold, Hold, Hold, Buy, Hold]

  lemma FlatHistory(m: Machine)
    requires m.config.volatilityPeriod == 14
    ensures HistoryAt(m, FLAT_BARS, 4) == [100.0, 100.0, 100.0, 100.0]
  {
  }

  /** The one signal is acted on by the fifth bar. */
  lemma BoughtOnTheFifth(m: Machine) returns (i: int)
    ensures 0 <= i < |RunLedger(m, FLAT_BARS, ONE_BUY).legs|
    ensures IsEpisode(m, FLAT_BARS, ONE_BUY, RunLedger(m, FLAT_BARS, ONE_BUY).legs[i])
    ensures RunLedger(m, FLAT_BARS, ONE_BUY).legs[i].entryIdx == 4
  {
    hide RunLedger, Held, Leaves, LegFor, Entered;
    var legs := RunLedger(m, FLAT_BARS, ONE_BUY).legs;
    RunIsChronicle(m, FLAT_BARS, ONE_BUY);
    assert m.Entering(SignalFor(ONE_BUY, 4)) == Some(false);
    assert !FlatAt(legs, 4);
    i :| 0 <= i < |legs| && Spans(legs[i], 4);
  }

  /** In volatility mode it can trade a different size: five flat bars with a signal on the
      fourth are sized by the volatility floor in the backtest, by the configured stop in a
      driver that has just started. */
  lemma RestartForgetsVolatility(m: Machine, stop: real)
    requires m.config.sizingMode == VolatilityTarget && m.config.stopLossPercent == Some(stop)
    requires stop > MIN_VOLATILITY_PERCENT && m.root(0.0) == 0.0 && m.config.volatilityPeriod == 14
    ensures Numbered(FLAT_BARS) && Stamped(FLAT_BARS)
    ensures RunLedger(Unsized(m), FLAT_BARS, ONE_BUY).legs != RunLedger(m, FLAT_BARS, ONE_BUY).legs
  {
    var i := BoughtOnTheFifth(m);
    FlatHistory(m);
    FlatCloses(m, HistoryAt(m, FLAT_BARS, 4));
    RestartParityExactly(m, FLAT_BARS, ONE_BUY);
  }

  lemma FlatCloses(m: Machine, closes: seq<real>)
    requires m.config.sizingMode == VolatilityTarget && m.config.UsesStop() && m.config.volatilityPeriod == 14
    requires m.root(0.0) == 0.0 && closes == [100.0, 100.0, 100.0, 100.0]
    ensures m.StopInForce(closes) == Some(MIN_VOLATILITY_PERCENT)
  {
    PositiveOfPositives(closes);
    var rets := SimpleReturns(closes);
    assert rets == [0.0, 0.0, 0.0];
    SumOfZeros(rets);
    assert SquaredDeviations(rets, 0.0) == [0.0, 0.0, 0.0];
    SumOfZeros(SquaredDeviations(rets, 0.0));
    assert SampleVariance(rets) == 0.0;
  }

  lemma {:induction false} SumOfZeros(s: seq<real>)
    requires forall i :: 0 <= i < |s| ==> s[i] == 0.0
    ensures Sum(s) == 0.0
  {
    if |s| > 0 {
      SumOfZeros(s[..|s| - 1]);
    }
  }
}
