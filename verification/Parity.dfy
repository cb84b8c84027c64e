/** A live driver on the simulated broker trades exactly what the backtest trades
    (the guarantee of src/strategy/live.py:3-8 and tests/test_strategy_parity.py). */
module Parity {
  import opened Prelude
  import opened Sizing
  import opened Ledgers
  import opened Strategy
  import opened State
  import opened Brokers
  import opened Live
  import opened Replay
  import opened Chronicle
  import opened Lookahead

  type SimScene = Scene<SimBook>
  type SimDriver = Driver<SimBook>

  /** The broker holds exactly what the position says. */
  predicate HoldsLike(book: SimBook, position: Option<Position>) {
    match position
    case None => book.quantity == 0.0
    case Some(p) => book.quantity == if p.short then -1.0 else 1.0
  }

  /** The live scene and the replay agree on everything that can be traded. */
  ghost predicate Mirrors(s: SimScene, log: seq<Leg>, desk: Desk) {
    && s.mem.mind.position == desk.mind.position
    && log + s.acct.legs == desk.acct.legs
    && LiveAccount(s.acct)
    && HoldsLike(s.book, s.mem.mind.position)
  }

  /** The tick that decides bar `k`: bar `k - 1` has closed and bar `k` is starting. */
  function CandlesFor(bars: seq<Bar>, signals: seq<Act>, k: nat): Candles
    requires 1 <= k < |bars|
  {
    Candles(0, 0, bars[k - 1].time, SignalFor(signals, k), bars[k - 1].close, bars[k - 1], Some(bars[k]), "")
  }

  // -- one intent -----------------------------------------------------------

  lemma OpenOnSim(d: SimDriver, s: SimScene, bar: Bar, p: Position, id: OrderId)
    requires d.seam == SIMULATED && LiveAccount(s.acct) && s.mem.mind.position == Some(p)
    requires (p.stop, p.take) == d.machine.Levels(p.entryPrice, p.short)
    ensures var t := d.Act(s, bar, Open(p.short, p.entryPrice, p.stop, p.take, p.weight, p.stopPct), id);
            && t.mem == s.mem.(unfilled := None) && t.acct == s.acct && t.closed == s.closed && t.file == s.file
            && HoldsLike(t.book, Some(p))
  {
  }

  lemma CloseOnSim(d: SimDriver, s: SimScene, opens: seq<real>, log: seq<Leg>, desk: Desk, bar: Bar, intent: Intent,
                   id: OrderId)
    requires d.seam == SIMULATED && Fits(opens, desk.acct) && intent.Close?
    requires Mirrors(s, log, desk)
    ensures Mirrors(d.Act(s, bar, intent, id), log, d.machine.Settle(opens, desk, bar, intent, None))
    ensures d.Act(s, bar, intent, id).closed == s.closed && d.Act(s, bar, intent, id).mem.mind.position.None?
    ensures d.Act(s, bar, intent, id).mem.mind.weightSeen == s.mem.mind.weightSeen
    ensures d.Act(s, bar, intent, id).mem.mind.firstWeight == s.mem.mind.firstWeight
  {
    if s.mem.mind.position.Some? {
      var p := s.mem.mind.position.value;
      var b := d.machine.BookingFor(p, bar, intent.reason, intent.expectedPrice);
      assert LegOf([], b) == LegOf(opens, b);
      assert log + (s.acct.legs + [LegOf([], b)]) == (log + s.acct.legs) + [LegOf([], b)];
    }
  }

  // -- one decision -----------------------------------------------------------

  /** A decision depends on the memory only through the position, and on the history only
      through the stop it puts in force. */
  lemma SameDecision(m: Machine, c1: seq<real>, c2: seq<real>, m1: Mind, m2: Mind, bar: Bar, act: Act, veto: string)
    requires m1.position == m2.position && m.StopInForce(c1) == m.StopInForce(c2)
    ensures m.Step(c1, m1, bar, act, veto).1 == m.Step(c2, m2, bar, act, veto).1
    ensures m.Step(c1, m1, bar, act, veto).0.position == m.Step(c2, m2, bar, act, veto).0.position
  {
  }

  /** A fresh entry carries the position's own levels. */
  lemma EntryCarriesLevels(m: Machine, closed: seq<real>, mind: Mind, bar: Bar, act: Act)
    requires mind.position.None?
    ensures var (next, intents) := m.Step(closed, mind, bar, act, "");
            next.position.Some? ==>
              var p := next.position.value;
              && |intents| > 0 && intents[0] == Open(p.short, p.entryPrice, p.stop, p.take, p.weight, p.stopPct)
              && (p.stop, p.take) == m.Levels(p.entryPrice, p.short)
  {
  }

  lemma ActOnOne(d: SimDriver, s: SimScene, bar: Bar, intents: seq<Intent>, key: int)
    requires LiveAccount(s.acct) && |intents| >= 1
    ensures d.ActOn(s, bar, intents, key, 1) == d.Act(s, bar, intents[0], OrderId(d.name, d.env, key, 0))
  {
    assert d.ActOn(s, bar, intents, key, 0) == s;
  }

  /** The first intent of a bar, acted on and settled. */
  lemma FirstIntentMirrors(d: SimDriver, s: SimScene, log: seq<Leg>, opens: seq<real>, closed: seq<real>, desk: Desk,
                           bar: Bar, act: Act, key: int)
    requires d.seam == SIMULATED && Fits(opens, desk.acct) && Mirrors(s, log, desk)
    requires d.machine.StopInForce(s.closed) == d.machine.StopInForce(closed)
    ensures var (mind, intents) := d.machine.Step(s.closed, s.mem.mind, bar, act, "");
            var mind2 := d.machine.Step(closed, desk.mind, bar, act, "").0;
            |intents| > 0 ==>
              Mirrors(d.ActOn(s.(mem := s.mem.(mind := mind)), bar, intents, key, 1), log,
                      d.machine.Settle(opens, Desk(mind2, desk.acct), bar, intents[0], None))
  {
    var m := d.machine;
    var (mind, intents) := m.Step(s.closed, s.mem.mind, bar, act, "");
    SameDecision(m, s.closed, closed, s.mem.mind, desk.mind, bar, act, "");
    m.OpenIsFirst(s.closed, s.mem.mind, bar, act, "");
    if |intents| > 0 {
      var s0 := s.(mem := s.mem.(mind := mind));
      ActOnOne(d, s0, bar, intents, key);
      if s.mem.mind.position.None? {
        EntryCarriesLevels(m, s.closed, s.mem.mind, bar, act);
        OpenOnSim(d, s0, bar, mind.position.value, OrderId(d.name, d.env, key, 0));
      } else {
        CloseOnSim(d, s0, opens, log, Desk(m.Step(closed, desk.mind, bar, act, "").0, desk.acct), bar, intents[0],
                   OrderId(d.name, d.env, key, 0));
      }
    }
  }

  /** Acting on a bar's intents through the simulated broker is settling them. */
  lemma ActingIsSettling(d: SimDriver, s: SimScene, log: seq<Leg>, opens: seq<real>, closed: seq<real>, desk: Desk,
                         bar: Bar, act: Act, key: int)
    requires d.seam == SIMULATED && Fits(opens, desk.acct) && Mirrors(s, log, desk)
    requires d.machine.StopInForce(s.closed) == d.machine.StopInForce(closed)
    ensures var (mind, intents) := d.machine.Step(s.closed, s.mem.mind, bar, act, "");
            Mirrors(d.ActOn(s.(mem := s.mem.(mind := mind)), bar, intents, key, |intents|), log,
                    d.machine.Turn(opens, closed, desk, bar, act))
  {
    var m := d.machine;
    var (mind, intents) := m.Step(s.closed, s.mem.mind, bar, act, "");
    var s0 := s.(mem := s.mem.(mind := mind));
    var desk0 := Desk(m.Step(closed, desk.mind, bar, act, "").0, desk.acct);
    SameDecision(m, s.closed, closed, s.mem.mind, desk.mind, bar, act, "");
    m.OpenIsFirst(s.closed, s.mem.mind, bar, act, "");
    FirstIntentMirrors(d, s, log, opens, closed, desk, bar, act, key);
    if |intents| == 1 {
      m.SettleOne(opens, desk0, bar, intents[0]);
      assert intents == [intents[0]];
    } else if |intents| == 2 {
      CloseOnSim(d, d.ActOn(s0, bar, intents, key, 1), opens, log, m.Settle(opens, desk0, bar, intents[0], None), bar,
                 intents[1], OrderId(d.name, d.env, key, 1));
      m.SettleTwo(opens, desk0, bar, intents[0], intents[1]);
      assert intents == [intents[0], intents[1]];
    }
  }

  // -- one tick -----------------------------------------------------------------

  /** With the broker and the memory in agreement nothing is adopted, dropped or refused. */
  lemma NothingToReconcile(d: SimDriver, s: SimScene, c: Candles)
    requires d.seam == SIMULATED && LiveAccount(s.acct) && HoldsLike(s.book, s.mem.mind.position)
    ensures d.Prepared(s, c) == s.(closed := Tail(s.closed + [c.close], d.machine.config.Keep()))
    ensures d.Reconcile(d.Prepared(s, c)).None?
  {
  }

  /** The memory file after a decided tick is the memory. */
  lemma DecidedIsSaved(d: SimDriver, s: SimScene, bar: Bar, c: Candles)
    requires LiveAccount(s.acct)
    ensures var t := d.DecideOn(s, bar, c); t.file == AsDict(t.mem) && t.mem.last == JKey(c.key)
  {
  }

  /** One tick of the live driver is one turn of the replay. */
  lemma TickMirrorsTurn(d: SimDriver, s: SimScene, log: seq<Leg>, bars: seq<Bar>, signals: seq<Act>, k: nat)
    requires 1 <= k < |bars| && d.seam == SIMULATED
    requires Mirrors(s, log, Replayed(d.machine, bars, signals, k)) && s.mem.last != JKey(bars[k - 1].time)
    requires d.machine.StopInForce(Tail(s.closed + [bars[k - 1].close], d.machine.config.Keep()))
             == d.machine.StopInForce(HistoryAt(d.machine, bars, k))
    ensures var (t, outcome) := d.OnBarClosed(s, CandlesFor(bars, signals, k));
            && outcome == Decided && Mirrors(t, log, Replayed(d.machine, bars, signals, k + 1))
            && t.file == AsDict(t.mem) && t.mem.last == JKey(bars[k - 1].time)
  {
    var c := CandlesFor(bars, signals, k);
    NothingToReconcile(d, s, c);
    DecidedIsSaved(d, d.Prepared(s, c), bars[k], c);
    ActingIsSettling(d, d.Prepared(s, c), log, Opens(bars), HistoryAt(d.machine, bars, k),
                     Replayed(d.machine, bars, signals, k), bars[k], c.act, c.key);
  }

  lemma TickKeepsHistory(d: SimDriver, s: SimScene, c: Candles)
    requires d.seam == SIMULATED && LiveAccount(s.acct) && HoldsLike(s.book, s.mem.mind.position)
    requires c.have >= c.need && s.mem.last != JKey(c.key)
    ensures d.OnBarClosed(s, c).0.closed == Tail(s.closed + [c.close], d.machine.config.Keep())
  {
    NothingToReconcile(d, s, c);
    var ready := d.Prepared(s, c);
    var (mind, intents) := d.machine.Step(ready.closed, ready.mem.mind, d.FillBar(s, c), c.act, c.veto);
    ActingKeepsHistory(d, ready.(mem := ready.mem.(mind := mind)), d.FillBar(s, c), intents, c.key, |intents|);
  }

  lemma {:induction false} ActingKeepsHistory(d: SimDriver, s: SimScene, bar: Bar, intents: seq<Intent>, key: int, i: nat)
    requires LiveAccount(s.acct) && i <= |intents|
    ensures d.ActOn(s, bar, intents, key, i).closed == s.closed
  {
    if i > 0 {
      ActingKeepsHistory(d, s, bar, intents, key, i - 1);
    }
  }

  // -- a whole run: one driver kept alive ----------------------------------------

  function Arena(file: Document): SimScene {
    Scene(FLAT_MEMORY, [], EmptyAccount(0), SimBook(0.0, None), file, [])
  }

  /** The scene after one driver has been fed every closed bar before `k`. */
  function LiveRun(d: SimDriver, bars: seq<Bar>, signals: seq<Act>, file: Document, k: nat): (s: SimScene)
    requires 1 <= k <= |bars|
    ensures LiveAccount(s.acct)
  {
    if k == 1 then Arena(file)
    else d.OnBarClosed(LiveRun(d, bars, signals, file, k - 1), CandlesFor(bars, signals, k - 1)).0
  }

  /** Consecutive bars have different stamps. */
  predicate Stamped(bars: seq<Bar>) {
    forall k :: 0 < k < |bars| ==> bars[k - 1].time != bars[k].time
  }

  /** Before bar `k`: same position, same legs, same history, same last bar decided. */
  ghost predicate InLockstep(d: SimDriver, bars: seq<Bar>, signals: seq<Act>, file: Document, k: nat)
    requires 1 <= k <= |bars|
  {
    var s := LiveRun(d, bars, signals, file, k);
    && Mirrors(s, [], Replayed(d.machine, bars, signals, k))
    && s.closed == HistoryAt(d.machine, bars, k - 1)
    && s.mem.last == if k == 1 then JNull else JKey(bars[k - 2].time)
  }

  lemma LockstepStep(d: SimDriver, bars: seq<Bar>, signals: seq<Act>, file: Document, k: nat)
    requires 1 <= k < |bars| && Stamped(bars) && d.seam == SIMULATED && InLockstep(d, bars, signals, file, k)
    ensures InLockstep(d, bars, signals, file, k + 1)
  {
    hide Machine.Turn, Driver.OnBarClosed, HoldsLike;
    var s := LiveRun(d, bars, signals, file, k);
    HistoryGrows(d.machine, bars, k);
    TickMirrorsTurn(d, s, [], bars, signals, k);
    TickKeepsHistory(d, s, CandlesFor(bars, signals, k));
  }

  lemma {:induction false} LiveMirrorsReplay(d: SimDriver, bars: seq<Bar>, signals: seq<Act>, file: Document, k: nat)
    requires 1 <= k <= |bars| && Stamped(bars) && d.seam == SIMULATED
    ensures InLockstep(d, bars, signals, file, k)
  {
    hide Machine.Turn, Driver.OnBarClosed;
    if k > 1 {
      hide InLockstep;
      LiveMirrorsReplay(d, bars, signals, file, k - 1);
      LockstepStep(d, bars, signals, file, k - 1);
    }
  }

  /** Parity, in every sizing mode: a driver fed every bar has booked exactly the legs of
      the backtest that the market ended, holds the position the backtest force-closes, and
      its broker holds the same. */
  lemma LiveTradesTheBacktest(d: SimDriver, bars: seq<Bar>, signals: seq<Act>, file: Document)
    requires |bars| > 0 && Numbered(bars) && Stamped(bars) && d.seam == SIMULATED
    ensures var s := LiveRun(d, bars, signals, file, |bars|);
            && s.acct.legs == ClosedBefore(RunLedger(d.machine, bars, signals).legs, |bars|)
            && s.mem.mind.position == Replayed(d.machine, bars, signals, |bars|).mind.position
            && HoldsLike(s.book, s.mem.mind.position)
  {
    LiveMirrorsReplay(d, bars, signals, file, |bars|);
    ClosedBeforeIsReplayed(d.machine, bars, signals, |bars|);
    var legs := LiveRun(d, bars, signals, file, |bars|).acct.legs;
    assert [] + legs == legs;
  }
}
