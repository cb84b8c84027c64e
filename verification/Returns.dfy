/** The return series against the trade log: which slots a run writes, that each leg's
    slots compound to that leg's return, and what the final equity is made of. */
module Returns {
  import opened Prelude
  import opened Sizing
  import opened Ledgers
  import opened Strategy
  import opened Replay
  import opened Chronicle

  predicate Owns(leg: Leg, k: int) {
    leg.Trade? && leg.entryIdx <= k <= leg.LastBar()
  }

  /** Bar `k`'s return inside a leg, read off the trade row. */
  function LegReturn(opens: seq<real>, leg: Leg, k: int): real
    requires leg.Trade?
  {
    if 0 <= k < |opens| - 1
    then PriceReturn(leg.short,
                     if k == leg.entryIdx then leg.entryPrice else opens[k],
                     if k == leg.LastBar() then leg.exitPrice else opens[k + 1])
    else 0.0
  }

  ghost predicate ActiveIsOwned(acct: Account) {
    forall k :: 0 <= k < |acct.active| ==>
      (acct.active[k] <==> exists i :: 0 <= i < |acct.legs| && Owns(acct.legs[i], k))
  }

  ghost predicate IdleIsZero(acct: Account)
    requires |acct.active| == |acct.barReturns|
  {
    forall k :: 0 <= k < |acct.active| && !acct.active[k] ==> acct.barReturns[k] == 0.0
  }

  /** What a leg pays on bar `k`. */
  ghost function Pay(opens: seq<real>): (Leg, int) -> real {
    (leg: Leg, k: int) => if leg.Trade? then leg.weight * LegReturn(opens, leg, k) else 0.0
  }

  ghost predicate OwnedIsPaid(acct: Account, pay: (Leg, int) -> real) {
    forall i, k :: 0 <= i < |acct.legs| && 0 <= k < |acct.barReturns| && Owns(acct.legs[i], k) ==>
      acct.barReturns[k] == pay(acct.legs[i], k)
  }

  /** The slots say exactly what the legs say. */
  ghost predicate Recorded(acct: Account, pay: (Leg, int) -> real) {
    && |acct.active| == |acct.barReturns|
    && ActiveIsOwned(acct) && IdleIsZero(acct) && OwnedIsPaid(acct, pay)
  }

  /** `next` is `acct` with one leg written over it. */
  ghost predicate WritesLeg(acct: Account, next: Account, leg: Leg, pay: (Leg, int) -> real) {
    && next.legs == acct.legs + [leg]
    && |acct.active| == |acct.barReturns| == |next.active| == |next.barReturns|
    && (forall k :: 0 <= k < |acct.active| ==> next.active[k] == (Owns(leg, k) || acct.active[k]))
    && (forall k :: 0 <= k < |acct.active| ==>
          next.barReturns[k] == if Owns(leg, k) then pay(leg, k) else acct.barReturns[k])
  }

  lemma BookingWritesAt(opens: seq<real>, acct: Account, b: Booking, k: int)
    requires Fits(opens, acct) && 0 <= b.entryBar && b.lastBar == LegOf(opens, b).LastBar()
    requires 0 <= k < |acct.active|
    ensures var next, leg := Booked(opens, acct, b), LegOf(opens, b);
            && next.active[k] == (Owns(leg, k) || acct.active[k])
            && next.barReturns[k] == if Owns(leg, k) then Pay(opens)(leg, k) else acct.barReturns[k]
  {
    BookedAt(opens, acct, b, k);
    assert BarReturn(opens, b, k) == LegReturn(opens, LegOf(opens, b), k);
  }

  lemma BookingWrites(opens: seq<real>, acct: Account, b: Booking)
    requires Fits(opens, acct) && 0 <= b.entryBar && b.lastBar == LegOf(opens, b).LastBar()
    ensures WritesLeg(acct, Booked(opens, acct, b), LegOf(opens, b), Pay(opens))
  {
    forall k | 0 <= k < |acct.active|
      ensures Booked(opens, acct, b).active[k] == (Owns(LegOf(opens, b), k) || acct.active[k])
      ensures Booked(opens, acct, b).barReturns[k]
              == if Owns(LegOf(opens, b), k) then Pay(opens)(LegOf(opens, b), k) else acct.barReturns[k]
    {
      BookingWritesAt(opens, acct, b, k);
    }
  }

  ghost predicate ComesAfter(legs: seq<Leg>, leg: Leg)
    requires leg.Trade?
  {
    forall i :: 0 <= i < |legs| ==> legs[i].Trade? && legs[i].exitIdx < leg.entryIdx
  }

  lemma ActiveAfter(acct: Account, next: Account, leg: Leg, pay: (Leg, int) -> real)
    requires WritesLeg(acct, next, leg, pay) && ActiveIsOwned(acct)
    ensures ActiveIsOwned(next)
  {
    forall k | 0 <= k < |next.active|
      ensures next.active[k] <==> exists i :: 0 <= i < |next.legs| && Owns(next.legs[i], k)
    {
      assert next.legs[|acct.legs|] == leg;
      if next.active[k] && !Owns(leg, k) {
        var i :| 0 <= i < |acct.legs| && Owns(acct.legs[i], k);
        assert next.legs[i] == acct.legs[i];
      }
    }
  }

  lemma RecordedAfter(acct: Account, next: Account, leg: Leg, pay: (Leg, int) -> real)
    requires leg.Trade? && WritesLeg(acct, next, leg, pay)
    requires Recorded(acct, pay) && ComesAfter(acct.legs, leg)
    ensures Recorded(next, pay)
  {
    ActiveAfter(acct, next, leg, pay);
    forall i, k | 0 <= i < |next.legs| && 0 <= k < |next.barReturns| && Owns(next.legs[i], k)
      ensures next.barReturns[k] == pay(next.legs[i], k)
    {
      if i < |acct.legs| {
        assert next.legs[i] == acct.legs[i];
        assert !Owns(leg, k);
      }
    }
  }

  /** The booking that ends a position writes one leg behind all the others. */
  lemma ExitWrites(m: Machine, bars: seq<Bar>, signals: seq<Act>, acct: Account, p: Position, k: nat,
                   reason: Reason, price: real)
    requires Fits(Opens(bars), acct) && k < |bars| && Numbered(bars) && reason != Forced
    requires EndsAt(m, bars, signals, acct.legs, p, k, reason, price)
    ensures WritesLeg(acct, Booked(Opens(bars), acct, m.BookingFor(p, bars[k], reason, price)),
                      LegFor(p, k, reason, price), Pay(Opens(bars)))
    ensures ComesAfter(acct.legs, LegFor(p, k, reason, price))
  {
    assert bars[k].index == k;
    RowOfBooking(m, Opens(bars), p, bars[k], reason, price);
    BookingWrites(Opens(bars), acct, m.BookingFor(p, bars[k], reason, price));
  }

  lemma {:induction false} RecordedSoFar(m: Machine, bars: seq<Bar>, signals: seq<Act>, k: nat)
    requires 1 <= k <= |bars| && Numbered(bars)
    ensures Recorded(Replayed(m, bars, signals, k).acct, Pay(Opens(bars)))
  {
    if k > 1 {
      var desk := Replayed(m, bars, signals, k - 1);
      RecordedSoFar(m, bars, signals, k - 1);
      NextBar(m, bars, signals, k - 1);
      match m.Judge(HistoryAt(m, bars, k - 1), desk.mind.position, bars[k - 1], SignalFor(signals, k - 1)) {
        case Stay =>
        case Enter(p) =>
        case Leave(p, reason, price) =>
          ExitWrites(m, bars, signals, desk.acct, p, k - 1, reason, price);
          RecordedAfter(desk.acct, Replayed(m, bars, signals, k).acct, LegFor(p, k - 1, reason, price), Pay(Opens(bars)));
      }
    }
  }

  /** The forced close of the last position, when there is one. */
  lemma ForcedWrites(m: Machine, bars: seq<Bar>, signals: seq<Act>, p: Position)
    requires |bars| > 0 && Numbered(bars)
    requires Replayed(m, bars, signals, |bars|).mind.position == Some(p)
    ensures var acct := Replayed(m, bars, signals, |bars|).acct;
            var leg := LegFor(p, |bars| - 1, Forced, m.ExitPrice(bars[|bars| - 1].close, p.short));
            && EndsAt(m, bars, signals, acct.legs, p, |bars| - 1, Forced, leg.exitPrice)
            && WritesLeg(acct, RunLedger(m, bars, signals), leg, Pay(Opens(bars)))
            && ComesAfter(acct.legs, leg)
  {
    SoFarHolds(m, bars, signals, |bars|);
    ForcedRow(m, bars, p);
    BookingWrites(Opens(bars), Replayed(m, bars, signals, |bars|).acct, ForcedBooking(m, bars, p));
  }

  /** Footprint. A slot is active exactly when some leg owns it, an inactive slot is zero,
      and an active one is the owner's weight times the owner's return on that bar. */
  lemma Footprint(m: Machine, bars: seq<Bar>, signals: seq<Act>)
    requires Numbered(bars)
    ensures Recorded(RunLedger(m, bars, signals), Pay(Opens(bars)))
  {
    if |bars| > 0 {
      var desk := Replayed(m, bars, signals, |bars|);
      RecordedSoFar(m, bars, signals, |bars|);
      if desk.mind.position.Some? {
        var p := desk.mind.position.value;
        ForcedWrites(m, bars, signals, p);
        RecordedAfter(desk.acct, RunLedger(m, bars, signals),
                      LegFor(p, |bars| - 1, Forced, m.ExitPrice(bars[|bars| - 1].close, p.short)), Pay(Opens(bars)));
      }
    }
  }

  // -- one leg per opened position ----------------------------------------------

  function CountOpens(intents: seq<Intent>): nat {
    if |intents| == 0 then 0
    else CountOpens(intents[..|intents| - 1]) + if intents[|intents| - 1].Open? then 1 else 0
  }

  /** Entries ordered on the bars before `k`. */
  function OrderedEntries(m: Machine, bars: seq<Bar>, signals: seq<Act>, k: nat): nat
    requires 1 <= k <= |bars|
  {
    if k == 1 then 0
    else
      OrderedEntries(m, bars, signals, k - 1)
      + CountOpens(m.Step(HistoryAt(m, bars, k - 1), Replayed(m, bars, signals, k - 1).mind, bars[k - 1],
                          SignalFor(signals, k - 1), "").1)
  }

  lemma OpensOfOneBar(m: Machine, closed: seq<real>, mind: Mind, bar: Bar, act: Act)
    ensures CountOpens(m.Step(closed, mind, bar, act, "").1)
            == if mind.position.None? && m.Entering(act).Some? then 1 else 0
  {
    var intents := m.Step(closed, mind, bar, act, "").1;
    m.OpenIsFirst(closed, mind, bar, act, "");
    if |intents| == 1 {
      assert intents[..0] == [];
    } else if |intents| == 2 {
      assert intents[..1][..0] == [];
      assert CountOpens(intents[..1]) == if intents[0].Open? then 1 else 0;
    }
  }

  /** Positions there have been: the legs booked, and the one still open. */
  function Positions(desk: Desk): nat {
    |desk.acct.legs| + if desk.mind.position.Some? then 1 else 0
  }

  lemma NextBarCounts(m: Machine, bars: seq<Bar>, signals: seq<Act>, k: nat)
    requires 1 <= k < |bars| && Numbered(bars)
    ensures var desk := Replayed(m, bars, signals, k);
            Positions(Replayed(m, bars, signals, k + 1))
            == Positions(desk) + if desk.mind.position.None? && m.Entering(SignalFor(signals, k)).Some? then 1 else 0
  {
    hide Replayed, Machine.Turn, EndsAt, OpenSince;
    NextBar(m, bars, signals, k);
  }

  lemma {:induction false} EntriesAreLegsOrOpen(m: Machine, bars: seq<Bar>, signals: seq<Act>, k: nat)
    requires 1 <= k <= |bars| && Numbered(bars)
    ensures OrderedEntries(m, bars, signals, k) == Positions(Replayed(m, bars, signals, k))
  {
    hide Machine.Turn, Machine.Step, Machine.Entering, HistoryAt;
    if k > 1 {
      EntriesAreLegsOrOpen(m, bars, signals, k - 1);
      OpensOfOneBar(m, HistoryAt(m, bars, k - 1), Replayed(m, bars, signals, k - 1).mind, bars[k - 1], SignalFor(signals, k - 1));
      NextBarCounts(m, bars, signals, k - 1);
    }
  }

  lemma {:induction false} AllTraded(legs: seq<Leg>)
    requires forall i :: 0 <= i < |legs| ==> legs[i].Trade?
    ensures Trades(legs) == legs
  {
    if |legs| > 0 {
      AllTraded(legs[..|legs| - 1]);
      assert legs == legs[..|legs| - 1] + [legs[|legs| - 1]];
    }
  }

  /** Every position a run opens becomes exactly one trade, the trades do not overlap, and
      the four exit counters add up to the positions opened. */
  lemma OneLegPerPosition(m: Machine, bars: seq<Bar>, signals: seq<Act>)
    requires Numbered(bars) && |bars| > 0
    ensures var legs := RunLedger(m, bars, signals).legs;
            && Ordered(legs) && Trades(legs) == legs
            && OrderedEntries(m, bars, signals, |bars|) == |legs|
            && Exits(legs, Stop) + Exits(legs, Take) + Exits(legs, Signal) + Exits(legs, Forced) == |legs|
  {
    EntriesAreLegsOrOpen(m, bars, signals, |bars|);
    RunIsChronicle(m, bars, signals);
    AllTraded(RunLedger(m, bars, signals).legs);
    ExitsPartitionTrades(RunLedger(m, bars, signals).legs);
  }

  /** Two closes are decided on one bar exactly when the signal turns against an open
      position on a bar whose range also touches a level; they book one leg, the signal's. */
  lemma TwoClosesOneLeg(m: Machine, opens: seq<real>, closed: seq<real>, desk: Desk, bar: Bar, act: Act)
    requires Fits(opens, desk.acct)
    ensures
      var intents := m.Step(closed, desk.mind, bar, act, "").1;
      var next := m.Turn(opens, closed, desk, bar, act);
      && ((|intents| == 2 && intents[0].Close? && intents[1].Close?)
          <==> desk.mind.position.Some? && Opposes(act, desk.mind.position.value.short)
               && m.LevelHit(desk.mind.position.value, bar).Some?)
      && (|intents| == 2 && intents[0].Close? ==>
            |next.acct.legs| == |desk.acct.legs| + 1 && next.mind.position.None?
            && next.acct.legs[|desk.acct.legs|].Trade? && next.acct.legs[|desk.acct.legs|].reason == Signal)
  {
    m.TurnIsJudged(opens, closed, desk, bar, act);
  }

  // -- a bar that decides two closes -----------------------------------------------------

  const STOP_OF_TWO: StrategyConfig :=
    StrategyConfig(false, None, Some(2.0), None, Some(100.0), FixedRisk, 14, 0.0, 0.0)

  lemma LongBehindTwoPercent(m: Machine, closed: seq<real>, bar: Bar)
    requires m.config == STOP_OF_TWO && bar.open == 100.0
    ensures var p := m.NewPosition(closed, bar, false);
            && p.entryPrice == 100.0 && p.stop == Some(98.0) && p.take.None? && !p.short
            && p.entryIndex == bar.index && m.ExitPrice(98.0, false) == 98.0
  {
    hide StrategyConfig.DeployWeightFor, Machine.StopInForce;
    assert m.config.Cost() == 0.0 && m.config.UsesStop() && !m.config.UsesTake();
    assert m.EntryPrice(100.0, false) == 100.0;
    assert StopDistance(100.0, 2.0) == 2.0;
    assert m.Levels(100.0, false) == (Some(98.0), None);
  }

  /** Bought on bar 1; on bar 2 the signal has turned and the range touches the stop. */
  const TURNED: seq<Bar> :=
    [Bar(0, 0, 100.0, 100.0, None, None), Bar(1, 1, 100.0, 100.0, Some(101.0), Some(99.0)),
     Bar(2, 2, 100.0, 95.0, Some(101.0), Some(90.0))]
  const BUY_THEN_SELL: seq<Act> := [Buy, Sell, Hold]

  lemma HeldIntoTheTurn(m: Machine)
    requires m.config == STOP_OF_TWO
    ensures var desk := Replayed(m, TURNED, BUY_THEN_SELL, 2);
            desk.acct.legs == [] && desk.mind.position == Some(m.NewPosition(HistoryAt(m, TURNED, 1), TURNED[1], false))
  {
    hide Machine.Turn, Machine.NewPosition, HistoryAt;
    var desk := Replayed(m, TURNED, BUY_THEN_SELL, 1);
    assert desk == Desk(FRESH_MIND, EmptyAccount(3));
    LongBehindTwoPercent(m, HistoryAt(m, TURNED, 1), TURNED[1]);
    m.TurnIsJudged(Opens(TURNED), HistoryAt(m, TURNED, 1), desk, TURNED[1], Buy);
  }

  /** A run in which bar 2 decides two closes: the sale at the open and the stop at 98. It
      books one leg, the sale. */
  lemma TwoClosesHappen(m: Machine)
    requires m.config == STOP_OF_TWO
    ensures var desk := Replayed(m, TURNED, BUY_THEN_SELL, 2);
            var intents := m.Step(HistoryAt(m, TURNED, 2), desk.mind, TURNED[2], Sell, "").1;
            && |intents| == 2 && intents[0].Close? && intents[0].reason == Signal
            && intents[1].Close? && intents[1].reason == Stop && intents[1].expectedPrice == 98.0
    ensures var legs := RunLedger(m, TURNED, BUY_THEN_SELL).legs;
            |legs| == 1 && legs[0].Trade? && legs[0].exitIdx == 2 && legs[0].reason == Signal
  {
    hide Machine.Turn, Machine.NewPosition, HistoryAt;
    var desk := Replayed(m, TURNED, BUY_THEN_SELL, 2);
    HeldIntoTheTurn(m);
    LongBehindTwoPercent(m, HistoryAt(m, TURNED, 1), TURNED[1]);
    m.TurnIsJudged(Opens(TURNED), HistoryAt(m, TURNED, 2), desk, TURNED[2], Sell);
  }
}
