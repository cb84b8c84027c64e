/** The return series telescopes to the trade returns. */
module Equity {
  import opened Prelude
  import opened Sizing
  import opened Ledgers
  import opened Strategy
  import opened Replay
  import opened Chronicle
  import opened Returns

  // -- prices are prices ------------------------------------------------------

  lemma FillsArePositive(m: Machine, price: real, short: bool)
    requires 0.0 <= m.config.Cost() < 1.0 && price > 0.0
    ensures m.EntryPrice(price, short) > 0.0 && m.ExitPrice(price, short) > 0.0
  {
    var up, down := 1.0 + m.config.Cost(), 1.0 - m.config.Cost();
    ProductIsPositive(price, up);
    ProductIsPositive(price, down);
    if short {
      assert m.EntryPrice(price, short) == price * down && m.ExitPrice(price, short) == price * up;
    } else {
      assert m.EntryPrice(price, short) == price * up && m.ExitPrice(price, short) == price * down;
    }
  }

  lemma ProductIsPositive(x: real, y: real)
    requires x > 0.0 && y > 0.0
    ensures x * y > 0.0
  {
  }

  lemma TouchedLevelIsPositive(m: Machine, bars: seq<Bar>, p: Position, x: nat)
    requires Priced(m, bars) && x < |bars| && p.entryPrice > 0.0
    requires (p.stop, p.take) == m.Levels(p.entryPrice, p.short) && m.LevelHit(p, bars[x]).Some?
    ensures m.LevelHit(p, bars[x]).value.0 > 0.0
  {
  }

  lemma EpisodePrices(m: Machine, bars: seq<Bar>, signals: seq<Act>, leg: Leg)
    requires Priced(m, bars) && IsEpisode(m, bars, signals, leg)
    ensures leg.entryPrice > 0.0 && leg.exitPrice > 0.0
  {
    var p, x := Entered(m, bars, leg.entryIdx, leg.short), leg.exitIdx;
    FillsArePositive(m, bars[leg.entryIdx].open, leg.short);
    match leg.reason {
      case Signal => FillsArePositive(m, bars[x].open, leg.short);
      case Forced => FillsArePositive(m, bars[x].close, leg.short);
      case _ =>
        TouchedLevelIsPositive(m, bars, p, x);
        FillsArePositive(m, m.LevelHit(p, bars[x]).value.0, leg.short);
    }
  }

  // -- one leg ------------------------------------------------------------------

  /** What one unit held from `entry` to `exit` has become. */
  function Growth(short: bool, entry: real, exit: real): real {
    1.0 + PriceReturn(short, entry, exit)
  }

  lemma GrowthChains(short: bool, a: real, b: real, c: real)
    requires a > 0.0 && b > 0.0 && c > 0.0
    ensures Growth(short, a, b) * Growth(short, b, c) == Growth(short, a, c)
  {
    if short {
      QuotientsChain(c, b, a);
      assert Growth(short, a, b) == a / b && Growth(short, b, c) == b / c && Growth(short, a, c) == a / c;
    } else {
      QuotientsChain(a, b, c);
      assert Growth(short, a, b) == b / a && Growth(short, b, c) == c / b && Growth(short, a, c) == c / a;
    }
  }

  lemma QuotientsChain(a: real, b: real, c: real)
    requires a > 0.0 && b > 0.0 && c > 0.0
    ensures (b / a) * (c / b) == c / a
    ensures (c / b) * (b / a) == c / a
  {
  }

  /** The leg's price at the start of bar `k`. */
  function Mark(opens: seq<real>, leg: Leg, k: int): real
    requires leg.Trade? && leg.entryIdx <= k <= leg.LastBar() + 1 && 0 <= k < |opens|
  {
    if k == leg.entryIdx then leg.entryPrice
    else if k == leg.LastBar() + 1 then leg.exitPrice
    else opens[k]
  }

  ghost function LegReturns(opens: seq<real>, leg: Leg): int -> real
    requires leg.Trade?
  {
    k => LegReturn(opens, leg, k)
  }

  /** The slots of a leg up to bar `hi` compound to its growth up to `hi`. */
  lemma {:induction false} LegCompounds(opens: seq<real>, leg: Leg, hi: int)
    requires leg.Trade? && 0 <= leg.entryIdx < hi <= leg.LastBar() + 1 && hi < |opens|
    requires leg.entryPrice > 0.0 && leg.exitPrice > 0.0
    requires forall k :: 0 <= k < |opens| ==> opens[k] > 0.0
    ensures Compound(LegReturns(opens, leg), leg.entryIdx, hi)
            == Growth(leg.short, leg.entryPrice, Mark(opens, leg, hi))
    decreases hi
  {
    var f := LegReturns(opens, leg);
    assert 1.0 + f(hi - 1) == Growth(leg.short, Mark(opens, leg, hi - 1), Mark(opens, leg, hi));
    if hi - 1 == leg.entryIdx {
      assert Compound(f, leg.entryIdx, hi - 1) == 1.0;
    } else {
      LegCompounds(opens, leg, hi - 1);
      GrowthChains(leg.short, leg.entryPrice, Mark(opens, leg, hi - 1), Mark(opens, leg, hi));
    }
  }

  /** A leg whose every bar has a slot: not entered on the last bar, and not closed by a
      level inside the last bar. */
  predicate FullyBooked(leg: Leg, n: nat) {
    leg.Trade? && leg.entryIdx < n - 1 && leg.LastBar() < n - 1
  }

  ghost function Scaled(rets: seq<real>, weight: real): int -> real {
    k => if 0 <= k < |rets| then Ratio(rets[k], weight) else 0.0
  }

  lemma SlotsScale(acct: Account, opens: seq<real>, i: nat)
    requires Recorded(acct, Pay(opens)) && i < |acct.legs| && FullyBooked(acct.legs[i], |opens|)
    requires |acct.barReturns| == |opens| - 1 && acct.legs[i].entryIdx >= 0 && acct.legs[i].weight != 0.0
    ensures var leg := acct.legs[i];
            Compound(Scaled(acct.barReturns, leg.weight), leg.entryIdx, leg.LastBar() + 1)
            == Compound(LegReturns(opens, leg), leg.entryIdx, leg.LastBar() + 1)
  {
    hide PriceReturn, LegReturn;
    var leg := acct.legs[i];
    forall k | leg.entryIdx <= k < leg.LastBar() + 1
      ensures Scaled(acct.barReturns, leg.weight)(k) == LegReturns(opens, leg)(k)
    {
      assert Owns(leg, k) && acct.barReturns[k] == Pay(opens)(leg, k);
      WeightCancels(leg.weight, LegReturn(opens, leg, k));
    }
    CompoundAgrees(Scaled(acct.barReturns, leg.weight), LegReturns(opens, leg), leg.entryIdx, leg.LastBar() + 1);
  }

  lemma RowOf(p: Position, x: int, reason: Reason, price: real)
    ensures PaysItsPrices(LegFor(p, x, reason, price))
  {
  }

  predicate PaysItsPrices(leg: Leg) {
    leg.Trade? && leg.ret == PriceReturn(leg.short, leg.entryPrice, leg.exitPrice) && leg.equityRet == leg.ret * leg.weight
  }

  lemma RowReturn(m: Machine, bars: seq<Bar>, signals: seq<Act>, leg: Leg)
    requires IsEpisode(m, bars, signals, leg)
    ensures PaysItsPrices(leg)
  {
    var p := Entered(m, bars, leg.entryIdx, leg.short);
    assert PaysItsPrices(LegFor(p, leg.exitIdx, leg.reason, leg.exitPrice)) by {
      RowOf(p, leg.exitIdx, leg.reason, leg.exitPrice);
    }
  }

  lemma FullLegCompounds(opens: seq<real>, leg: Leg)
    requires PaysItsPrices(leg) && FullyBooked(leg, |opens|) && 0 <= leg.entryIdx <= leg.LastBar()
    requires leg.entryPrice > 0.0 && leg.exitPrice > 0.0
    requires forall k :: 0 <= k < |opens| ==> opens[k] > 0.0
    ensures Compound(LegReturns(opens, leg), leg.entryIdx, leg.LastBar() + 1) == 1.0 + leg.ret
  {
    LegCompounds(opens, leg, leg.LastBar() + 1);
  }

  /** A fully booked leg of a run, with everything the arithmetic needs. */
  lemma LegOfRun(m: Machine, bars: seq<Bar>, signals: seq<Act>, i: nat)
    requires Numbered(bars) && Priced(m, bars) && i < |RunLedger(m, bars, signals).legs|
    ensures var leg := RunLedger(m, bars, signals).legs[i];
            && PaysItsPrices(leg) && 1 <= leg.entryIdx <= leg.exitIdx < |bars|
            && leg.entryPrice > 0.0 && leg.exitPrice > 0.0
            && (FullyBooked(leg, |bars|) ==> leg.entryIdx <= leg.LastBar())
  {
    var leg := RunLedger(m, bars, signals).legs[i];
    assert IsEpisode(m, bars, signals, leg) by {
      RunIsChronicle(m, bars, signals);
    }
    EpisodePrices(m, bars, signals, leg);
    RowReturn(m, bars, signals, leg);
  }

  /** Telescoping. For every fully booked leg of a run, long or short, the slots it owns,
      divided by its weight, compound to exactly one plus the trade's return. */
  lemma Telescopes(m: Machine, bars: seq<Bar>, signals: seq<Act>, i: nat)
    requires Numbered(bars) && Priced(m, bars)
    requires i < |RunLedger(m, bars, signals).legs|
    requires FullyBooked(RunLedger(m, bars, signals).legs[i], |bars|)
    requires RunLedger(m, bars, signals).legs[i].weight != 0.0
    ensures var acct := RunLedger(m, bars, signals);
            var leg := acct.legs[i];
            Compound(Scaled(acct.barReturns, leg.weight), leg.entryIdx, leg.LastBar() + 1) == 1.0 + leg.ret
  {
    var acct := RunLedger(m, bars, signals);
    LegOfRun(m, bars, signals, i);
    Footprint(m, bars, signals);
    SlotsScale(acct, Opens(bars), i);
    FullLegCompounds(Opens(bars), acct.legs[i]);
  }

  lemma WeightCancels(w: real, r: real)
    requires w != 0.0
    ensures Ratio(w * r, w) == r
  {
  }

  // -- the whole curve ----------------------------------------------------------

  ghost function Slots(rets: seq<real>): int -> real {
    k => if 0 <= k < |rets| then rets[k] else 0.0
  }

  /** The last point of the equity curve that starts at one. */
  ghost function FinalEquity(rets: seq<real>): real {
    Compound(Slots(rets), 0, |rets|)
  }

  /** The first slot after the leg's, clipped to the slots there are. */
  function SpanEnd(leg: Leg, n: nat): int
    requires leg.Trade?
  {
    if leg.LastBar() + 1 < n - 1 then leg.LastBar() + 1 else n - 1
  }

  /** What the return series keeps of a leg: everything when it is fully booked, nothing
      when it was entered on the last bar, and its growth up to the last open when a level
      closed it inside the last bar. */
  function Recouped(opens: seq<real>, leg: Leg): real
    requires leg.Trade? && 0 <= leg.entryIdx
  {
    var hi := SpanEnd(leg, |opens|);
    if leg.entryIdx < hi then Growth(leg.short, leg.entryPrice, Mark(opens, leg, hi)) else 1.0
  }

  lemma RecoupedWhenFull(opens: seq<real>, leg: Leg)
    requires PaysItsPrices(leg) && 0 <= leg.entryIdx <= leg.LastBar() && FullyBooked(leg, |opens|)
    ensures Recouped(opens, leg) == 1.0 + leg.ret
  {
  }

  lemma SpanCompounds(opens: seq<real>, next: Account, leg: Leg)
    requires leg.Trade? && 0 <= leg.entryIdx && leg.weight == 1.0 && |next.barReturns| == |opens| - 1
    requires leg.entryPrice > 0.0 && leg.exitPrice > 0.0
    requires forall k :: 0 <= k < |opens| ==> opens[k] > 0.0
    requires forall k :: 0 <= k < |next.barReturns| && Owns(leg, k) ==> next.barReturns[k] == Pay(opens)(leg, k)
    ensures Compound(Slots(next.barReturns), leg.entryIdx, SpanEnd(leg, |opens|)) == Recouped(opens, leg)
  {
    var hi := SpanEnd(leg, |opens|);
    forall k | leg.entryIdx <= k < hi
      ensures Slots(next.barReturns)(k) == LegReturns(opens, leg)(k)
    {
      assert Owns(leg, k);
    }
    CompoundAgrees(Slots(next.barReturns), LegReturns(opens, leg), leg.entryIdx, hi);
    if leg.entryIdx < hi {
      LegCompounds(opens, leg, hi);
    }
  }

  /** Only the slots of `leg` differ, and they were zero before. */
  lemma OutsideTheSpan(acct: Account, next: Account, leg: Leg, pay: (Leg, int) -> real, lo: int, hi: int)
    requires leg.Trade? && WritesLeg(acct, next, leg, pay) && 0 <= lo && hi <= |acct.barReturns|
    requires forall k :: lo <= k < hi ==> !Owns(leg, k)
    ensures Compound(Slots(next.barReturns), lo, hi) == Compound(Slots(acct.barReturns), lo, hi)
  {
  }

  lemma SpanWasIdle(acct: Account, leg: Leg, pay: (Leg, int) -> real, hi: int)
    requires leg.Trade? && 0 <= leg.entryIdx && Recorded(acct, pay) && ComesAfter(acct.legs, leg)
    requires hi <= |acct.barReturns|
    ensures Compound(Slots(acct.barReturns), leg.entryIdx, hi) == 1.0
  {
  }

  /** Booking one leg of weight one multiplies the final equity by what the series keeps
      of that leg. */
  lemma BookingMultiplies(opens: seq<real>, acct: Account, next: Account, leg: Leg)
    requires leg.Trade? && WritesLeg(acct, next, leg, Pay(opens)) && |acct.barReturns| == |opens| - 1
    requires Recorded(acct, Pay(opens)) && ComesAfter(acct.legs, leg) && leg.weight == 1.0
    requires 0 <= leg.entryIdx < |opens| && leg.entryPrice > 0.0 && leg.exitPrice > 0.0
    requires forall k :: 0 <= k < |opens| ==> opens[k] > 0.0
    ensures Multiplies(FinalEquity(next.barReturns), FinalEquity(acct.barReturns), Recouped(opens, leg))
  {
    var e := leg.entryIdx;
    var hi := if SpanEnd(leg, |opens|) < e then e else SpanEnd(leg, |opens|);
    PartsOfABooking(opens, acct, next, leg, e, hi);
    MiddleReplaced(Slots(acct.barReturns), Slots(next.barReturns), e, hi, |acct.barReturns|, Recouped(opens, leg));
  }

  /** Two curves that differ in one stretch, where the first stood still. */
  lemma MiddleReplaced(before: int -> real, after: int -> real, e: int, hi: int, n: int, kept: real)
    requires 0 <= e <= hi <= n
    requires Compound(after, 0, e) == Compound(before, 0, e) && Compound(after, hi, n) == Compound(before, hi, n)
    requires Compound(before, e, hi) == 1.0 && Compound(after, e, hi) == kept
    ensures Multiplies(Compound(after, 0, n), Compound(before, 0, n), kept)
  {
    CompoundInThree(before, 0, e, hi, n);
    CompoundInThree(after, 0, e, hi, n);
    Assemble(Compound(before, 0, n), Compound(before, 0, e), Compound(before, e, hi), Compound(before, hi, n),
             Compound(after, 0, n), Compound(after, 0, e), Compound(after, e, hi), Compound(after, hi, n), kept);
  }

  lemma PartsOfABooking(opens: seq<real>, acct: Account, next: Account, leg: Leg, e: int, hi: int)
    requires leg.Trade? && WritesLeg(acct, next, leg, Pay(opens)) && |acct.barReturns| == |opens| - 1
    requires Recorded(acct, Pay(opens)) && ComesAfter(acct.legs, leg) && leg.weight == 1.0
    requires 0 <= leg.entryIdx < |opens| && leg.entryPrice > 0.0 && leg.exitPrice > 0.0
    requires forall k :: 0 <= k < |opens| ==> opens[k] > 0.0
    requires e == leg.entryIdx && hi == if SpanEnd(leg, |opens|) < e then e else SpanEnd(leg, |opens|)
    ensures var before, after := Slots(acct.barReturns), Slots(next.barReturns);
            && Compound(after, 0, e) == Compound(before, 0, e)
            && Compound(after, hi, |opens| - 1) == Compound(before, hi, |opens| - 1)
            && Compound(before, e, hi) == 1.0
            && Compound(after, e, hi) == Recouped(opens, leg)
  {
    OutsideTheSpan(acct, next, leg, Pay(opens), 0, e);
    OutsideTheSpan(acct, next, leg, Pay(opens), hi, |opens| - 1);
    SpanWasIdle(acct, leg, Pay(opens), hi);
    SpanCompounds(opens, next, leg);
  }

  predicate Multiplies(after: real, before: real, factor: real) {
    after == before * factor
  }

  lemma Assemble(b: real, b1: real, b2: real, b3: real, a: real, a1: real, a2: real, a3: real, kept: real)
    requires InThree(b, b1, b2, b3) && InThree(a, a1, a2, a3)
    requires a1 == b1 && a3 == b3 && b2 == 1.0 && a2 == kept
    ensures Multiplies(a, b, kept)
  {
    assert b == b1 * b3;
    assert a == b1 * (kept * b3);
  }

  function ProductKept(opens: seq<real>, legs: seq<Leg>): real
    requires forall i :: 0 <= i < |legs| ==> legs[i].Trade? && 0 <= legs[i].entryIdx
  {
    if |legs| == 0 then 1.0
    else ProductKept(opens, legs[..|legs| - 1]) * Recouped(opens, legs[|legs| - 1])
  }

  lemma ProductGrows(opens: seq<real>, legs: seq<Leg>, leg: Leg)
    requires leg.Trade? && 0 <= leg.entryIdx
    requires forall i :: 0 <= i < |legs| ==> legs[i].Trade? && 0 <= legs[i].entryIdx
    ensures Multiplies(ProductKept(opens, legs + [leg]), ProductKept(opens, legs), Recouped(opens, leg))
  {
    hide Recouped;
    assert (legs + [leg])[..|legs|] == legs;
  }

  ghost predicate UnitWeights(legs: seq<Leg>) {
    forall i :: 0 <= i < |legs| ==> legs[i].Trade? && legs[i].weight == 1.0
  }

  ghost predicate ProductHolds(opens: seq<real>, acct: Account) {
    && (forall i :: 0 <= i < |acct.legs| ==> acct.legs[i].Trade? && 0 <= acct.legs[i].entryIdx)
    && FinalEquity(acct.barReturns) == ProductKept(opens, acct.legs)
  }

  /** A leg multiplies the product of the legs as it multiplies the curve. */
  lemma LegMultiplies(opens: seq<real>, acct: Account, next: Account, leg: Leg)
    requires leg.Trade? && WritesLeg(acct, next, leg, Pay(opens)) && |acct.barReturns| == |opens| - 1
    requires Recorded(acct, Pay(opens)) && ComesAfter(acct.legs, leg) && leg.weight == 1.0
    requires 0 <= leg.entryIdx < |opens| && leg.entryPrice > 0.0 && leg.exitPrice > 0.0
    requires forall k :: 0 <= k < |opens| ==> opens[k] > 0.0
    requires ProductHolds(opens, acct)
    ensures ProductHolds(opens, next)
  {
    BookingMultiplies(opens, acct, next, leg);
    ProductGrows(opens, acct.legs, leg);
    StillEqual(FinalEquity(acct.barReturns), ProductKept(opens, acct.legs),
               FinalEquity(next.barReturns), ProductKept(opens, next.legs), Recouped(opens, leg));
  }

  lemma StillEqual(x: real, y: real, nextX: real, nextY: real, factor: real)
    requires x == y && Multiplies(nextX, x, factor) && Multiplies(nextY, y, factor)
    ensures nextX == nextY
  {
  }

  /** The leg of a position that ends has real prices. */
  lemma EndPrices(m: Machine, bars: seq<Bar>, signals: seq<Act>, legs: seq<Leg>, p: Position, k: nat,
                  reason: Reason, price: real)
    requires k < |bars| && Priced(m, bars) && EndsAt(m, bars, signals, legs, p, k, reason, price)
    ensures 0 <= p.entryIndex < |bars| && p.entryPrice > 0.0 && price > 0.0
  {
    AddEpisode(m, bars, signals, [], p, k, reason, price);
    EpisodePrices(m, bars, signals, LegFor(p, k, reason, price));
  }

  lemma {:induction false} EquitySoFar(m: Machine, bars: seq<Bar>, signals: seq<Act>, k: nat)
    requires 1 <= k <= |bars| && Numbered(bars) && Priced(m, bars)
    requires UnitWeights(Replayed(m, bars, signals, k).acct.legs)
    ensures ProductHolds(Opens(bars), Replayed(m, bars, signals, k).acct)
  {
    if k == 1 {
      var slots := Replayed(m, bars, signals, k).acct.barReturns;
      CompoundOfZeros(Slots(slots), 0, |slots|);
    } else {
      EquityStep(m, bars, signals, k - 1);
      var desk := Replayed(m, bars, signals, k - 1);
      assert UnitWeights(desk.acct.legs) by {
        UnitWeightsBefore(m, bars, signals, k - 1);
      }
      EquitySoFar(m, bars, signals, k - 1);
    }
  }

  lemma UnitWeightsBefore(m: Machine, bars: seq<Bar>, signals: seq<Act>, k: nat)
    requires 1 <= k < |bars| && Numbered(bars) && UnitWeights(Replayed(m, bars, signals, k + 1).acct.legs)
    ensures UnitWeights(Replayed(m, bars, signals, k).acct.legs)
  {
    var legs := Replayed(m, bars, signals, k).acct.legs;
    NextBar(m, bars, signals, k);
    if Replayed(m, bars, signals, k + 1).acct.legs != legs {
      WeightsOfFewer(legs, Replayed(m, bars, signals, k + 1).acct.legs[|legs|]);
    }
  }

  lemma EquityStep(m: Machine, bars: seq<Bar>, signals: seq<Act>, k: nat)
    requires 1 <= k < |bars| && Numbered(bars) && Priced(m, bars)
    requires UnitWeights(Replayed(m, bars, signals, k + 1).acct.legs)
    ensures ProductHolds(Opens(bars), Replayed(m, bars, signals, k).acct)
            ==> ProductHolds(Opens(bars), Replayed(m, bars, signals, k + 1).acct)
  {
    var desk, next := Replayed(m, bars, signals, k), Replayed(m, bars, signals, k + 1);
    NextBar(m, bars, signals, k);
    match m.Judge(HistoryAt(m, bars, k), desk.mind.position, bars[k], SignalFor(signals, k)) {
      case Stay =>
      case Enter(p) =>
      case Leave(p, reason, price) =>
        var leg := LegFor(p, k, reason, price);
        ExitWrites(m, bars, signals, desk.acct, p, k, reason, price);
        WeightsOfFewer(desk.acct.legs, leg);
        EndPrices(m, bars, signals, desk.acct.legs, p, k, reason, price);
        RecordedSoFar(m, bars, signals, k);
        if ProductHolds(Opens(bars), desk.acct) {
          LegMultiplies(Opens(bars), desk.acct, next.acct, leg);
        }
    }
  }

  lemma WeightsOfFewer(legs: seq<Leg>, leg: Leg)
    requires UnitWeights(legs + [leg])
    ensures UnitWeights(legs) && leg.Trade? && leg.weight == 1.0
  {
    assert (legs + [leg])[|legs|] == leg;
    forall i | 0 <= i < |legs|
      ensures legs[i].Trade? && legs[i].weight == 1.0
    {
      assert (legs + [leg])[i] == legs[i];
    }
  }

  /** `next` is `acct` after one more leg, which has real prices. */
  ghost predicate Ends(opens: seq<real>, acct: Account, next: Account, leg: Leg) {
    && leg.Trade? && WritesLeg(acct, next, leg, Pay(opens)) && |acct.barReturns| == |opens| - 1
    && Recorded(acct, Pay(opens)) && ComesAfter(acct.legs, leg)
    && 0 <= leg.entryIdx < |opens| && leg.entryPrice > 0.0 && leg.exitPrice > 0.0
    && forall k :: 0 <= k < |opens| ==> opens[k] > 0.0
  }

  lemma EndsMultiplies(opens: seq<real>, acct: Account, next: Account, leg: Leg)
    requires Ends(opens, acct, next, leg) && UnitWeights(next.legs)
    requires UnitWeights(acct.legs) ==> ProductHolds(opens, acct)
    ensures ProductHolds(opens, next)
  {
    WeightsOfFewer(acct.legs, leg);
    LegMultiplies(opens, acct, next, leg);
  }

  lemma ForcedEnds(m: Machine, bars: seq<Bar>, signals: seq<Act>, p: Position)
    requires |bars| > 0 && Numbered(bars) && Priced(m, bars)
    requires Replayed(m, bars, signals, |bars|).mind.position == Some(p)
    ensures Ends(Opens(bars), Replayed(m, bars, signals, |bars|).acct, RunLedger(m, bars, signals),
                 LegFor(p, |bars| - 1, Forced, m.ExitPrice(bars[|bars| - 1].close, p.short)))
  {
    ForcedWrites(m, bars, signals, p);
    RecordedSoFar(m, bars, signals, |bars|);
    EndPrices(m, bars, signals, Replayed(m, bars, signals, |bars|).acct.legs, p, |bars| - 1, Forced,
              m.ExitPrice(bars[|bars| - 1].close, p.short));
  }

  /** When every position deploys the whole account, the final equity is exactly the
      product of what the series keeps of each leg. */
  lemma EquityIsProductKept(m: Machine, bars: seq<Bar>, signals: seq<Act>)
    requires |bars| > 0 && Numbered(bars) && Priced(m, bars) && UnitWeights(RunLedger(m, bars, signals).legs)
    ensures ProductHolds(Opens(bars), RunLedger(m, bars, signals))
  {
    var desk, acct := Replayed(m, bars, signals, |bars|), RunLedger(m, bars, signals);
    if UnitWeights(desk.acct.legs) {
      EquitySoFar(m, bars, signals, |bars|);
    }
    if desk.mind.position.Some? {
      var p := desk.mind.position.value;
      ForcedEnds(m, bars, signals, p);
      EndsMultiplies(Opens(bars), desk.acct, acct, LegFor(p, |bars| - 1, Forced, m.ExitPrice(bars[|bars| - 1].close, p.short)));
    }
  }
}
