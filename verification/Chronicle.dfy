/** What a replay trades, described without running it. An episode is one position from
    the signal that opened it to the first reason to leave; the legs of a run are the one
    sequence of episodes that misses no entry. */
module Chronicle {
  import opened Prelude
  import opened Sizing
  import opened Ledgers
  import opened Strategy
  import opened Replay

  /** The position a signal opens on bar `e`. */
  function Entered(m: Machine, bars: seq<Bar>, e: nat, short: bool): Position
    requires e < |bars|
  {
    m.NewPosition(HistoryAt(m, bars, e), bars[e], short)
  }

  /** Nothing closed `p` on any bar before `upTo`. */
  ghost predicate Held(m: Machine, bars: seq<Bar>, signals: seq<Act>, p: Position, upTo: int)
    requires 0 <= p.entryIndex && upTo <= |bars|
  {
    && (forall j: int :: p.entryIndex < j < upTo ==> !Opposes(SignalFor(signals, j), p.short))
    && (forall j: int :: p.entryIndex <= j < upTo ==> m.LevelHit(p, bars[j]).None?)
  }

  /** Why bar `x` ends the position, and at what price. A signal fills at the open, a
      level fills at the level, and the stop wins over the take. */
  ghost predicate Leaves(m: Machine, bars: seq<Bar>, signals: seq<Act>, p: Position, x: nat,
                         reason: Reason, price: real)
    requires 0 <= p.entryIndex && x < |bars|
  {
    match reason
    case Signal =>
      && p.entryIndex < x && Opposes(SignalFor(signals, x), p.short)
      && price == m.ExitPrice(bars[x].open, p.short)
    case Forced =>
      && x == |bars| - 1 && Held(m, bars, signals, p, |bars|)
      && price == m.ExitPrice(bars[x].close, p.short)
    case _ =>
      && (p.entryIndex < x ==> !Opposes(SignalFor(signals, x), p.short))
      && m.LevelHit(p, bars[x]).Some?
      && m.LevelHit(p, bars[x]).value.1 == reason
      && price == m.ExitPrice(m.LevelHit(p, bars[x]).value.0, p.short)
  }

  /** The row a position leaves in the trade log. */
  function LegFor(p: Position, x: int, reason: Reason, price: real): Leg {
    var ret := PriceReturn(p.short, p.entryPrice, price);
    Trade(p.entryIndex, x, p.short, p.entryPrice, price, p.rawEntryPrice,
          ret, ret * p.weight, p.weight, reason, p.stopPct)
  }

  ghost predicate IsEpisode(m: Machine, bars: seq<Bar>, signals: seq<Act>, leg: Leg) {
    && leg.Trade?
    && 1 <= leg.entryIdx <= leg.exitIdx < |bars|
    && m.Entering(SignalFor(signals, leg.entryIdx)) == Some(leg.short)
    && var p := Entered(m, bars, leg.entryIdx, leg.short);
    && p.entryIndex == leg.entryIdx
    && leg == LegFor(p, leg.exitIdx, leg.reason, leg.exitPrice)
    && Held(m, bars, signals, p, leg.exitIdx)
    && Leaves(m, bars, signals, p, leg.exitIdx, leg.reason, leg.exitPrice)
  }

  /** Positions follow one another and never overlap, not even on one bar. */
  ghost predicate Ordered(legs: seq<Leg>) {
    && (forall i :: 0 <= i < |legs| ==> legs[i].Trade? && 1 <= legs[i].entryIdx <= legs[i].exitIdx)
    && (forall i, j :: 0 <= i < j < |legs| ==> legs[i].exitIdx < legs[j].entryIdx)
  }

  predicate Spans(leg: Leg, k: int) {
    leg.Trade? && leg.entryIdx <= k <= leg.exitIdx
  }

  /** Bar `k` is inside no position. */
  ghost predicate FlatAt(legs: seq<Leg>, k: int) {
    forall i :: 0 <= i < |legs| ==> !Spans(legs[i], k)
  }

  ghost predicate IsChronicle(m: Machine, bars: seq<Bar>, signals: seq<Act>, legs: seq<Leg>) {
    && Ordered(legs)
    && (forall i :: 0 <= i < |legs| ==> IsEpisode(m, bars, signals, legs[i]))
    && (forall k: nat :: 1 <= k < |bars| && FlatAt(legs, k) ==> m.Entering(SignalFor(signals, k)).None?)
  }

  // -- the replay keeps it --------------------------------------------------

  /** An open position and what is known about it before bar `k`. */
  ghost predicate OpenSince(m: Machine, bars: seq<Bar>, signals: seq<Act>, legs: seq<Leg>, p: Position, k: nat)
    requires k <= |bars|
  {
    && 1 <= p.entryIndex < k
    && m.Entering(SignalFor(signals, p.entryIndex)) == Some(p.short)
    && p == Entered(m, bars, p.entryIndex, p.short)
    && Held(m, bars, signals, p, k)
    && (forall i :: 0 <= i < |legs| ==> legs[i].Trade? && legs[i].exitIdx < p.entryIndex)
  }

  ghost predicate InPosition(desk: Desk, k: int) {
    desk.mind.position.Some? && desk.mind.position.value.entryIndex <= k
  }

  ghost predicate SoFar(m: Machine, bars: seq<Bar>, signals: seq<Act>, desk: Desk, k: nat)
    requires k <= |bars|
  {
    && Ordered(desk.acct.legs)
    && (forall i :: 0 <= i < |desk.acct.legs| ==>
          desk.acct.legs[i].exitIdx < k && desk.acct.legs[i].reason != Forced
          && IsEpisode(m, bars, signals, desk.acct.legs[i]))
    && (desk.mind.position.Some? ==> OpenSince(m, bars, signals, desk.acct.legs, desk.mind.position.value, k))
    && (forall j: nat :: 1 <= j < k && FlatAt(desk.acct.legs, j) && !InPosition(desk, j) ==>
          m.Entering(SignalFor(signals, j)).None?)
  }

  /** A position that was sound until bar `k` and ends there. */
  ghost predicate EndsAt(m: Machine, bars: seq<Bar>, signals: seq<Act>, legs: seq<Leg>, p: Position, k: nat,
                         reason: Reason, price: real)
    requires k < |bars|
  {
    && 1 <= p.entryIndex <= k
    && m.Entering(SignalFor(signals, p.entryIndex)) == Some(p.short)
    && p == Entered(m, bars, p.entryIndex, p.short)
    && (forall i :: 0 <= i < |legs| ==> legs[i].Trade? && legs[i].exitIdx < p.entryIndex)
    && Held(m, bars, signals, p, k)
    && Leaves(m, bars, signals, p, k, reason, price)
  }

  /** Closing the open position adds one episode. */
  lemma AddEpisode(m: Machine, bars: seq<Bar>, signals: seq<Act>, legs: seq<Leg>, p: Position, x: nat,
                   reason: Reason, price: real)
    requires Ordered(legs) && x < |bars| && EndsAt(m, bars, signals, legs, p, x, reason, price)
    ensures IsEpisode(m, bars, signals, LegFor(p, x, reason, price))
    ensures Ordered(legs + [LegFor(p, x, reason, price)])
  {
  }

  lemma VerdictWhileFlat(m: Machine, bars: seq<Bar>, signals: seq<Act>, desk: Desk, k: nat)
    requires 1 <= k < |bars| && Numbered(bars) && SoFar(m, bars, signals, desk, k)
    requires desk.mind.position.None?
    ensures match m.Judge(HistoryAt(m, bars, k), None, bars[k], SignalFor(signals, k))
            case Stay => m.Entering(SignalFor(signals, k)).None?
            case Enter(p) => OpenSince(m, bars, signals, desk.acct.legs, p, k + 1)
            case Leave(p, reason, price) =>
              p.entryIndex == k && reason != Forced && EndsAt(m, bars, signals, desk.acct.legs, p, k, reason, price)
  {
    var entering := m.Entering(SignalFor(signals, k));
    if entering.Some? {
      var p := m.NewPosition(HistoryAt(m, bars, k), bars[k], entering.value);
      assert p == Entered(m, bars, p.entryIndex, p.short);
      assert Held(m, bars, signals, p, k);
    }
  }

  lemma VerdictWhileHolding(m: Machine, bars: seq<Bar>, signals: seq<Act>, desk: Desk, k: nat)
    requires 1 <= k < |bars| && Numbered(bars) && SoFar(m, bars, signals, desk, k)
    requires desk.mind.position.Some?
    ensures var p := desk.mind.position.value;
            match m.Judge(HistoryAt(m, bars, k), Some(p), bars[k], SignalFor(signals, k))
            case Stay => OpenSince(m, bars, signals, desk.acct.legs, p, k + 1)
            case Enter(_) => false
            case Leave(q, reason, price) =>
              q == p && reason != Forced && EndsAt(m, bars, signals, desk.acct.legs, p, k, reason, price)
  {
  }

  /** After an exit on bar `k` every earlier bar without a leg was flat. */
  lemma SoFarAfterExit(m: Machine, bars: seq<Bar>, signals: seq<Act>, desk: Desk, next: Desk, k: nat,
                       p: Position, reason: Reason, price: real)
    requires 1 <= k < |bars| && SoFar(m, bars, signals, desk, k) && reason != Forced
    requires EndsAt(m, bars, signals, desk.acct.legs, p, k, reason, price)
    requires desk.mind.position == Some(p) || (desk.mind.position.None? && p.entryIndex == k)
    requires next.mind.position.None? && next.acct.legs == desk.acct.legs + [LegFor(p, k, reason, price)]
    ensures SoFar(m, bars, signals, next, k + 1)
  {
    var leg := LegFor(p, k, reason, price);
    AddEpisode(m, bars, signals, desk.acct.legs, p, k, reason, price);
    FlatIsOlder(desk.acct.legs, leg);
    forall j: nat | 1 <= j < k + 1 && FlatAt(next.acct.legs, j) && !InPosition(next, j)
      ensures m.Entering(SignalFor(signals, j)).None?
    {
      assert !Spans(leg, j);
    }
  }

  lemma RowOfBooking(m: Machine, opens: seq<real>, p: Position, bar: Bar, reason: Reason, price: real)
    ensures LegOf(opens, m.BookingFor(p, bar, reason, price)) == LegFor(p, bar.index, reason, price)
  {
  }

  /** One turn of the replay keeps the description. */
  lemma SoFarStep(m: Machine, bars: seq<Bar>, signals: seq<Act>, desk: Desk, k: nat)
    requires 1 <= k < |bars| && Numbered(bars)
    requires Fits(Opens(bars), desk.acct) && SoFar(m, bars, signals, desk, k)
    ensures SoFar(m, bars, signals,
                  m.Turn(Opens(bars), HistoryAt(m, bars, k), desk, bars[k], SignalFor(signals, k)), k + 1)
  {
    var next := m.Turn(Opens(bars), HistoryAt(m, bars, k), desk, bars[k], SignalFor(signals, k));
    m.TurnIsJudged(Opens(bars), HistoryAt(m, bars, k), desk, bars[k], SignalFor(signals, k));
    if desk.mind.position.None? {
      VerdictWhileFlat(m, bars, signals, desk, k);
    } else {
      VerdictWhileHolding(m, bars, signals, desk, k);
    }
    match m.Judge(HistoryAt(m, bars, k), desk.mind.position, bars[k], SignalFor(signals, k)) {
      case Stay =>
      case Enter(p) =>
      case Leave(p, reason, price) =>
        RowOfBooking(m, Opens(bars), p, bars[k], reason, price);
        assert bars[k].index == k;
        SoFarAfterExit(m, bars, signals, desk, next, k, p, reason, price);
    }
  }

  lemma FlatIsOlder(legs: seq<Leg>, leg: Leg)
    requires leg.Trade?
    ensures forall j :: FlatAt(legs + [leg], j) ==> FlatAt(legs, j) && !Spans(leg, j)
  {
    forall j | FlatAt(legs + [leg], j)
      ensures FlatAt(legs, j) && !Spans(leg, j)
    {
      assert (legs + [leg])[|legs|] == leg;
      forall i | 0 <= i < |legs|
        ensures !Spans(legs[i], j)
      {
        assert (legs + [leg])[i] == legs[i];
      }
    }
  }

  lemma {:induction false} SoFarHolds(m: Machine, bars: seq<Bar>, signals: seq<Act>, k: nat)
    requires 1 <= k <= |bars| && Numbered(bars)
    ensures SoFar(m, bars, signals, Replayed(m, bars, signals, k), k)
  {
    hide Machine.Turn;
    if k > 1 {
      SoFarHolds(m, bars, signals, k - 1);
      SoFarStep(m, bars, signals, Replayed(m, bars, signals, k - 1), k - 1);
    }
  }

  /** One bar of a real replay: its verdict, and what the verdict does. */
  lemma NextBar(m: Machine, bars: seq<Bar>, signals: seq<Act>, k: nat)
    requires 1 <= k < |bars| && Numbered(bars)
    ensures var desk, next := Replayed(m, bars, signals, k), Replayed(m, bars, signals, k + 1);
            match m.Judge(HistoryAt(m, bars, k), desk.mind.position, bars[k], SignalFor(signals, k))
            case Stay => next == desk
            case Enter(p) =>
              && next.acct == desk.acct && next.mind.position == Some(p)
              && OpenSince(m, bars, signals, desk.acct.legs, p, k + 1)
            case Leave(p, reason, price) =>
              && next.mind.position.None? && reason != Forced
              && EndsAt(m, bars, signals, desk.acct.legs, p, k, reason, price)
              && next.acct == Booked(Opens(bars), desk.acct, m.BookingFor(p, bars[k], reason, price))
  {
    var desk := Replayed(m, bars, signals, k);
    SoFarHolds(m, bars, signals, k);
    m.TurnIsJudged(Opens(bars), HistoryAt(m, bars, k), desk, bars[k], SignalFor(signals, k));
    if desk.mind.position.None? {
      VerdictWhileFlat(m, bars, signals, desk, k);
    } else {
      VerdictWhileHolding(m, bars, signals, desk, k);
    }
  }

  // -- the whole run ----------------------------------------------------------

  /** The last position, closed by the end of the data, completes the chronicle. */
  lemma ForcedCompletes(m: Machine, bars: seq<Bar>, signals: seq<Act>, desk: Desk, leg: Leg)
    requires |bars| > 0 && SoFar(m, bars, signals, desk, |bars|) && desk.mind.position.Some?
    requires var p := desk.mind.position.value;
             leg == LegFor(p, |bars| - 1, Forced, m.ExitPrice(bars[|bars| - 1].close, p.short))
    ensures IsChronicle(m, bars, signals, desk.acct.legs + [leg])
  {
    AddEpisode(m, bars, signals, desk.acct.legs, desk.mind.position.value, |bars| - 1, Forced, leg.exitPrice);
    FlatIsOlder(desk.acct.legs, leg);
    forall k: nat | 1 <= k < |bars| && FlatAt(desk.acct.legs + [leg], k)
      ensures m.Entering(SignalFor(signals, k)).None?
    {
      assert !Spans(leg, k);
    }
  }

  lemma FlatCompletes(m: Machine, bars: seq<Bar>, signals: seq<Act>, desk: Desk)
    requires SoFar(m, bars, signals, desk, |bars|) && desk.mind.position.None?
    ensures IsChronicle(m, bars, signals, desk.acct.legs)
  {
  }

  lemma ForcedRow(m: Machine, bars: seq<Bar>, p: Position)
    requires 0 <= p.entryIndex < |bars| && p.rawEntryPrice == bars[p.entryIndex].open
    ensures LegOf(Opens(bars), ForcedBooking(m, bars, p))
            == LegFor(p, |bars| - 1, Forced, m.ExitPrice(bars[|bars| - 1].close, p.short))
  {
  }

  lemma OpenFromSoFar(m: Machine, bars: seq<Bar>, signals: seq<Act>, desk: Desk, k: nat)
    requires k <= |bars| && SoFar(m, bars, signals, desk, k)
    ensures match desk.mind.position
            case None => true
            case Some(p) => 1 <= p.entryIndex < k && p.rawEntryPrice == bars[p.entryIndex].open
  {
  }

  /** What a run adds to its replay: the leg of the position still open, if there is one. */
  lemma RunLegs(m: Machine, bars: seq<Bar>, signals: seq<Act>)
    requires |bars| > 0 && SoFar(m, bars, signals, Replayed(m, bars, signals, |bars|), |bars|)
    ensures var desk := Replayed(m, bars, signals, |bars|);
            RunLedger(m, bars, signals).legs ==
              match desk.mind.position
              case None => desk.acct.legs
              case Some(p) =>
                desk.acct.legs + [LegFor(p, |bars| - 1, Forced, m.ExitPrice(bars[|bars| - 1].close, p.short))]
  {
    hide Replayed, Machine.ExitPrice, SoFar, LegFor, LegOf, ForcedBooking;
    var desk := Replayed(m, bars, signals, |bars|);
    OpenFromSoFar(m, bars, signals, desk, |bars|);
    if desk.mind.position.Some? {
      ForcedRow(m, bars, desk.mind.position.value);
    }
  }

  lemma RunIsChronicle(m: Machine, bars: seq<Bar>, signals: seq<Act>)
    requires Numbered(bars)
    ensures IsChronicle(m, bars, signals, RunLedger(m, bars, signals).legs)
  {
    if |bars| > 0 {
      hide Machine.Turn, Machine.ExitPrice, Replayed, RunLedger, SoFar, IsChronicle, LegFor;
      var desk := Replayed(m, bars, signals, |bars|);
      SoFarHolds(m, bars, signals, |bars|);
      RunLegs(m, bars, signals);
      if desk.mind.position.None? {
        FlatCompletes(m, bars, signals, desk);
      } else {
        var p := desk.mind.position.value;
        ForcedCompletes(m, bars, signals, desk, LegFor(p, |bars| - 1, Forced, m.ExitPrice(bars[|bars| - 1].close, p.short)));
      }
    }
  }

  /** A bar on which the position is still held afterwards does not end it. */
  lemma HeldDoesNotLeave(m: Machine, bars: seq<Bar>, signals: seq<Act>, p: Position, x: nat, upTo: nat,
                         reason: Reason, price: real)
    requires 0 <= p.entryIndex <= x < upTo <= |bars| && Held(m, bars, signals, p, upTo)
    ensures !Leaves(m, bars, signals, p, x, reason, price) || reason == Forced
  {
  }

  /** Two episodes that open on the same bar are the same episode. */
  lemma SameEntrySameEpisode(m: Machine, bars: seq<Bar>, signals: seq<Act>, a: Leg, b: Leg)
    requires IsEpisode(m, bars, signals, a) && IsEpisode(m, bars, signals, b)
    requires a.entryIdx == b.entryIdx
    ensures a == b
  {
    assert a.short == b.short;
    var p := Entered(m, bars, a.entryIdx, a.short);
    if a.exitIdx < b.exitIdx {
      HeldDoesNotLeave(m, bars, signals, p, a.exitIdx, b.exitIdx, a.reason, a.exitPrice);
    } else if b.exitIdx < a.exitIdx {
      HeldDoesNotLeave(m, bars, signals, p, b.exitIdx, a.exitIdx, b.reason, b.exitPrice);
    } else {
      SameReason(m, bars, signals, p, a.exitIdx, a.reason, a.exitPrice, b.reason, b.exitPrice);
    }
  }

  /** A bar that ends a position does so for one reason at one price. */
  lemma SameReason(m: Machine, bars: seq<Bar>, signals: seq<Act>, p: Position, x: nat,
                   r1: Reason, v1: real, r2: Reason, v2: real)
    requires 0 <= p.entryIndex <= x < |bars|
    requires Leaves(m, bars, signals, p, x, r1, v1) && Leaves(m, bars, signals, p, x, r2, v2)
    ensures r1 == r2 && v1 == v2
  {
  }

  lemma FlatBetween(legs: seq<Leg>, i: nat, k: int)
    requires Ordered(legs) && i <= |legs|
    requires i > 0 ==> legs[i - 1].exitIdx < k
    requires i < |legs| ==> k < legs[i].entryIdx
    ensures FlatAt(legs, k)
  {
  }

  /** The `i`-th leg of one chronicle opens no later than any other's, and exists there. */
  lemma OpensNoLater(m: Machine, bars: seq<Bar>, signals: seq<Act>, a: seq<Leg>, b: seq<Leg>, i: nat)
    requires IsChronicle(m, bars, signals, a) && IsChronicle(m, bars, signals, b)
    requires i < |a| && i <= |b| && a[..i] == b[..i]
    ensures i < |b| && b[i].entryIdx <= a[i].entryIdx
  {
    var e := a[i].entryIdx;
    assert IsEpisode(m, bars, signals, a[i]);
    if i > 0 {
      assert b[i - 1] == b[..i][i - 1] == a[..i][i - 1] == a[i - 1];
    }
    if i == |b| || e < b[i].entryIdx {
      FlatBetween(b, i, e);
    }
  }

  lemma SameNextLeg(m: Machine, bars: seq<Bar>, signals: seq<Act>, a: seq<Leg>, b: seq<Leg>, i: nat)
    requires IsChronicle(m, bars, signals, a) && IsChronicle(m, bars, signals, b)
    requires i < |a| && i <= |b| && a[..i] == b[..i]
    ensures i < |b| && a[i] == b[i]
  {
    OpensNoLater(m, bars, signals, a, b, i);
    OpensNoLater(m, bars, signals, b, a, i);
    SameEntrySameEpisode(m, bars, signals, a[i], b[i]);
  }

  lemma PrefixGrows(a: seq<Leg>, b: seq<Leg>, i: nat)
    requires i < |a| && i < |b| && a[..i] == b[..i] && a[i] == b[i]
    ensures a[..i + 1] == b[..i + 1]
  {
  }

  /** Two chronicles of one run agree leg by leg. */
  lemma {:induction false} SameLegs(m: Machine, bars: seq<Bar>, signals: seq<Act>, a: seq<Leg>, b: seq<Leg>, i: nat)
    requires IsChronicle(m, bars, signals, a) && IsChronicle(m, bars, signals, b)
    requires i <= |a|
    ensures i <= |b| && a[..i] == b[..i]
  {
    if i > 0 {
      SameLegs(m, bars, signals, a, b, i - 1);
      SameNextLeg(m, bars, signals, a, b, i - 1);
      PrefixGrows(a, b, i - 1);
    }
  }

  /** The legs of a run are the one and only chronicle of its bars and signals. */
  lemma RunIsTheChronicle(m: Machine, bars: seq<Bar>, signals: seq<Act>, legs: seq<Leg>)
    requires Numbered(bars)
    ensures IsChronicle(m, bars, signals, legs) <==> legs == RunLedger(m, bars, signals).legs
  {
    var ours := RunLedger(m, bars, signals).legs;
    RunIsChronicle(m, bars, signals);
    if IsChronicle(m, bars, signals, legs) {
      SameLegs(m, bars, signals, legs, ours, |legs|);
      SameLegs(m, bars, signals, ours, legs, |ours|);
      assert legs == legs[..|legs|] && ours == ours[..|ours|];
    }
  }
}
