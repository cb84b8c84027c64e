/** The batch replay as a function (`StrategyEngine.run`, src/strategy/engine.py:288-332). */
module Replay {
  import opened Prelude
  import opened Sizing
  import opened Ledgers
  import opened Strategy

  function Opens(bars: seq<Bar>): (opens: seq<real>)
    ensures |opens| == |bars|
    ensures forall k :: 0 <= k < |bars| ==> opens[k] == bars[k].open
  {
    seq(|bars|, k requires 0 <= k < |bars| => bars[k].open)
  }

  function Closes(bars: seq<Bar>): (closes: seq<real>)
    ensures |closes| == |bars|
    ensures forall k :: 0 <= k < |bars| ==> closes[k] == bars[k].close
  {
    seq(|bars|, k requires 0 <= k < |bars| => bars[k].close)
  }

  /** The signal bar `k` acts on: the previous bar's, or nothing past the end. */
  function SignalFor(signals: seq<Act>, k: nat): Act {
    if 1 <= k <= |signals| then signals[k - 1] else Hold
  }

  /** The closes the machine may size against when bar `k` starts. */
  function HistoryAt(m: Machine, bars: seq<Bar>, k: nat): seq<real>
    requires k <= |bars|
  {
    Tail(Closes(bars[..k]), m.config.Keep())
  }

  lemma HistoryGrows(m: Machine, bars: seq<Bar>, k: nat)
    requires 1 <= k <= |bars|
    ensures HistoryAt(m, bars, k) == Tail(HistoryAt(m, bars, k - 1) + [bars[k - 1].close], m.config.Keep())
  {
    assert Closes(bars[..k]) == Closes(bars[..k - 1]) + [bars[k - 1].close];
    TailOfTail(Closes(bars[..k - 1]), bars[k - 1].close, m.config.Keep());
  }

  /** Memory and ledger after the bars before `k` have been decided and settled. */
  function Replayed(m: Machine, bars: seq<Bar>, signals: seq<Act>, k: nat): (desk: Desk)
    requires 1 <= k <= |bars|
    ensures Fits(Opens(bars), desk.acct)
  {
    if k == 1 then Desk(FRESH_MIND, EmptyAccount(|bars|))
    else m.Turn(Opens(bars), HistoryAt(m, bars, k - 1), Replayed(m, bars, signals, k - 1),
                bars[k - 1], SignalFor(signals, k - 1))
  }

  /** A position still open at the end of the data is closed at the final close. */
  function ForcedBooking(m: Machine, bars: seq<Bar>, p: Position): Booking
    requires |bars| > 0
  {
    var n := |bars|;
    Booking(p.entryIndex, n - 2, n - 1, p.short, p.entryPrice,
            m.ExitPrice(bars[n - 1].close, p.short), p.weight, Forced, p.stopPct, None)
  }

  /** The ledger a whole run leaves behind. */
  function RunLedger(m: Machine, bars: seq<Bar>, signals: seq<Act>): (acct: Account)
    ensures Fits(Opens(bars), acct)
  {
    if |bars| == 0 then EmptyAccount(0)
    else
      var desk := Replayed(m, bars, signals, |bars|);
      match desk.mind.position
      case None => desk.acct
      case Some(p) => Booked(Opens(bars), desk.acct, ForcedBooking(m, bars, p))
  }

  /** Bars numbered by their place in the series, as every caller of `run` builds them. */
  predicate Numbered(bars: seq<Bar>) {
    forall k :: 0 <= k < |bars| ==> bars[k].index == k
  }

  /** Prices a market can have; a fill never costs the whole price. */
  predicate Priced(m: Machine, bars: seq<Bar>) {
    && 0.0 <= m.config.Cost() < 1.0
    && forall k :: 0 <= k < |bars| ==>
         && bars[k].open > 0.0 && bars[k].close > 0.0
         && (bars[k].high.Some? ==> bars[k].high.value > 0.0)
         && (bars[k].low.Some? ==> bars[k].low.value > 0.0)
  }
}
