/** Fills in, returns and trade rows out (`Ledger`, src/strategy/engine.py:372-494). */
module Ledgers {
  import opened Prelude

  /** Why a position ended. */
  datatype Reason = Stop | Take | Signal | Forced

  /** One fill to account for: the arguments of `Ledger.book`. */
  datatype Booking = Booking(
    entryBar: int, lastBar: int, exitIdx: int, short: bool,
    entryPx: real, exitPx: real, weight: real, reason: Reason,
    stopPct: Option<real>, rawEntryPx: Option<real>)

  /** A row of the trade log; a refused entry is a row too. */
  datatype Leg =
    | Trade(
        entryIdx: int, exitIdx: int, short: bool,
        entryPrice: real, exitPrice: real, rawEntryPrice: real,
        ret: real, equityRet: real, weight: real,
        reason: Reason, stopPercent: Option<real>)
    | Skipped(index: int, skipShort: bool, why: string)
  {
    /** The last bar whose return belongs to this leg: a level fills inside its bar,
        every other exit at the open (or the end) of the one after. */
    function LastBar(): int
      requires Trade?
    {
      if reason == Stop || reason == Take then exitIdx else exitIdx - 1
    }
  }

  /** What the ledger holds, as a value. */
  datatype Account = Account(barReturns: seq<real>, active: seq<bool>, legs: seq<Leg>, weight: real)

  function EmptyAccount(n: nat): Account {
    var slots := if n == 0 then 0 else n - 1;
    Account(seq(slots, _ => 0.0), seq(slots, _ => false), [], 1.0)
  }

  function PriceReturn(short: bool, entry: real, exit: real): real {
    if short then Ratio(entry, exit) - 1.0 else Ratio(exit, entry) - 1.0
  }

  predicate Covers(b: Booking, k: int) {
    0 <= b.entryBar <= k <= b.lastBar
  }

  /** The return of bar `k` inside a leg: from the entry price or the bar's own open, to
      the exit price or the next bar's open. */
  function BarReturn(opens: seq<real>, b: Booking, k: int): real
    requires 0 <= k < |opens| - 1
  {
    PriceReturn(b.short,
                if k == b.entryBar then b.entryPx else opens[k],
                if k == b.lastBar then b.exitPx else opens[k + 1])
  }

  function LegOf(opens: seq<real>, b: Booking): Leg {
    var ret := PriceReturn(b.short, b.entryPx, b.exitPx);
    Trade(b.entryBar, b.exitIdx, b.short, b.entryPx, b.exitPx,
          if b.rawEntryPx.Some? then b.rawEntryPx.value
          else if 0 <= b.entryBar < |opens| then opens[b.entryBar] else b.entryPx,
          ret, ret * b.weight, b.weight, b.reason, b.stopPct)
  }

  predicate Fits(opens: seq<real>, acct: Account) {
    |acct.active| == |acct.barReturns| == if |opens| == 0 then 0 else |opens| - 1
  }

  function Booked(opens: seq<real>, acct: Account, b: Booking): (r: Account)
    requires Fits(opens, acct)
    ensures Fits(opens, r)
  {
    Account(
      seq(|acct.barReturns|, k requires 0 <= k < |acct.barReturns| && Fits(opens, acct) =>
        if Covers(b, k) then b.weight * BarReturn(opens, b, k) else acct.barReturns[k]),
      seq(|acct.active|, k requires 0 <= k < |acct.active| => Covers(b, k) || acct.active[k]),
      acct.legs + [LegOf(opens, b)],
      if b.weight != 1.0 && acct.weight == 1.0 then b.weight else acct.weight)
  }

  /** Booking writes the covered slots and leaves every other one alone. */
  lemma BookedAt(opens: seq<real>, acct: Account, b: Booking, k: int)
    requires Fits(opens, acct) && 0 <= k < |acct.barReturns|
    ensures Booked(opens, acct, b).barReturns[k]
            == if Covers(b, k) then b.weight * BarReturn(opens, b, k) else acct.barReturns[k]
    ensures Booked(opens, acct, b).active[k] == (Covers(b, k) || acct.active[k])
  {
  }

  function Refused(acct: Account, index: int, short: bool, why: string): Account {
    acct.(legs := acct.legs + [Skipped(index, short, why)])
  }

  // -- the counters of the report -----------------------------------------

  datatype Counters = Counters(stops: nat, takes: nat, signals: nat, forced: nat, skips: nat, inPosition: nat)

  function Exits(legs: seq<Leg>, reason: Reason): nat {
    if |legs| == 0 then 0
    else
      var last := legs[|legs| - 1];
      Exits(legs[..|legs| - 1], reason) + if last.Trade? && last.reason == reason then 1 else 0
  }

  function Trades(legs: seq<Leg>): seq<Leg> {
    if |legs| == 0 then []
    else
      var last := legs[|legs| - 1];
      Trades(legs[..|legs| - 1]) + if last.Trade? then [last] else []
  }

  function CountTrue(flags: seq<bool>): nat {
    if |flags| == 0 then 0
    else CountTrue(flags[..|flags| - 1]) + if flags[|flags| - 1] then 1 else 0
  }

  /** Every traded leg is counted under exactly one exit, and every leg is either
      traded or skipped. */
  lemma {:induction false} ExitsPartitionTrades(legs: seq<Leg>)
    ensures |Trades(legs)| == Exits(legs, Stop) + Exits(legs, Take) + Exits(legs, Signal) + Exits(legs, Forced)
    ensures |Trades(legs)| <= |legs|
  {
    if |legs| > 0 {
      ExitsPartitionTrades(legs[..|legs| - 1]);
    }
  }

  /** Where the booking loop stops, it has written exactly the covered slots. */
  lemma WrittenIsCovered(b: Booking, stop: int, slots: nat)
    requires b.entryBar <= stop
    requires stop == b.entryBar || (0 <= b.entryBar && stop <= b.lastBar + 1 && stop <= slots)
    requires !(stop <= b.lastBar && 0 <= stop < slots)
    ensures forall j :: 0 <= j < slots ==> (Covers(b, j) <==> b.entryBar <= j < stop)
  {
  }

  /** The accounting object. `returns` and `active` are written in place. */
  class Ledger {
    const opens: seq<real>
    const barReturns: array<real>
    const active: array<bool>
    var legs: seq<Leg>
    var weight: real

    ghost predicate Valid()
      reads this
    {
      barReturns.Length == active.Length == if |opens| == 0 then 0 else |opens| - 1
    }

    ghost function Value(): Account
      reads this, barReturns, active
    {
      Account(barReturns[..], active[..], legs, weight)
    }

    constructor (opens: seq<real>)
      ensures Valid() && fresh(barReturns) && fresh(active)
      ensures this.opens == opens && Value() == EmptyAccount(|opens|)
    {
      var slots := if |opens| == 0 then 0 else |opens| - 1;
      var r := new real[slots](_ => 0.0);
      var a := new bool[slots](_ => false);
      this.opens, barReturns, active := opens, r, a;
      legs, weight := [], 1.0;
      new;
      assert barReturns[..] == EmptyAccount(|opens|).barReturns;
      assert active[..] == EmptyAccount(|opens|).active;
    }

    /** The loop of `Book`: it stops at the first bar that has no slot. */
    method WriteReturns(b: Booking, ghost after: Account)
      requires Valid() && after == Booked(opens, Value(), b)
      modifies barReturns, active
      ensures barReturns[..] == after.barReturns && active[..] == after.active
    {
      hide PriceReturn;
      ghost var before := Value();
      var k := b.entryBar;
      while k <= b.lastBar && 0 <= k < barReturns.Length
        invariant b.entryBar <= k
        invariant k == b.entryBar || (0 <= b.entryBar && k <= b.lastBar + 1 && k <= barReturns.Length)
        invariant forall j :: 0 <= j < barReturns.Length ==>
          barReturns[j] == if b.entryBar <= j < k then after.barReturns[j] else before.barReturns[j]
        invariant forall j :: 0 <= j < active.Length ==>
          active[j] == if b.entryBar <= j < k then after.active[j] else before.active[j]
      {
        hide PriceReturn, Booked;
        var den := if k == b.entryBar then b.entryPx else opens[k];
        var num := if k == b.lastBar then b.exitPx else opens[k + 1];
        var slot := b.weight * PriceReturn(b.short, den, num);
        assert slot == after.barReturns[k] && after.active[k] by {
          BookedAt(opens, before, b, k);
        }
        barReturns[k] := slot;
        active[k] := true;
        k := k + 1;
      }
      WrittenIsCovered(b, k, barReturns.Length);
      forall j | 0 <= j < barReturns.Length
        ensures barReturns[j] == after.barReturns[j] && active[j] == after.active[j]
      {
        BookedAt(opens, before, b, j);
      }
    }

    /** Write the leg's bar returns and append its row. */
    method Book(b: Booking)
      requires Valid()
      modifies this, barReturns, active
      ensures Valid()
      ensures Value() == Booked(opens, old(Value()), b)
    {
      WriteReturns(b, Booked(opens, Value(), b));
      legs := legs + [LegOf(opens, b)];
      if b.weight != 1.0 && weight == 1.0 {
        weight := b.weight;
      }
    }

    method RecordSkip(index: int, short: bool, why: string)
      requires Valid()
      modifies this
      ensures Valid() && Value() == Refused(old(Value()), index, short, why)
    {
      legs := legs + [Skipped(index, short, why)];
    }

    method Stats() returns (s: Counters)
      requires Valid()
      ensures s.stops == Exits(legs, Stop) && s.takes == Exits(legs, Take)
      ensures s.signals == Exits(legs, Signal) && s.forced == Exits(legs, Forced)
      ensures s.stops + s.takes + s.signals + s.forced == |Trades(legs)|
      ensures s.skips == |legs| - |Trades(legs)|
      ensures s.inPosition == CountTrue(active[..])
    {
      var stops, takes, signals, forced, skips := 0, 0, 0, 0, 0;
      for i := 0 to |legs|
        invariant stops == Exits(legs[..i], Stop) && takes == Exits(legs[..i], Take)
        invariant signals == Exits(legs[..i], Signal) && forced == Exits(legs[..i], Forced)
        invariant skips == i - |Trades(legs[..i])|
      {
        assert legs[..i + 1][..i] == legs[..i];
        match legs[i] {
          case Skipped(_, _, _) => skips := skips + 1;
          case Trade(_, _, _, _, _, _, _, _, _, reason, _) =>
            match reason {
              case Stop => stops := stops + 1;
              case Take => takes := takes + 1;
              case Signal => signals := signals + 1;
              case Forced => forced := forced + 1;
            }
        }
      }
      assert legs[..|legs|] == legs;
      ExitsPartitionTrades(legs);
      var held := 0;
      for k := 0 to active.Length
        invariant held == CountTrue(active[..k])
      {
        assert active[..k + 1][..k] == active[..k];
        if active[k] {
          held := held + 1;
        }
      }
      assert active[..active.Length] == active[..];
      s := Counters(stops, takes, signals, forced, skips, held);
    }
  }
}
