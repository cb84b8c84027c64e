/** The machine as the object the program drives: it keeps the trimmed price history and
    updates the memory and the ledger it is handed. */
module Engine {
  import opened Prelude
  import opened Sizing
  import opened Ledgers
  import opened Strategy
  import opened State
  import opened Replay

  class StrategyEngine {
    const machine: Machine
    var closedCloses: seq<real>

    constructor (machine: Machine)
      ensures this.machine == machine && closedCloses == []
    {
      this.machine, closedCloses := machine, [];
    }

    /** Record a finished bar's close; only the newest few are kept. */
    method ObserveClose(close: real)
      modifies this
      ensures closedCloses == Tail(old(closedCloses) + [close], machine.config.Keep())
    {
      closedCloses := closedCloses + [close];
      var keep := machine.config.Keep();
      if |closedCloses| > keep {
        closedCloses := closedCloses[|closedCloses| - keep..];
      }
    }

    method EntryIntent(state: StrategyState, bar: Bar, act: Act, veto: string) returns (entry: Option<Intent>)
      requires state.position.None?
      modifies state`position, state`firstWeight, state`weightSeen
      ensures (state.TheMind(), entry) == machine.EntryIntent(closedCloses, old(state.TheMind()), bar, act, veto)
    {
      var wanted := machine.Entering(act);
      if wanted.None? {
        return None;
      }
      if veto != "" {
        return Some(Skip(veto, wanted.value));
      }
      var short := wanted.value;
      var stopPct := machine.StopInForce(closedCloses);
      var weight := machine.config.DeployWeightFor(stopPct);
      if !state.weightSeen {
        state.firstWeight := weight;
        state.weightSeen := true;
      }
      var entryPx := machine.EntryPrice(bar.open, short);
      var (stop, take) := machine.Levels(entryPx, short);
      state.position := Some(Position(bar.index, entryPx, bar.open, short, stop, take, weight, stopPct));
      return Some(Open(short, entryPx, stop, take, weight, stopPct));
    }

    method Step(state: StrategyState, bar: Bar, act: Act, veto: string) returns (intents: seq<Intent>)
      modifies state`position, state`firstWeight, state`weightSeen
      ensures (state.TheMind(), intents) == machine.Step(closedCloses, old(state.TheMind()), bar, act, veto)
    {
      var first: Option<Intent> := None;
      if state.position.None? {
        first := EntryIntent(state, bar, act, veto);
      } else {
        var p := state.position.value;
        if Opposes(act, p.short) {
          first := Some(machine.CloseAt(p, bar.open, Signal, None));
        }
      }
      intents := if first.Some? then [first.value] else [];
      if state.position.Some? {
        var hit := machine.LevelHit(state.position.value, bar);
        if hit.Some? {
          var (level, reason) := hit.value;
          intents := intents + [machine.CloseAt(state.position.value, level, reason, Some(level))];
        }
      }
    }

    /** Book an intent as a fill. A close finds nothing to book when an earlier intent of
        the same bar already settled the position. */
    method Settle(ledger: Ledger, state: StrategyState, bar: Bar, intent: Intent, exitPrice: Option<real>)
      requires ledger.Valid()
      modifies ledger, ledger.barReturns, ledger.active, state`position
      ensures ledger.Valid()
      ensures Desk(state.TheMind(), ledger.Value())
              == machine.Settle(ledger.opens, old(Desk(state.TheMind(), ledger.Value())), bar, intent, exitPrice)
    {
      match intent {
        case Skip(why, short) =>
          ledger.RecordSkip(bar.index, short, why);
        case Open(_, _, _, _, _, _) =>
        case Close(reason, _, expected, _, _, _) =>
          if state.position.None? {
            return;
          }
          var p := state.position.value;
          var price := if exitPrice.Some? then exitPrice.value else expected;
          ledger.Book(machine.BookingFor(p, bar, reason, price));
          state.position := None;
      }
    }

    /** Settle a bar's intents in the order they were decided. */
    method SettleAll(ledger: Ledger, state: StrategyState, bar: Bar, intents: seq<Intent>)
      requires ledger.Valid()
      modifies ledger, ledger.barReturns, ledger.active, state`position
      ensures ledger.Valid()
      ensures Desk(state.TheMind(), ledger.Value())
              == machine.SettleAll(ledger.opens, old(Desk(state.TheMind(), ledger.Value())), bar, intents)
    {
      for i := 0 to |intents|
        invariant ledger.Valid()
        invariant Desk(state.TheMind(), ledger.Value())
                  == machine.SettleAll(ledger.opens, old(Desk(state.TheMind(), ledger.Value())), bar, intents[..i])
      {
        Settle(ledger, state, bar, intents[i], None);
        assert intents[..i + 1][..i] == intents[..i];
      }
      assert intents[..|intents|] == intents;
    }

    /** One turn of the replay loop: observe the bar that closed, decide, settle. */
    method ReplayBar(ledger: Ledger, state: StrategyState, signals: seq<Act>, bars: seq<Bar>, k: nat)
      requires 1 <= k < |bars|
      requires ledger.Valid() && ledger.opens == Opens(bars)
      requires closedCloses == HistoryAt(machine, bars, k - 1)
      requires Desk(state.TheMind(), ledger.Value()) == Replayed(machine, bars, signals, k)
      modifies this, ledger, ledger.barReturns, ledger.active, state
      ensures ledger.Valid()
      ensures closedCloses == HistoryAt(machine, bars, k)
      ensures Desk(state.TheMind(), ledger.Value()) == Replayed(machine, bars, signals, k + 1)
    {
      HistoryGrows(machine, bars, k);
      ObserveClose(bars[k - 1].close);
      state.barIndex := k;
      var intents := Step(state, bars[k], SignalFor(signals, k), "");
      SettleAll(ledger, state, bars[k], intents);
    }

    /** Replay signals over bars. Bar `k` carries the fill of the signal on bar `k - 1`. */
    method Run(signals: seq<Act>, bars: seq<Bar>) returns (ledger: Ledger)
      modifies this
      ensures fresh(ledger) && ledger.Valid() && ledger.opens == Opens(bars)
      ensures ledger.Value() == RunLedger(machine, bars, signals)
    {
      var n := |bars|;
      if n == 0 {
        ledger := new Ledger([]);
        assert Opens(bars) == [];
        return;
      }
      closedCloses := [];
      ledger := new Ledger(Opens(bars));
      var state := new StrategyState();
      var k := 1;
      while k < n
        invariant 1 <= k <= n
        invariant fresh(ledger) && fresh(ledger.barReturns) && fresh(ledger.active) && fresh(state)
        invariant ledger.Valid() && ledger.opens == Opens(bars)
        invariant closedCloses == HistoryAt(machine, bars, k - 1)
        invariant Desk(state.TheMind(), ledger.Value()) == Replayed(machine, bars, signals, k)
      {
        ReplayBar(ledger, state, signals, bars, k);
        k := k + 1;
      }
      if state.position.Some? {
        var p := state.position.value;
        ledger.Book(ForcedBooking(machine, bars, p));
        state.position := None;
      }
    }
  }
}
