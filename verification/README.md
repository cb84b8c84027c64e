# A verified model of the trading loop

The repository replays trading signals over past bars and then trades the same rules live.
Its promises span the two: the replay and the live driver make the same trades, a crash never
buys twice, a bar is decided once, one process trades at a time, and the numbers a report
shows compound to the equity curve. This project models the code behind those promises and
proves them.

`dafny verify dfyconfig.toml` checks everything. There is one module per file.

## How it is laid out

* **The strategy machine.** `Strategy.Machine` holds the decision rules as functions over one
  bar (`Step`, `Settle`, `Turn`); `Sizing` is the configuration and the size of an entry;
  `Ledgers` is the booking of a trade; `State` is what survives a restart and the document it is
  saved as. The objects the program mutates are classes: `Engine.StrategyEngine`,
  `Ledgers.Ledger`, `State.StrategyState`. Their methods are proved equal to the functions, and
  `Engine.StrategyEngine.Run` to the whole replay, `Replay.RunLedger`.
* **What a replay is.** `Chronicle` defines, without running anything, when a list of legs is the
  right one for given bars and signals, and shows that the replay produces it and that it is
  the only one. `TradeRules` says the same once more in the words of the settings — percentages,
  costs, caps — without naming any part of the machine. `Lookahead`, `Returns`, `Equity`, `RawMode`, `RiskBound` and `Backtest` build on
  that.
* **The live driver.** `Brokers` is the seam to a broker: a state and five operations on it.
  `Live.Driver` is one tick as a function, together with the trail of states a crash could leave
  behind; `LiveDriving.LiveDriver` is the class that does it step by step. `Parity` and `Restarts`
  compare it with the replay on the simulated broker. `CrashSafety` and `Recovery` run it against
  any broker that obeys stated rules; `LiveWrites` says what each step of a tick leaves behind,
  `LiveLegs` what the legs it books then mean, `PricesPaid` that what is remembered is what was
  paid; and `Alpaca` shows that the adapter the program uses, on an account that fills or rejects at once,
  obeys those rules.
* **Time and the process.** `BarGrid` is the two searches over sessions and weekends, `Loop` the
  gates of a tick, the wait, and the one-decision-per-bar guarantee, `Leases` the claim that keeps
  a second process out.
* **Around it.** `Retry` (one order over a lossy channel), `Gaps` and `MissingBars` (holes in a
  stored file), `Periods` (monthly and yearly returns).

Prices, weights and returns are exact reals. Instants are whole microseconds of exchange-local
wall clock with day 0 a Monday (seconds in `Leases`). A missing optional value is `None`; an
exception is an `Option` or an outcome.

## Where the code and its own description differ

The model follows the code.

* A comment in `step` (src/strategy/engine.py:167-169) says the level check skips a position the
  signal exit has just closed. It does not: the position is still there until `settle`, so one bar
  can produce two closes. `Returns.TwoClosesOneLeg` says exactly when, and that they book one leg.
* The loop-state module (src/config/loop_state.py:30-32) says a recycled pid keeps a lease until it
  expires. The code keeps it for as long as that pid is alive (lines 244-246):
  `Leases.RecycledPidOutlivesExpiry` is such a run.
* `next_bar_boundary` says it returns nothing only for a bar size it cannot read
  (src/data/dataset.py:249). It also returns nothing when the session does not open before it
  closes: `BarGrid.Grid.NextBarBoundary` states both.
* `_missing_bar_rows` says blocking rows are never truncated (src/data/delta.py:630-632). They are
  when there are more than 500 of them: `MissingBars.Report` states the condition, both ways.
* A stored first weight of 0 is read back as 1 (src/strategy/state.py:109), and a corrupt position
  that is neither empty nor an object raises instead of giving the flat state:
  `State.RoundTripExactly` and `State.LoadsExactly`.
* The loop builds a driver for every tick (src/scheduler/orchestrator.py:473), so the closes a
  volatility-sized entry needs are gone at each tick. The trades stay the backtest's own
  (`Restarts.RestartedTradesInEveryMode`); their size need not. `Restarts.RestartParityExactly` says
  exactly when the size is the same too, `Restarts.RestartForgetsVolatility` gives a case where it is
  not.
* The driver's description says that live, stops and targets belong to the broker's resting orders
  and not to an assumption about the bar (src/strategy/live.py:436-439). But the loop hands it no
  next bar, so `step` prices an entry at the open of the bar that signalled it and tests its levels
  against that bar's own range; one tick can then buy and close at once.
  `LiveLegs.EntryIsTestedAgainstItsSignalBar` says exactly when, `LiveLegs.BoughtAndStoppedAtOnce`
  is such a tick.
* A close is booked whatever the broker answers (src/strategy/live.py:611-613). When it was not
  filled, the leg is no exit, the position is taken on again at the next tick, and it can be booked
  a second time: `LiveLegs.DecisionBooks` and `LiveLegs.UnfilledCloseComesBack`.
* Taking on a position nobody remembers is described as the way out of that drift. Without a
  reported entry price there is none: every tick refuses until somebody closes the position.
  `Alpaca.UnpricedPositionWedges` says that this is the only such case.

* The broker module says the protection of an entry lives at the broker even if the program dies
  (src/execution/alpaca_broker.py:20-22). A close cancels the exits before it is known whether it
  fills. One that does not fill leaves the position with nothing resting; it is taken on again, but
  moving exits never places one: `Alpaca.UnfilledCloseStripsTheExits`.

## Model

| member | source | states |
|---|---|---|
| Sizing.StrategyConfig.DeployWeightFor | src/strategy/config.py:79-101 | An entry never deploys more than the exposure cap (all of the account where unset, clamped otherwise); without a risk limit or a stop it deploys exactly the cap; with both it risks exactly the limit at its stop distance, unless the cap comes first |
| Sizing.VolatilityIsMeasured | src/risk/position_sizing.py:97-115 | On positive closes it is measured exactly when two returns can be taken, from the newest period of relative changes from close to close |
| Sizing.VarianceByMoments | src/risk/position_sizing.py:110-115 | The sample variance is what the two sums of the returns give, without the mean |
| Sizing.TrimmedWindowExactly | src/risk/position_sizing.py:97-115 | The trimmed price buffer selects the same volatility window as every close ever seen exactly when the period is too short to measure, or there are too few positive closes, or the buffer still holds enough of them |
| Sizing.TrimmedHistorySuffices | src/strategy/engine.py:135-140 | With positive closes the buffer of period + 2 closes sizes exactly like the full history, whatever stands for the square root |
| TradeRules.BufferSizesLikeAllCloses | src/strategy/engine.py:135-140 | With positive closes, the stop distance an entry of a run is sized by is the one all the closes before it give |
| Strategy.Machine.OpenIsFirst | src/strategy/engine.py:143-175 | A bar yields at most two intents; an open is always the first, only from flat; a second one is a stop or a take; deciding changes nothing of a position already held, and a position appears only with an open |
| Strategy.Machine.TurnIsJudged | src/strategy/engine.py:143-175 | Deciding and settling a bar comes to one verdict (stay, enter, leave) even when two intents were produced |
| Ledgers.Ledger.Book | src/strategy/engine.py:386-441 | The loop writes exactly the slots the leg covers, stops at the end of the series, appends one row, and remembers the first weight that is not 1 |
| Ledgers.Ledger.Stats | src/strategy/engine.py:475-494 | The four exit counters add up to the trades, skips are the rest, and the bars in position are counted from the active flags |
| Ledgers.ExitsPartitionTrades | src/strategy/engine.py:475-494 | Every traded leg is counted under exactly one exit |
| State.RoundTripExactly | src/strategy/state.py:84-118 | Saving and loading gives back the same memory exactly when the first weight is not zero and the note of an unfilled entry is not empty |
| State.Restored | src/strategy/state.py:84-118 | What any save and load gives back, field by field |
| State.LoadsExactly | src/strategy/state.py:95-118 | Loading fails on a document exactly when its position is truthy and not an object |
| State.ReadsAnOlderFile | src/strategy/state.py:51-118 | A file without raw price or weight, and with the note under its former name, reads as the entry price, the whole account and that note |
| Engine.StrategyEngine.ObserveClose | src/strategy/engine.py:135-140 | The buffer becomes the newest period + 2 closes of itself and the new one |
| Engine.StrategyEngine.EntryIntent | src/strategy/engine.py:177-232 | A vetoed entry changes nothing; an accepted one creates the position and remembers the first weight once |
| Engine.StrategyEngine.Step | src/strategy/engine.py:143-175 | The object decides a bar as the machine's functions do |
| Engine.StrategyEngine.Settle | src/strategy/engine.py:335-369 | A close books the position at the fill price and clears it; a second close of the same bar finds nothing |
| Engine.StrategyEngine.Run | src/strategy/engine.py:288-332 | The mutable replay loop, with its in-place arrays, leaves exactly the ledger the specification describes |
| Chronicle.RunIsTheChronicle | src/strategy/engine.py:288-332 | A list of legs is what a run books if and only if it is a chronicle: every entry is a signal acted on while flat at the next open, every leg is held until the first bar that ends it, signal before stop before take, nothing overlaps and no signal is passed over |
| Chronicle.RunIsChronicle | src/strategy/engine.py:288-369 | Every run satisfies that description |
| TradeRules.RunFollowsTheRules | src/strategy/engine.py:143-332 | A list of legs is what a run books if and only if each is a trade by the rules and no signal is passed over: opened at the open after a signal plus costs, at the size the settings give, behind a stop on the losing side and a take on the winning side at their percentages; held while no signal turns and no bar reaches either; ended by the turning signal at the open, else by the stop, else by the take, else at the final close |
| TradeRules.StopComesFirst | src/strategy/engine.py:255-269 | With a 2% stop and a 4% take from 100, a bar that reaches 105 and falls to 95 is booked by every run as a stop, at 98 for a long and 102 for a short |
| TradeRules.LevelsAreOnTheirSides | src/strategy/engine.py:272-285 | A long's stop is below and its take above the entry, a short's the other way round, each by its own percentage |
| TradeRules.EveryLegIsTheLargestAllowed | src/risk/position_sizing.py:82-94 | No leg of any run deploys more than the exposure cap, and one with a risk limit and a stop distance deploys the most both allow |
| Lookahead.NoLookahead | src/strategy/engine.py:288-332 | Runs over two histories that agree before a bar have closed the same positions before it, in every sizing mode |
| Lookahead.PrefixRunAgrees | src/strategy/engine.py:288-332 | A run on the first k bars has closed before its end exactly what the full run had closed before bar k |
| Lookahead.EntrySeesOnlyTheOpen | src/strategy/engine.py:177-232 | The decision to enter, its price, size and levels depend on nothing of the bar but its index and open |
| Returns.Footprint | src/strategy/engine.py:386-441 | A slot is active exactly when a leg owns it, holds the weighted return of that one leg on that bar, and is zero otherwise |
| Returns.OneLegPerPosition | src/strategy/engine.py:335-369 | Every position opened becomes exactly one trade, trades do not overlap, and the exit counters add up to the positions opened |
| Returns.TwoClosesOneLeg | src/strategy/engine.py:163-175 | Exactly when one bar decides two closes, and that together they book one leg, the signal's |
| Returns.TwoClosesHappen | src/strategy/engine.py:163-175 | A run of three bars in which a bar decides a signal close and a stop, and books the signal close alone |
| Equity.Telescopes | src/strategy/engine.py:407-417 | The slots of a leg the series holds in full, divided by its weight, compound to one plus the trade's return, long or short |
| Equity.EquityIsProductKept | src/backtest/metrics.py:92-99 | When every position deploys the whole account, final equity is the product of what the series keeps of each leg |
| RawMode.RawRunIsFold | src/backtest/engine.py:422-451 | Without risk settings the legs are a simple fold over the signals |
| RawMode.RawIsPriceIndependent | src/backtest/engine.py:422-451 | Two raw runs over the same signals trade the same bars and directions on any prices and costs |
| RawMode.RawEquity | src/backtest/metrics.py:92-99 | The product of a raw run's trades is its final equity times the one trade, if any, entered on the last bar |
| RawMode.RawEquityExactly | src/backtest/metrics.py:92-99 | The two are equal exactly when no trade was entered on the last bar or that trade neither won nor lost |
| RiskBound.StopCostsAtMostTheRisk | src/strategy/config.py:63-101 | In any fixed-risk run a stopped trade, long or short, costs at most the risk limit plus the cost of what was deployed, and every weight is a fraction |
| RiskBound.StoppedReturnBound | src/strategy/engine.py:255-285 | The return of a stopped trade is never worse than the stop distance plus the cost |
| Backtest.ApplyRiskLayer | src/backtest/risk_sim.py:66-107 | The array adapter runs the machine on the bars of its lists, with the run's costs and either side's permission to short |
| Backtest.AdapterReadsTheLists | src/backtest/risk_sim.py:84-100 | Each bar reads its own place of every list, a short or missing list of highs or lows leaving the bar without; only costs and the permission to short are the run's; and the legs are those the rules call for on these bars |
| Backtest.SimulateFrame | src/backtest/engine.py:65-93 | The simulation's returns, active flags and trades are the raw replay's, and its intervals are the fold of the signals; fewer than two bars give nothing |
| Backtest.PositionIntervals | src/backtest/engine.py:422-451 | On made-up prices it returns the same intervals, a position still open reported as ending at n |
| Backtest.EquityCurve | src/backtest/metrics.py:92-99 | Each point compounds the returns up to it |
| Backtest.MaxDrawdown | src/backtest/metrics.py:34-45 | The largest drop below the running peak: an upper bound that is attained |
| Backtest.NoDropIsLarger | src/backtest/metrics.py:34-45 | No drop from an earlier positive point to a later point that is not below zero exceeds it, peak or not |
| Brokers.SimulatedBroker.Submit | src/strategy/broker.py:194-221 | The simulated broker fills everything at the expected price and flips its signed quantity |
| LiveDriving.LiveDriver.OnBarClosed | src/strategy/live.py:431-531 | The driver's step-by-step tick, its writes to memory, ledger, state file and broker, is the tick function |
| LiveDriving.LiveDriver.Reconcile | src/strategy/live.py:373-407 | The three mismatches between memory and broker |
| LiveDriving.LiveDriver.AdoptBrokerExit | src/strategy/live.py:189-243 | An exit proved by the broker is booked at its price and saved, and only then |
| LiveDriving.LiveDriver.AdoptBrokerPosition | src/strategy/live.py:245-323 | A position only the broker knows is taken on with the broker's levels, or the configured ones where it has none |
| LiveDriving.LiveDriver.DropNeverOpenedPosition | src/strategy/live.py:325-371 | A position whose entry is on record as rejected is forgotten |
| LiveDriving.LiveDriver.ActOn | src/strategy/live.py:537-626 | One intent submitted under its id, and what is recorded for every answer |
| LiveWrites.FilledEntryLeaves | src/strategy/live.py:554-607 | Over any broker, an entry filled at x is remembered at x with both levels measured from x, direction, size and raw price as decided; exactly those levels go to the broker's exits; both broker states survive a crash and nothing else changes |
| LiveWrites.PendingEntryLeaves | src/strategy/live.py:580-588 | An entry accepted and not filled keeps the position as decided and a note of bar, status and words that never reads as a refusal |
| LiveWrites.RefusedEntryLeaves | src/strategy/live.py:566-588 | A refused entry leaves neither position nor note, and nothing more is sent |
| LiveWrites.CloseLeaves | src/strategy/live.py:611-625 | A close is booked at what the broker got, or else at the price expected, and leaves neither position nor note |
| LiveWrites.NothingIsSent | src/strategy/live.py:539-550 | A close that finds nothing held and a skipped entry reach no broker |
| LiveWrites.ExitIsAdopted | src/strategy/live.py:202-226 | When exactly a broker's own exit is booked, at which price and reason, and that it is saved |
| LiveWrites.PositionIsAdopted | src/strategy/live.py:268-301 | When exactly a broker's position is taken on: at its price and direction, each level its own where one rests and otherwise measured from that price, at the first weight used |
| LiveWrites.NeverOpenedIsDropped | src/strategy/live.py:343-358 | A position goes without a trade exactly when its entry is on record as rejected and the broker is flat |
| LiveWrites.OrdersAreNamed | src/strategy/live.py:501-509 | At most two intents, acted on in order, each under the bar's key and its own place |
| LiveWrites.OneWriteAtATime | src/strategy/live.py:431-531 | A tick changes the file or the broker, never both at once; what crashes can leave is every state between, and the last is how it ends; a decision ends by saving its own memory, under the next bar number and the bar's key; a tick with nothing to decide writes nothing |
| LiveWrites.HaltStopsOnlyEntries | src/strategy/engine.py:188-195 | A halt turns a wanted entry into a skipped row with the reason, and changes nothing else a bar decides |
| LiveWrites.HaltedRunBuysNothing | src/scheduler/orchestrator.py:464-482 | While every tick is under a halt no entry is ever filled, through crashes, restarts, lost files and outside changes |
| Parity.LiveTradesTheBacktest | src/strategy/live.py:431-531 | In every sizing mode a driver fed each closed bar on the simulated broker has booked exactly the backtest's legs that the market ended, holds the same open position, and its broker holds the same |
| Parity.TickMirrorsTurn | src/strategy/live.py:431-531 | One tick is one turn of the replay |
| Restarts.SizingKeepsEveryTrade | src/strategy/engine.py:199-232 | Whatever the sizing mode, the fixed-risk run makes the same trades, equal in bars, direction, prices, reason and return, and each is of the size the configured stop gives |
| Restarts.RestartedTradesInEveryMode | src/scheduler/orchestrator.py:473 | In every sizing mode, a driver rebuilt from its saved state before every tick makes the backtest's trades, and its broker holds what it remembers |
| Restarts.RestartedTradesTheBacktest | src/strategy/state.py:84-118 | In fixed-risk mode, or without a stop, it makes them at the same size too |
| Restarts.RestartedTradesUnsized | src/strategy/live.py:178-187 | In every mode, a driver rebuilt before every tick trades the fixed-risk backtest |
| Restarts.RestartParityExactly | src/strategy/engine.py:199-216 | The sizes agree as well exactly when, on every bar the fixed-risk run enters, the closes seen by then leave the configured stop in force |
| Restarts.RestartForgetsVolatility | src/strategy/engine.py:199-216 | Five flat bars on which the two differ |
| CrashSafety.EntriesAreSafe | src/strategy/live.py:474-531 | In every run of ticks, crashes after any write, restarts, lost or replaced state files and outside changes to the account, every filled entry was filled from flat and no bar has two |
| CrashSafety.RefusesExactly | src/strategy/live.py:373-407 | Exactly when a tick refuses to trade, for every broker |
| Recovery.TickRecovers | src/strategy/live.py:189-407 | From a state file the account can answer for, a tick never refuses, and every state a crash could leave is again such a file and such an account |
| Recovery.NeverWedged | src/strategy/live.py:189-407 | After any plausible run of crashes, broker exits, other people's trades while nothing is remembered, and lost files, the next new bar is decided |
| LiveLegs.ExitIsBookedAtThePricePaid | src/strategy/live.py:189-243 | After any such run, a crash between a close and its save included, a tick that finds the account flat under a remembered position books that position first, at the price its last exit really had |
| LiveLegs.DecisionBooks | src/strategy/live.py:537-626 | A decision books at most one leg; a trade is a real exit of the account, at the leg's own price, exactly when the account is flat afterwards |
| LiveLegs.UnfilledCloseComesBack | src/strategy/live.py:245-323 | Otherwise the next tick takes the same position on again, and after a filled close it does not: one position yields one leg exactly when its close fills |
| LiveLegs.EntryIsTestedAgainstItsSignalBar | src/strategy/live.py:455-464 | With no next bar, exactly when one tick opens and closes: the signal enters, nothing vetoes it, and the signal bar's own range touches the new position's level |
| LiveLegs.BoughtAndStoppedAtOnce | src/strategy/live.py:455-464 | A bar that opens at 100 and falls to 90 under a 2% stop is bought at 100 and stopped at 98 in one tick |
| PricesPaid.RemembersWhatItPaid | src/strategy/live.py:637-649 | After any plausible run, with crashes after any write, a remembered position the account holds is remembered in the direction and at the very price the account has it at |
| Alpaca.SharesAreTheMost | src/execution/alpaca_broker.py:114-131 | The share count is the largest the weight affords |
| Alpaca.EntryIsWithinBounds | src/execution/alpaca_broker.py:377-470 | What is sent never deploys more than the weight (to half a cent), is a fraction of a share only when no bracket was configured and none whole fits, and carries exits exactly when both levels were |
| Alpaca.PlanIsExactly | src/execution/alpaca_broker.py:377-440 | Every plan if and only if: whole shares whenever one fits, as many as fit; dollars when none fits, a dollar does and no bracket is wanted; and each of the four refusals under its own condition alone |
| Alpaca.EntryFillsExactly | src/execution/alpaca_broker.py:377-470 | Exactly when an entry from flat is filled, what is then held, recorded and left at rest, and that otherwise nothing changes |
| Alpaca.EntryIsProtected | src/execution/alpaca_executor.py:587-664 | A bracketed entry has both exits at rest in every state a crash can leave, and after the move each is within a cent of the level remembered |
| Alpaca.OneLevelRestsNothing | src/execution/alpaca_broker.py:397-402 | With only a stop or only a take configured an entry rests no exit at the broker, then or later |
| Alpaca.UnfilledCloseStripsTheExits | src/execution/alpaca_executor.py:666-693 | A close cancels the exits whether or not it fills, and moving exits never rests one again |
| Alpaca.SignalBecomesAPosition | src/strategy/live.py:431-531 | A signal on a willing broker, flat on both sides and under no halt, is a position held at the market's price, remembered and saved at exactly that price with levels measured from it |
| Alpaca.ClosingFillFromHistory | src/execution/alpaca_broker.py:164-216 | The search through orders and legs finds a proof of a close exactly when there is one, and no closing fill in the history is newer |
| Alpaca.ClosingFillExactly | src/execution/alpaca_broker.py:164-216 | Proof exactly when one of the ten newest orders or their legs could have closed the position; the price, size and reason of such a fill that none is newer than |
| Alpaca.AlpacaIsLawful | src/execution/alpaca_broker.py:268-297 | The adapter keeps the rules crash safety asks of a broker, without looking whether the account was flat |
| Alpaca.FilledOnTopIsRecorded | src/execution/alpaca_broker.py:377-470 | Exactly when an order on top of a position is filled, and that it is then on record as not from flat, so that entries come from flat is the driver's doing |
| Alpaca.CloseIsProved | src/execution/alpaca_broker.py:164-216 | A filled close is the one the history names, at the very price it filled at, whatever older exits are listed |
| Alpaca.AlpacaIsHonest | src/execution/alpaca_broker.py:310-327 | While positions have a reported price and no fill is dated in the future, the account stays so, fills or rejects, and proves each of its own exits |
| Alpaca.RestingFillIsPlausible | src/execution/alpaca_broker.py:310-327 | A stop or target that fills while nothing runs is an event those theorems allow, and is proved at its own price and reason |
| Alpaca.UnpricedPositionWedges | src/strategy/live.py:273-279 | A tick that remembers no position decides if and only if the account is flat or reports the entry price of what it holds; otherwise it refuses and changes nothing |
| Alpaca.RemembersOnAlpaca | src/strategy/live.py:245-323 | On this account what is remembered of a held position is what was paid, after any plausible run |
| Alpaca.LiveOnAlpaca | src/scheduler/orchestrator.py:145-162 | After any plausible run on it entries were filled from flat, one per bar; the next new bar is decided; and an exit found afterwards is booked at the price paid |
| BarGrid.Grid.LastClosedBar | src/data/dataset.py:161-223 | The bar whose close is the greatest boundary at or before the instant, across weekends, short last bars, bars longer than a session and calendar bars; none only when sessions are empty |
| BarGrid.Grid.EligibleDate | src/data/dataset.py:226-238 | The most recent weekday that is over |
| BarGrid.Grid.NextBarBoundary | src/data/dataset.py:241-291 | The least boundary after the instant; none exactly when the size cannot be read or sessions are empty |
| BarGrid.Grid.OneBarPerBoundary | src/data/dataset.py:161-291 | A boundary is the close of one bar only |
| BarGrid.Grid.LastClosedIsUnique | src/data/dataset.py:161-223 | There is one newest closed bar, so the search is determined by that description |
| BarGrid.Grid.LastClosedMovesOn | src/data/dataset.py:161-223 | As time passes the newest closed bar never goes back, and moves on exactly when a boundary has passed |
| BarGrid.Grid.WakesForTheNextBar | src/scheduler/orchestrator.py:665-689 | Waking at or after the boundary finds a newer bar, and exactly the awaited one unless another boundary has passed |
| BarGrid.LastBarBeforeTheWeekend | src/data/dataset.py:161-223 | On a Saturday the newest closed hourly bar is Friday's 15:30, cut short at 16:00, also when the size cannot be read |
| BarGrid.FirstCloseAfterTheWeekend | src/data/dataset.py:241-291 | And the next one closes on Monday at 10:30 |
| BarGrid.CalendarBarsOverTheWeekend | src/data/dataset.py:161-291 | A calendar bar is dated Friday, and the next closes on Monday at 16:00 |
| Loop.Orchestrator.GateGivesTheLastClosedBar | src/scheduler/orchestrator.py:426-445 | Whatever passes the gates is keyed by the newest closed bar, not one still forming and not an older one |
| Loop.Orchestrator.ReachesTheDriverExactly | src/scheduler/orchestrator.py:359-461 | A tick reaches the driver if and only if trading is on, the armed strategy runs, the instrument stays, orders are possible, the exchange is open, the dataset is synced, the bar is possible, and the file ends with the newest closed bar |
| Loop.Orchestrator.StoppedExactly | src/scheduler/orchestrator.py:359-461 | Which stage stops a tick: the first thing in the way, in the source's order |
| Loop.Orchestrator.DriverIsHanded | src/scheduler/orchestrator.py:165-181 | The newest closed bar, as many bars up to it as are needed or there are, and the loop's halt |
| Loop.Orchestrator.StoppedTickTouchesNothing | src/scheduler/orchestrator.py:359-461 | A tick that anything stops leaves file, broker and log alone |
| Loop.DecisionsPassedTheGates | src/scheduler/orchestrator.py:280-481 | Every bar ever logged as decided was decided by a tick of the run that found nothing in the way |
| Loop.OffMeansOff | src/scheduler/orchestrator.py:359-363 | Over a run whose every tick is stopped the program writes nothing and sends nothing |
| Loop.OnlyTheFinalSaveMarks | src/strategy/live.py:511-513 | Every write of a tick leaves the last decided bar alone except the last write of a tick that decided |
| Loop.OneDecisionPerBar | src/scheduler/orchestrator.py:649-691 | Over every run with a clock that does not go back, with crashes after any write and any broker, the bars saved as decided strictly increase, though only the last is remembered |
| Loop.WaitForTheBoundary | src/scheduler/orchestrator.py:591-610 | The naps add up to the wait when the switch stays on, are at most 3600, and none begins after the switch was seen off; the loop ends |
| Loop.StopsWithinOneNap | src/scheduler/orchestrator.py:591-610 | A switch that goes off is obeyed before the next nap, within a second on waits of up to an hour |
| Leases.LeaseFile.Acquire | src/scheduler/lease.py:109-148 | The claim is written exactly when nobody is judged to hold the loop |
| Leases.LeaseFile.Refresh | src/scheduler/lease.py:151-171 | What a renewal writes |
| Leases.RemoteJudgesByTheCommitment | src/config/loop_state.py:237-242 | To another host a claim stands until the grace period after the promised wake, or after the last word where none was promised, and not a second longer; an unreadable expiry stands not at all |
| Leases.RenewalNamesTheHolder | src/scheduler/lease.py:151-171 | A renewal names its own process and host and keeps when the loop started, and on that host it stands as long as the process |
| Leases.LeaseFile.Release | src/scheduler/lease.py:174-196 | What a release leaves in the file |
| Leases.AtMostOneLoop | src/scheduler/lease.py:109-196 | On one host, in every interleaving of starts, claims, renewals, releases, crashes and recycled pids, at any clock readings, at most one running process holds the loop and the file names it |
| Leases.HolderIsNeverDisplaced | src/config/loop_state.py:226-253 | A running holder loses the loop only by its own release or exit |
| Leases.AcquiresExactly | src/config/loop_state.py:226-253 | Exactly when a process gets the loop |
| Leases.CrashedHolderIsReplaced | src/config/loop_state.py:186-201 | A crashed holder is replaced at once, before expiry, if and only if it left no corpse or the one asking is its parent, whose probe reaps it |
| Leases.ParentClearsTheMask | src/config/loop_state.py:186-201 | Once the parent has asked who runs the loop, anyone can take it |
| Leases.MaskedClaimIsHeldForever | src/config/loop_state.py:244-246 | While any process answers to the pid in a claim, or its corpse is somebody else's child, an asker never gets the loop, at any reading of the clock |
| Leases.RecycledPidOutlivesExpiry | src/config/loop_state.py:244-246 | A run in which a claim a year past expiry still keeps everyone out |
| Leases.ReleaseSparesOthers | src/scheduler/lease.py:174-190 | A release removes the record exactly when it names the releasing pid |
| Retry.ExecuteWithRetry | src/execution/retry.py:39-93 | Calls stop at the first success or failure not worth repeating, or when the retries are used up; the result is the last call's; the delays are base, twice base, and so on |
| Retry.BackoffTotal | src/execution/retry.py:59-87 | After n retried failures exactly base times (2^n - 1) has been slept |
| Retry.OneIdOneOrder | src/execution/retry.py:8-12 | With one id for every call the account gains at most one order, and gains one exactly when the id was new and some call got through |
| Retry.PlaceOrder | src/execution/alpaca_executor.py:472-507 | However replies are lost, an id adds at most one order, none when a re-decided bar sends it again, and success means the account has it |
| Gaps.SessionGrid | src/data/dataset.py:98-129 | The grid is the set of times of day that at least half the sessions have |
| Gaps.OnTheGridExactly | src/data/dataset.py:98-129 | A slot is on the grid if and only if some session has it and twice the number that have it reaches the number of sessions |
| Gaps.FillSessionGaps | src/data/dataset.py:376-422 | Every slot inside the span gets a bar and no other bar is added; missing prices take the last known close and missing volumes 0, in stored rows too; a file without a hole is returned untouched |
| Gaps.FilledExactly | src/data/dataset.py:376-422 | A filled file has its own bars and exactly one more at every instant strictly inside it, on a day it has bars of, at a time of day at least half its days have |
| Gaps.KnownStays | src/data/dataset.py:411-420 | A stored price or volume is never changed, and a complete bar not at all |
| Gaps.AddedBarsAreFlat | src/data/dataset.py:413-420 | With the stored closes known, an added bar is flat at the close of the latest stored bar before it, with volume 0 |
| Gaps.FillIsDetermined | src/data/dataset.py:376-422 | There is only one way to fill a file like that |
| Gaps.GridIsFixpoint | src/data/dataset.py:376-422 | The grid of a filled file is the grid it was filled to |
| Gaps.SecondFillAddsNothing | src/data/dataset.py:376-422 | Filling a filled file changes nothing |
| MissingBars.MissingBarRows | src/data/delta.py:599-758 | Each row is an absent, closed bar with its reason, listed once and in order; the totals count the whole set; the list is capped and shows every blocking row exactly when those fit the cap |
| MissingBars.FindMissing | src/data/delta.py:641-733 | The scan records every instant that has a verdict, with that verdict, and no other |
| MissingBars.VerdictExactly | src/data/delta.py:664-733 | In stamps and ages: an absent closed bar is fetchable when a frame holds it; else, in a grid slot on a known day, one nobody traded in exactly when some frame has a bar of that day and some request with bars was made once its interval, or the session, was over; and unconfirmed otherwise |
| MissingBars.Report | src/data/delta.py:740-758 | The three totals add up to the number found, and when blocking rows are all shown |
| MissingBars.AnotherFrameSettles | src/data/delta.py:664-733 | Another provider frame never loses a bar, never demotes a fetchable one, and leaves in doubt only what was in doubt before |
| MissingBars.TotalsOnlySettle | src/data/delta.py:750-756 | So it never raises the unconfirmed total nor lowers the fetchable one |
| Periods.PeriodReturns | src/backtest/report.py:95-131 | The running accumulators produce one row per stretch of equal keys, each from the previous row's end |
| Periods.PeriodsCompound | src/backtest/report.py:95-131 | However a positive curve is cut into periods, their returns compound to its last value |
| Periods.MonthlyMatrix | src/backtest/report.py:165-188 | The totals are the compounded months of each year, in the order years are first seen |
| Periods.YearTotalsAreYearlyReturns | src/backtest/report.py:157-188 | On a positive chronological curve the table has one line per year and each total is exactly that year's own return |

## Left out

- Square root: realised volatility is any function of the sample variance; the window it is taken over is modelled.
- Division by zero: the program raises on a zero price, the model returns 0; every statement about the value of a return asks for positive prices and a cost below 1.
- Indicators, rules and thresholds: the signal sequence is an input, so nothing is said about live and full-history features being equal.
- A driver with no broker wired and the dry-run log line.
- Stored state files with numbers written as text, levels that are not numbers, or notes that are not objects.
- Order ids: the digest is taken to be injective, so an id is its four parts; the note of an unfilled entry is kept without the two ids in it.
- The history check before a tick is two lengths, what the window has and what the features need; the parity runs take it as passed.
- Positions are values, not objects shared between the memory and an intent.
- CrashSafety.EntriesAreSafe: says nothing of an entry the broker accepted but had not filled when the tick ended; the history search takes the newest closing fill with no lower bound in time, so such an entry can be matched with an older exit.
- Recovery.NeverWedged: for an account that reports entry prices and can prove its own exits, and a state file that is the last save, the one before, or gone; a hand-edited file may refuse, and so does a position without a price (`Alpaca.UnpricedPositionWedges`).
- Alpaca.LiveOnAlpaca: an order filled on top of a position leaves any direction, or none, at the fill's price; the averaged price and the quantities are not modelled. The account fills or rejects at once, and what it does between ticks is any event listed under `Recovery.Plausible`.
- Alpaca.EntryFillsExactly: the executor's own checks of a bracket (levels beside the reference price, whole shares) are among the reasons a broker may refuse.
- Polling of a working order, and amendments or cancellations that fail for one exit and not the other.
- Loop.OneDecisionPerBar: the bar size and session stay the same over the run; a change of settings or instrument between ticks is not covered.
- The body of `run` as a loop without end; its ticks, waits and restarts are the events of a run.
- Daylight saving: wall-clock time is taken as continuous, and time zones are left to the library.
- Leases.AtMostOneLoop: one host, and check and claim as one step; a renewal writes unconditionally, so two hosts whose clocks let one expire are not excluded.
- A probe of a process that cannot be answered is part of `Leases.Holder` but does not occur in the runs.
- The calendar branch of missing bars, where an absent day is an absent bar.
- Row labels and their text order: rows are ordered by stamp, which is the same for canonical stamps.
- Files, JSON, Parquet, HTTP, logging, the dashboard and the provider: a file is a value and a provider frame a finite list of stamps.
- Other report figures (Sharpe, exposure, win rate, distribution): plain averages, counts and ratios over the trade list and the returns, with no state or protocol behind them.
