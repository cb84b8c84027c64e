/** The live driver as the object the loop builds (src/strategy/live.py:107-672). Its
    methods update the strategy's memory, the ledger, the state file and the broker one
    step at a time; `Live` says what a whole tick comes to. */
module LiveDriving {
  import opened Prelude
  import opened Sizing
  import opened Ledgers
  import opened Strategy
  import opened State
  import opened Brokers
  import opened Live
  import opened Engine

  class LiveDriver<B> {
    const rules: Driver<B>
    const engine: StrategyEngine
    const state: StrategyState
    const ledger: Ledger
    /** The broker's side of the seam. */
    var book: B
    var file: Document
    ghost var trail: seq<Durable<B>>

    ghost predicate Valid()
      reads this, engine, ledger, ledger.barReturns, ledger.active
    {
      && engine.machine == rules.machine
      && ledger.Valid() && ledger.opens == [] && LiveAccount(ledger.Value())
    }

    ghost function Value(): Scene<B>
      reads this, engine, state, ledger, ledger.barReturns, ledger.active
    {
      Scene(state.Value(), engine.closedCloses, ledger.Value(), book, file, trail)
    }

    /** A driver built on a readable state file continues the memory in it. */
    constructor (rules: Driver<B>, book: B, file: Document)
      requires FromDict(file).Some?
      ensures Valid() && fresh(engine) && fresh(state) && fresh(ledger)
      ensures fresh(ledger.barReturns) && fresh(ledger.active)
      ensures this.rules == rules
      ensures Value() == Scene(FromDict(file).value, [], EmptyAccount(0), book, file, [])
    {
      var memory := FromDict(file).value;
      var e := new StrategyEngine(rules.machine);
      var s := new StrategyState.From(memory);
      var l := new Ledger([]);
      this.rules, this.book, this.file, trail := rules, book, file, [];
      engine, state, ledger := e, s, l;
    }

    method SaveState()
      modifies this`file, this`trail
      ensures Value() == rules.Saved(old(Value()))
    {
      file := AsDict(state.Value());
      trail := trail + [Durable(file, book)];
    }

    method SettleHere(bar: Bar, intent: Intent, price: Option<real>)
      requires Valid()
      modifies state`position, ledger, ledger.barReturns, ledger.active
      ensures Valid() && Value() == rules.Settled(old(Value()), bar, intent, price)
    {
      engine.Settle(ledger, state, bar, intent, price);
    }

    method AdoptBrokerExit(bar: Bar) returns (adopted: bool)
      requires Valid()
      modifies this`file, this`trail, state`position, ledger, ledger.barReturns, ledger.active
      ensures Valid() && Value() == rules.AdoptExit(old(Value()), bar)
    {
      if state.position.None? {
        return false;
      }
      var p := state.position.value;
      if !rules.seam.position(book).IsFlat() {
        return false;
      }
      var closing := rules.seam.closingFill(book, p.short);
      if closing.None? {
        return false;
      }
      var reason := if closing.value.reason.Some? then closing.value.reason.value else Forced;
      var intent := Close(reason, p.short, closing.value.price, Some(closing.value.price), 1.0, Some(0.0));
      SettleHere(bar, intent, Some(closing.value.price));
      SaveState();
      adopted := true;
    }

    method AdoptBrokerPosition(bar: Bar) returns (taken: bool)
      requires Valid()
      modifies this`file, this`trail, state`position
      ensures Valid() && Value() == rules.AdoptPosition(old(Value()), bar)
    {
      if state.position.Some? {
        return false;
      }
      var actual := rules.seam.position(book);
      if actual.IsFlat() || !Truthy(actual.entryPrice) {
        return false;
      }
      var px := actual.entryPrice.value;
      var (derivedStop, derivedTake) := rules.machine.Levels(px, actual.short);
      var resting := rules.seam.restingLevels(book);
      state.position := Some(Position(
        bar.index, px, px, actual.short,
        if resting.stop.Some? then resting.stop else derivedStop,
        if resting.take.Some? then resting.take else derivedTake,
        if state.firstWeight == 0.0 then 1.0 else state.firstWeight,
        rules.machine.config.stopLossPercent));
      SaveState();
      taken := true;
    }

    method DropNeverOpenedPosition() returns (dropped: bool)
      requires Valid()
      modifies this`file, this`trail, state`position, state`unfilledEntry
      ensures Valid() && Value() == rules.DropNeverOpened(old(Value()))
    {
      if state.position.None? || !SaysRejected(state.unfilledEntry) || !rules.seam.position(book).IsFlat() {
        return false;
      }
      state.position := None;
      state.unfilledEntry := None;
      SaveState();
      dropped := true;
    }

    method Reconcile() returns (mismatch: Option<Mismatch>)
      ensures mismatch == rules.Reconcile(Value())
    {
      var actual := rules.seam.position(book);
      if state.position.None? {
        return if actual.IsFlat() then None else Some(UnknownPosition);
      }
      if actual.IsFlat() {
        return Some(UnprovenExit);
      }
      return if state.position.value.short != actual.short then Some(WrongDirection) else None;
    }

    /** What is remembered of an entry, and the exits moved to what it really paid. */
    method RecordEntry(bar: Bar, fill: Fill)
      requires Valid()
      modifies this`book, this`trail, state`position, state`unfilledEntry
      ensures Valid() && Value() == rules.AfterOpen(old(Value()), bar, fill)
    {
      var refused := fill.status == Rejected;
      if refused {
        state.position := None;
      }
      state.unfilledEntry := if fill.IsFilled() || refused then None else Some(rules.Note(bar, fill));
      if fill.IsFilled() && state.position.Some? {
        var p := state.position.value;
        var (stop, take) := rules.machine.Levels(fill.price.value, p.short);
        state.position := Some(p.(entryPrice := fill.price.value, stop := stop, take := take));
        book := rules.seam.repriceExits(book, Levels.Levels(stop, take));
        trail := trail + [Durable(file, book)];
      }
    }

    method ActOn(bar: Bar, intent: Intent, id: OrderId)
      requires Valid()
      modifies this`book, this`trail, state`position, state`unfilledEntry, ledger, ledger.barReturns, ledger.active
      ensures Valid() && Value() == rules.Act(old(Value()), bar, intent, id)
    {
      if intent.Skip? {
        SettleHere(bar, intent, None);
        return;
      }
      if intent.Close? && state.position.None? {
        return;
      }
      var (after, fill) := rules.seam.submit(book, intent, id);
      book := after;
      trail := trail + [Durable(file, book)];
      if intent.Open? {
        RecordEntry(bar, fill);
      } else {
        state.unfilledEntry := None;
        SettleHere(bar, intent, if fill.IsFilled() then fill.price else None);
      }
    }

    /** Adoption, in the order that keeps a provable exit from reading as drift. */
    method Prepare(c: Candles) returns (bar: Bar)
      requires Valid()
      modifies this`file, this`trail, engine, state`position, state`unfilledEntry
      modifies ledger, ledger.barReturns, ledger.active
      ensures Valid() && Value() == rules.Prepared(old(Value()), c) && bar == rules.FillBar(old(Value()), c)
    {
      hide Driver.AdoptExit, Driver.AdoptPosition, Driver.DropNeverOpened;
      bar := if c.next.Some? then c.next.value else c.row.(index := state.barIndex + 1, time := c.key);
      engine.ObserveClose(c.close);
      var adopted := AdoptBrokerExit(bar);
      var taken := AdoptBrokerPosition(bar);
      var dropped := DropNeverOpenedPosition();
    }

    method Decide(bar: Bar, c: Candles)
      requires Valid()
      modifies this`book, this`file, this`trail, state, ledger, ledger.barReturns, ledger.active
      ensures Valid() && Value() == rules.DecideOn(old(Value()), bar, c)
    {
      var intents := engine.Step(state, bar, c.act, c.veto);
      ghost var start := Value();
      for index := 0 to |intents|
        invariant Valid() && Value() == rules.ActOn(start, bar, intents, c.key, index)
      {
        ActOn(bar, intents[index], OrderId(rules.name, rules.env, c.key, index));
      }
      state.barIndex := bar.index;
      state.lastDecidedBar := JKey(c.key);
      SaveState();
    }

    /** One tick on the bar that just closed. */
    method OnBarClosed(c: Candles) returns (outcome: Outcome)
      requires Valid()
      modifies this`book, this`file, this`trail, engine, state, ledger, ledger.barReturns, ledger.active
      ensures Valid() && (Value(), outcome) == rules.OnBarClosed(old(Value()), c)
    {
      if c.have < c.need {
        return NotEnoughHistory;
      }
      if state.lastDecidedBar == JKey(c.key) {
        return Noop;
      }
      var bar := Prepare(c);
      var mismatch := Reconcile();
      if mismatch.Some? {
        return Refusal(mismatch.value);
      }
      Decide(bar, c);
      return Decided;
    }
  }
}
