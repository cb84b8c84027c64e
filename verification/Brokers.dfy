/** The seam between a decision and a fill (src/strategy/broker.py). A broker is its state
    `B` and five total operations on it; whatever a real one decides on its own is part of
    that state. */
module Brokers {
  import opened Prelude
  import opened Ledgers
  import opened Strategy

  datatype FillStatus = Filled | NoFill | Rejected

  datatype Fill = Fill(status: FillStatus, price: Option<real>, quantity: real, detail: string) {
    predicate IsFilled() {
      status == Filled && price.Some?
    }
  }

  /** An exit the broker made on its own; an empty reason is read as forced. */
  datatype ClosingFill = ClosingFill(price: real, reason: Option<Reason>, quantity: real)

  datatype BrokerPosition = BrokerPosition(quantity: real, entryPrice: Option<real>, short: bool) {
    predicate IsFlat() {
      AbsReal(quantity) < 0.000000000001
    }
  }

  /** The name of one order. Its digest is taken to be injective. */
  datatype OrderId = OrderId(name: string, env: string, bar: int, index: nat)

  datatype Levels = Levels(stop: Option<real>, take: Option<real>)

  datatype Seam<!B> = Seam(
    position: B -> BrokerPosition,
    submit: (B, Intent, OrderId) -> (B, Fill),
    closingFill: (B, bool) -> Option<ClosingFill>,
    repriceExits: (B, Levels) -> B,
    restingLevels: B -> Levels)

  // -- the simulated broker -----------------------------------------------------

  datatype SimBook = SimBook(quantity: real, entryPrice: Option<real>)

  function SimPosition(b: SimBook): BrokerPosition {
    BrokerPosition(b.quantity, b.entryPrice, b.quantity < 0.0)
  }

  function SimSubmit(b: SimBook, intent: Intent, id: OrderId): (SimBook, Fill) {
    match intent
    case Skip(_, _) => (b, Fill(NoFill, None, 0.0, "nothing to fill"))
    case Open(short, price, _, _, _, _) =>
      (SimBook(if short then -1.0 else 1.0, Some(price)), Fill(Filled, Some(price), 1.0, ""))
    case Close(_, _, price, _, _, _) =>
      (SimBook(0.0, None), Fill(Filled, Some(price), AbsReal(b.quantity), ""))
  }

  const SIMULATED: Seam<SimBook> := Seam(
    b => SimPosition(b),
    (b, intent, id) => SimSubmit(b, intent, id),
    (b, short) => None,
    (b, levels) => b,
    b => Levels(None, None))

  class SimulatedBroker {
    var quantity: real
    var entryPrice: Option<real>

    ghost function Book(): SimBook
      reads this
    {
      SimBook(quantity, entryPrice)
    }

    constructor ()
      ensures Book() == SimBook(0.0, None)
    {
      quantity, entryPrice := 0.0, None;
    }

    method Position() returns (p: BrokerPosition)
      ensures p == SIMULATED.position(Book())
    {
      p := BrokerPosition(quantity, entryPrice, quantity < 0.0);
    }

    method Submit(intent: Intent, id: OrderId) returns (fill: Fill)
      modifies this
      ensures (Book(), fill) == SIMULATED.submit(old(Book()), intent, id)
    {
      match intent {
        case Skip(_, _) =>
          return Fill(NoFill, None, 0.0, "nothing to fill");
        case Open(short, price, _, _, _, _) =>
          quantity := if short then -1.0 else 1.0;
          entryPrice := Some(price);
          fill := Fill(Filled, Some(price), AbsReal(quantity), "");
        case Close(_, _, price, _, _, _) =>
          var filled := AbsReal(quantity);
          quantity := 0.0;
          entryPrice := None;
          fill := Fill(Filled, Some(price), filled, "");
      }
    }

    /** Flatten whatever is held. */
    method Close() returns (fill: Fill)
      modifies this
      ensures Book() == SimBook(0.0, None) && fill.status == Filled && !fill.IsFilled()
    {
      quantity, entryPrice := 0.0, None;
      fill := Fill(Filled, None, 0.0, "");
    }
  }
}
