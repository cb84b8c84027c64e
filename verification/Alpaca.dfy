/** The broker the live loop really talks to (src/execution/alpaca_broker.py): what an
    entry is sized to, what the order history proves, and an account that fills or rejects
    at once, shown to be one the crash theorems apply to. */
module Alpaca {
  import opened Prelude
  import opened Sizing
  import opened Ledgers
  import opened Strategy
  import opened State
  import opened Brokers
  import opened Live
  import opened CrashSafety
  import opened Recovery
  import opened LiveLegs
  import opened PricesPaid
  import opened TradeRules
  import opened LiveWrites

  // -- the size of an entry ------------------------------------------------------------

  const MIN_NOTIONAL := 1.0

  /** A fraction of the account: no less than nothing, no more than all of it. */
  function Clamped(weight: real): (w: real)
    ensures 0.0 <= w <= 1.0
    ensures w == weight || (weight < 0.0 && w == 0.0) || (weight > 1.0 && w == 1.0)
  {
    MinReal(MaxReal(weight, 0.0), 1.0)
  }

  function SharesFor(weight: real, price: real, equity: real): (n: nat)
  {
    if price <= 0.0 || equity <= 0.0 then 0
    else
      ShareIsPositive(equity * Clamped(weight), price);
      (equity * Clamped(weight) / price).Floor
  }

  lemma ShareIsPositive(budget: real, price: real)
    requires budget >= 0.0 && price > 0.0
    ensures budget / price >= 0.0
  {
  }

  /** To the cent, ties to the even cent. */
  function RoundCents(x: real): (r: real)
    ensures x - 0.005 <= r <= x + 0.005 && r * 100.0 == NearestCent(x) as real
  {
    NearestCent(x) as real / 100.0
  }

  function NearestCent(x: real): (r: int)
    ensures x * 100.0 - 0.5 <= r as real <= x * 100.0 + 0.5
    ensures x * 100.0 - (x * 100.0).Floor as real == 0.5 ==> r % 2 == 0
  {
    var cents := (x * 100.0).Floor;
    var rest := x * 100.0 - cents as real;
    if rest < 0.5 || (rest == 0.5 && cents % 2 == 0) then cents else cents + 1
  }

  function AuthorisedNotional(weight: real, equity: real): real {
    RoundCents(Budget(weight, MaxReal(0.0, equity)))
  }

  /** What an entry intent turns into. */
  datatype Plan = NoPrice | NoEquity | TooSmall | NoBracket | Shares(n: nat, exits: bool) | Dollars(amount: real) {
    predicate Sends() {
      Shares? || Dollars?
    }
  }

  function PlanEntry(weight: real, price: real, equity: real, stop: Option<real>, take: Option<real>): Plan {
    if price == 0.0 then NoPrice
    else if equity <= 0.0 then NoEquity
    else
      var bracket := Truthy(stop) && Truthy(take);
      var shares := SharesFor(weight, price, equity);
      if shares >= 1 then Shares(shares, bracket)
      else
        var notional := AuthorisedNotional(weight, equity);
        if notional < MIN_NOTIONAL then TooSmall
        else if bracket then NoBracket
        else Dollars(notional)
  }

  /** As many whole shares as the weight affords, and not one more. */
  lemma SharesAreTheMost(weight: real, price: real, equity: real)
    requires price > 0.0 && equity > 0.0
    ensures SharesFor(weight, price, equity) as real * price <= equity * Clamped(weight)
    ensures equity * Clamped(weight) < (SharesFor(weight, price, equity) + 1) as real * price
  {
    var budget, n := equity * Clamped(weight), SharesFor(weight, price, equity);
    var q := budget / price;
    assert q * price == budget;
    Scales(n as real, q, price);
    ScalesStrictly(q, n as real + 1.0, price);
    assert (n + 1) as real == n as real + 1.0;
    assert budget < (n + 1) as real * price;
  }

  lemma Scales(a: real, b: real, price: real)
    requires a <= b && price > 0.0
    ensures a * price <= b * price
  {
  }

  lemma ScalesStrictly(a: real, b: real, price: real)
    requires a < b && price > 0.0
    ensures a * price < b * price
  {
  }

  /** The money the weight puts at an entry's disposal. */
  function Budget(weight: real, equity: real): real {
    equity * Clamped(weight)
  }

  /** One whole share fits. */
  predicate Affords(weight: real, price: real, equity: real) {
    price > 0.0 && price <= Budget(weight, equity)
  }

  /** `n` shares fit the budget and one more does not. */
  predicate FitsBudget(n: nat, weight: real, price: real, equity: real) {
    n as real * price <= Budget(weight, equity) < (n + 1) as real * price
  }

  lemma OneOfMany(n: real, price: real)
    requires n >= 1.0 && price > 0.0
    ensures price <= n * price
  {
    assert (n - 1.0) * price >= 0.0;
  }

  lemma AffordsAShare(weight: real, price: real, equity: real)
    requires price > 0.0 && equity > 0.0
    ensures Affords(weight, price, equity) <==> SharesFor(weight, price, equity) >= 1
    ensures FitsBudget(SharesFor(weight, price, equity), weight, price, equity)
  {
    SharesAreTheMost(weight, price, equity);
    var m := SharesFor(weight, price, equity);
    hide SharesFor, Clamped;
    if m >= 1 {
      OneOfMany(m as real, price);
      assert price <= m as real * price;
      assert m as real * price <= equity * Clamped(weight);
      assert price <= Budget(weight, equity);
    } else {
      assert (m + 1) as real * price == price;
    }
  }

  /** An amount rounds to a dollar or more exactly from 99.5 cents up. */
  lemma RoundsToADollar(x: real)
    ensures RoundCents(x) < MIN_NOTIONAL <==> x < 0.995
  {
  }

  lemma NotionalIsBudget(weight: real, equity: real)
    requires equity > 0.0
    ensures AuthorisedNotional(weight, equity) == RoundCents(Budget(weight, equity))
  {
  }

  /** Every plan, exactly when: whole shares whenever one fits, as many as fit, with their
      exits exactly when both levels are set; dollars when none fits, a dollar does and no
      bracket is wanted; and each refusal under its own condition alone. */
  lemma PlanIsExactly(weight: real, price: real, equity: real, stop: Option<real>, take: Option<real>)
    ensures var plan, both := PlanEntry(weight, price, equity, stop, take), Truthy(stop) && Truthy(take);
            var fraction := price != 0.0 && equity > 0.0 && !Affords(weight, price, equity);
            && (plan == NoPrice <==> price == 0.0)
            && (plan == NoEquity <==> price != 0.0 && equity <= 0.0)
            && (plan.Shares? <==> equity > 0.0 && Affords(weight, price, equity))
            && (plan.Shares? ==> FitsBudget(plan.n, weight, price, equity) && (plan.exits <==> both))
            && (plan == TooSmall <==> fraction && Budget(weight, equity) < 0.995)
            && (plan == NoBracket <==> fraction && Budget(weight, equity) >= 0.995 && both)
            && (plan.Dollars? <==> fraction && Budget(weight, equity) >= 0.995 && !both)
            && (plan.Dollars? ==> plan.amount == RoundCents(Budget(weight, equity)))
  {
    if equity > 0.0 {
      NotionalIsBudget(weight, equity);
      RoundsToADollar(Budget(weight, equity));
      if price > 0.0 {
        AffordsAShare(weight, price, equity);
      }
      hide SharesFor, AuthorisedNotional, RoundCents, Budget, FitsBudget;
    }
  }

  /** What is sent never deploys more than the weight allows (to half a cent), is never a
      fraction of a share where exits were configured, and carries its exits exactly when
      both levels were. */
  lemma EntryIsWithinBounds(weight: real, price: real, equity: real, stop: Option<real>, take: Option<real>)
    requires PlanEntry(weight, price, equity, stop, take).Sends()
    ensures equity > 0.0 && price != 0.0
    ensures match PlanEntry(weight, price, equity, stop, take)
            case Shares(n, exits) =>
              n >= 1 && n as real * price <= Budget(weight, equity) && (exits <==> Truthy(stop) && Truthy(take))
            case Dollars(amount) =>
              && MIN_NOTIONAL <= amount <= Budget(weight, equity) + 0.005
              && (price > 0.0 ==> Budget(weight, equity) < price) && !(Truthy(stop) && Truthy(take))
            case _ => false
  {
    PlanIsExactly(weight, price, equity, stop, take);
  }

  // -- what the history proves -----------------------------------------------------------

  datatype Side = BuySide | SellSide

  datatype Kind = MarketKind | StopKind | LimitKind | OtherKind

  /** One line of the order history; `at` orders fills by their time stamps. */
  datatype Ticket = Ticket(side: Side, kind: Kind, filled: bool, price: Option<real>, quantity: real, at: int)

  datatype Order = Order(own: Ticket, legs: seq<Ticket>)

  function Candidates(orders: seq<Order>): seq<Ticket> {
    if |orders| == 0 then []
    else Candidates(orders[..|orders| - 1]) + [orders[|orders| - 1].own] + orders[|orders| - 1].legs
  }

  predicate Closing(t: Ticket, short: bool) {
    t.filled && t.side == (if short then BuySide else SellSide) && Truthy(t.price)
  }

  /** The newest closing fill, the first listed when two are equally new. */
  function NewestClosing(tickets: seq<Ticket>, short: bool): (best: Option<Ticket>)
    ensures best.Some? ==> Closing(best.value, short)
  {
    if |tickets| == 0 then None
    else
      var before, t := NewestClosing(tickets[..|tickets| - 1], short), tickets[|tickets| - 1];
      if Closing(t, short) && (before.None? || t.at > before.value.at) then Some(t) else before
  }

  /** It is proof exactly when there is any, and nothing in the history is newer. */
  lemma {:induction false} NewestClosingExactly(tickets: seq<Ticket>, short: bool)
    ensures NewestClosing(tickets, short).None? <==> forall t :: t in tickets ==> !Closing(t, short)
    ensures NewestClosing(tickets, short).Some? ==>
              NewestClosing(tickets, short).value in tickets
              && forall t :: t in tickets && Closing(t, short) ==> t.at <= NewestClosing(tickets, short).value.at
  {
    if |tickets| > 0 {
      var before := tickets[..|tickets| - 1];
      assert tickets == before + [tickets[|tickets| - 1]];
      NewestClosingExactly(before, short);
    }
  }

  function ReasonOf(kind: Kind): Reason {
    match kind
    case StopKind => Stop
    case LimitKind => Take
    case _ => Forced
  }

  function Proof(orders: seq<Order>, short: bool): Option<ClosingFill> {
    match NewestClosing(Candidates(orders), short)
    case None => None
    case Some(t) => Some(ClosingFill(t.price.value, Some(ReasonOf(t.kind)), t.quantity))
  }

  /** An order of the history, or a leg of one. */
  ghost predicate Listed(orders: seq<Order>, t: Ticket) {
    exists k :: 0 <= k < |orders| && (t == orders[k].own || t in orders[k].legs)
  }

  lemma {:induction false} CandidatesExactly(orders: seq<Order>, t: Ticket)
    ensures t in Candidates(orders) <==> Listed(orders, t)
  {
    if |orders| > 0 {
      var front, last := orders[..|orders| - 1], orders[|orders| - 1];
      CandidatesExactly(front, t);
      if Listed(front, t) {
        var k :| 0 <= k < |front| && (t == front[k].own || t in front[k].legs);
        assert orders[k] == front[k];
      }
      if Listed(orders, t) {
        var k :| 0 <= k < |orders| && (t == orders[k].own || t in orders[k].legs);
        assert k < |front| ==> front[k] == orders[k];
      }
    }
  }

  /** A filled buy closes a short and a filled sell a long, at a price that is known. */
  predicate CanClose(t: Ticket, short: bool) {
    t.filled && (t.side == BuySide <==> short) && t.price.Some? && t.price.value != 0.0
  }

  /** What the adapter answers: proof exactly when one of its ten newest orders, or a leg of
      one, could have closed the position; then the price and size of such a fill that none
      is newer than, a stop order's as a stop, a limit order's as a take, any other's forced. */
  lemma ClosingFillExactly(v: Account, short: bool)
    ensures var recent := if |v.whim.history| <= 10 then v.whim.history else v.whim.history[..10];
            match ALPACA.closingFill(v, short)
            case None => forall t :: Listed(recent, t) ==> !CanClose(t, short)
            case Some(f) =>
              exists t :: Listed(recent, t) && CanClose(t, short) && f.price == t.price.value && f.quantity == t.quantity
                          && f.reason == Some(match t.kind
                                              case StopKind => Reason.Stop
                                              case LimitKind => Reason.Take
                                              case MarketKind => Forced
                                              case OtherKind => Forced)
                          && forall u :: Listed(recent, u) && CanClose(u, short) ==> u.at <= t.at
  {
    var recent := Recent(v.whim.history);
    NewestClosingExactly(Candidates(recent), short);
    forall t
      ensures t in Candidates(recent) <==> Listed(recent, t)
      ensures CanClose(t, short) <==> Closing(t, short)
    {
      CandidatesExactly(recent, t);
    }
    hide Listed, CanClose, Closing, Candidates;
    if NewestClosing(Candidates(recent), short).Some? {
      var t := NewestClosing(Candidates(recent), short).value;
      assert Listed(recent, t) && CanClose(t, short);
    }
  }

  /** Search the orders and their legs for the fill that closed a position. */
  method ClosingFillFromHistory(orders: seq<Order>, short: bool) returns (fill: Option<ClosingFill>)
    ensures fill == Proof(orders, short)
    ensures fill.None? <==> forall t :: t in Candidates(orders) ==> !Closing(t, short)
    ensures fill.Some? ==>
              exists t :: (t in Candidates(orders) && Closing(t, short)
                           && fill.value.price == t.price.value && fill.value.reason == Some(ReasonOf(t.kind))
                           && forall u :: u in Candidates(orders) && Closing(u, short) ==> u.at <= t.at)
  {
    var candidates: seq<Ticket> := [];
    for i := 0 to |orders|
      invariant candidates == Candidates(orders[..i])
    {
      assert orders[..i + 1][..i] == orders[..i];
      candidates := candidates + [orders[i].own] + orders[i].legs;
    }
    assert orders[..|orders|] == orders;
    var best: Option<Ticket> := None;
    for i := 0 to |candidates|
      invariant best == NewestClosing(candidates[..i], short)
    {
      assert candidates[..i + 1][..i] == candidates[..i];
      var t := candidates[i];
      if Closing(t, short) && (best.None? || t.at > best.value.at) {
        best := Some(t);
      }
    }
    assert candidates[..|candidates|] == candidates;
    NewestClosingExactly(candidates, short);
    fill := if best.None? then None
            else Some(ClosingFill(best.value.price.value, Some(ReasonOf(best.value.kind)), best.value.quantity));
  }

  // -- an account that fills or rejects at once --------------------------------------------

  const HISTORY_LIMIT := 10

  /** How the market and the broker will treat the next order, the exchange's clock, every
      finished order, newest first, and the exits at rest. `netted` is the direction an order
      filled on top of a position would leave, if any; `amends` is whether resting exits can
      be replaced. */
  datatype Market = Market(
    equity: real, price: real, refuses: bool, closes: bool, amends: bool, netted: Option<bool>, clock: int,
    history: seq<Order>, resting: Levels)

  type Account = Venue<Market>

  function Recent(orders: seq<Order>): seq<Order> {
    if |orders| <= HISTORY_LIMIT then orders else orders[..HISTORY_LIMIT]
  }

  function Fraction(plan: Plan): real {
    match plan
    case Shares(n, _) => n as real
    case _ => 0.0
  }

  /** A finished market order joins the history, stamped with the exchange's clock. */
  function Finished(m: Market, buys: bool, quantity: real): Market {
    m.(history := [Order(Ticket(if buys then BuySide else SellSide, MarketKind, true, Some(m.price), quantity, m.clock), [])]
                  + m.history)
  }

  /** What the account holds, and how its position ended, once an entry has filled. */
  function HeldAfter(v: Account, short: bool): (Option<Holding>, seq<Exit>) {
    var direction := if v.held.None? then Some(short) else v.whim.netted;
    (if direction.None? then None else Some(Holding(direction.value, Some(v.whim.price))),
     if v.held.Some? && direction.None? then v.exits + [Exit(v.held.value.short, v.whim.price)] else v.exits)
  }

  const NO_EXITS := Levels(None, None)

  /** A bracket leaves its two exits at rest, to the cent; other entries leave none of their own. */
  function AtRest(resting: Levels, plan: Plan, stop: Option<real>, take: Option<real>): Levels {
    if plan.Shares? && plan.exits && stop.Some? && take.Some?
    then Levels(Some(RoundCents(stop.value)), Some(RoundCents(take.value)))
    else resting
  }

  const MIN_STOP_DISTANCE := 0.01

  /** One resting exit moved: only one that exists, only to a level that is wanted and not
      already within a cent. */
  function Replaced(current: Option<real>, wanted: Option<real>): Option<real> {
    if current.None? || wanted.None? || AbsReal(current.value - wanted.value) < MIN_STOP_DISTANCE then current
    else Some(RoundCents(wanted.value))
  }

  /** Move the exits at rest; where the broker will not, they stay. */
  function Amended(m: Market, levels: Levels): Market {
    if !m.amends then m
    else m.(resting := Levels(Replaced(m.resting.stop, levels.stop), Replaced(m.resting.take, levels.take)))
  }

  /** Submit through the adapter: refusals it makes itself, refusals of the broker, a used
      client id, or a fill. Nothing here asks whether a position is already held. */
  function OpenAt(v: Account, i: Intent, id: OrderId): (Account, Fill)
    requires i.Open?
  {
    var plan := PlanEntry(i.weight, i.expectedPrice, v.whim.equity, i.stop, i.take);
    if !plan.Sends() || v.whim.refuses || v.whim.price <= 0.0 || Used(v, id)
    then (v, Fill(Rejected, None, 0.0, "refused"))
    else
      var (held, exits) := HeldAfter(v, i.short);
      (Venue(held, v.filled + [FilledEntry(id, v.held.None?)], exits,
             Finished(v.whim, !i.short, Fraction(plan)).(resting := AtRest(v.whim.resting, plan, i.stop, i.take))),
       Fill(Filled, Some(v.whim.price), Fraction(plan), ""))
  }

  /** The newest finished order that has a price. */
  function LastFillPrice(orders: seq<Order>): Option<real> {
    if |orders| == 0 then None
    else if Truthy(orders[0].own.price) then orders[0].own.price
    else LastFillPrice(orders[1..])
  }

  /** Flatten: cancel the resting exits, then close what is left. There is nothing to close
      when a resting exit got there first. */
  function CloseAt(v: Account): (Account, Fill) {
    var bare := v.whim.(resting := NO_EXITS);
    if v.held.None? then (v.(whim := bare), Fill(Filled, LastFillPrice(Recent(v.whim.history)), 0.0, "already closed"))
    else if !v.whim.closes || v.whim.price <= 0.0 then (v.(whim := bare), Fill(NoFill, None, 0.0, "still working"))
    else
      (Venue(None, v.filled, v.exits + [Exit(v.held.value.short, v.whim.price)], Finished(bare, v.held.value.short, 0.0)),
       Fill(Filled, Some(v.whim.price), 0.0, ""))
  }

  /** The position payload: signed quantity, and the entry price as reported or not. */
  function PositionOf(v: Account): BrokerPosition {
    match v.held
    case None => BrokerPosition(0.0, None, false)
    case Some(h) => BrokerPosition(if h.short then -1.0 else 1.0, h.price, h.short)
  }

  function SubmitTo(v: Account, i: Intent, id: OrderId): (Account, Fill) {
    match i
    case Open(_, _, _, _, _, _) => OpenAt(v, i, id)
    case Close(_, _, _, _, _, _) => CloseAt(v)
    case Skip(_, _) => (v, Fill(NoFill, None, 0.0, "nothing to submit"))
  }

  const ALPACA: Seam<Account> := Seam(
    (v: Account) => PositionOf(v),
    (v: Account, i: Intent, id: OrderId) => SubmitTo(v, i, id),
    (v: Account, short: bool) => Proof(Recent(v.whim.history), short),
    (v: Account, levels: Levels) => v.(whim := Amended(v.whim, levels)),
    (v: Account) => v.whim.resting)

  /** The account is in order: a position has a reported entry price, and no finished order
      is dated after the exchange's clock. */
  predicate InOrder(v: Account) {
    && (v.held.Some? ==> Truthy(v.held.value.price))
    && forall k :: 0 <= k < |v.whim.history| ==> DatedBy(v.whim.history[k], v.whim.clock)
  }

  predicate DatedBy(order: Order, clock: int) {
    order.own.at <= clock && forall k :: 0 <= k < |order.legs| ==> order.legs[k].at <= clock
  }

  // -- it keeps the rules ------------------------------------------------------------------

  /** Crash safety asks nothing of an account but this: it does not look whether the account
      was flat, so that entries are filled from flat is the driver's doing. */
  lemma AlpacaIsLawful()
    ensures Lawful(ALPACA)
  {
    forall v: Account, i: Intent, id: OrderId | !i.Open?
      ensures ALPACA.submit(v, i, id).0.filled == v.filled
      ensures ALPACA.submit(v, i, id).0.held == v.held || ALPACA.submit(v, i, id).0.held.None?
    {
      assert ALPACA.submit(v, i, id) == SubmitTo(v, i, id);
    }
  }

  /** An entry this account fills on top of a position is on record as not from flat. */
  lemma FilledOnTopIsRecorded(v: Account, i: Intent, id: OrderId)
    requires i.Open? && v.held.Some?
    ensures var w := ALPACA.submit(v, i, id).0;
            w.filled != v.filled <==>
              PlanEntry(i.weight, i.expectedPrice, v.whim.equity, i.stop, i.take).Sends()
              && !v.whim.refuses && v.whim.price > 0.0 && !Used(v, id)
    ensures var w := ALPACA.submit(v, i, id).0;
            w.filled != v.filled ==> w.filled == v.filled + [FilledEntry(id, false)]
  {
  }

  lemma Reassociates(a: seq<Ticket>, b: seq<Ticket>, c: seq<Ticket>, d: seq<Ticket>, e: seq<Ticket>)
    ensures a + b + c + d + e == a + b + (c + d + e)
  {
  }

  lemma CandidatesHead(order: Order, orders: seq<Order>)
    ensures Candidates([order] + orders) == [order.own] + order.legs + Candidates(orders)
    decreases |orders|
  {
    var all := [order] + orders;
    if |orders| == 0 {
      assert all[..0] == [];
    } else {
      var front, last := orders[..|orders| - 1], orders[|orders| - 1];
      assert all[..|all| - 1] == [order] + front;
      CandidatesHead(order, front);
      Reassociates([order.own], order.legs, Candidates(front), [last.own], last.legs);
    }
  }

  lemma {:induction false} CandidatesDated(orders: seq<Order>, clock: int)
    requires forall k :: 0 <= k < |orders| ==> DatedBy(orders[k], clock)
    ensures forall k :: 0 <= k < |Candidates(orders)| ==> Candidates(orders)[k].at <= clock
  {
    if |orders| > 0 {
      CandidatesDated(orders[..|orders| - 1], clock);
    }
  }

  /** Among fills none of which is newer, the first listed stands. */
  lemma {:induction false} FirstStands(first: Ticket, rest: seq<Ticket>, short: bool)
    requires Closing(first, short) && forall k :: 0 <= k < |rest| ==> rest[k].at <= first.at
    ensures NewestClosing([first] + rest, short) == Some(first)
  {
    var all := [first] + rest;
    if |rest| == 0 {
      assert all[..0] == [];
    } else {
      assert all[..|all| - 1] == [first] + rest[..|rest| - 1];
      FirstStands(first, rest[..|rest| - 1], short);
    }
  }

  /** The order that has just closed a position is the one its history names, whatever older
      exits are listed after it. */
  lemma JustClosedIsProved(m: Market, buys: bool, quantity: real)
    requires m.price > 0.0 && forall k :: 0 <= k < |m.history| ==> DatedBy(m.history[k], m.clock)
    ensures Proof(Recent(Finished(m, buys, quantity).history), buys) == Some(ClosingFill(m.price, Some(Forced), quantity))
  {
    var order := Finished(m, buys, quantity).history[0];
    var rest := Recent(Finished(m, buys, quantity).history)[1..];
    assert Recent(Finished(m, buys, quantity).history) == [order] + rest;
    forall k | 0 <= k < |rest|
      ensures DatedBy(rest[k], m.clock)
    {
      assert rest[k] == m.history[k];
    }
    CandidatesHead(order, rest);
    CandidatesDated(rest, m.clock);
    assert [order.own] + order.legs + Candidates(rest) == [order.own] + Candidates(rest);
    FirstStands(order.own, Candidates(rest), buys);
  }

  /** A filled close is proved at the price it filled at. */
  lemma CloseIsProved(v: Account)
    requires InOrder(v) && v.held.Some?
    ensures ClosesHonestly(ALPACA, v, CloseAt(v).0, CloseAt(v).1)
    ensures CloseAt(v).1.IsFilled() ==>
              ALPACA.closingFill(CloseAt(v).0, v.held.value.short) == Some(ClosingFill(v.whim.price, Some(Forced), 0.0))
  {
    if v.whim.closes && v.whim.price > 0.0 {
      JustClosedIsProved(v.whim, v.held.value.short, 0.0);
    }
  }

  lemma StaysInOrder(v: Account, i: Intent, id: OrderId)
    requires InOrder(v)
    ensures InOrder(SubmitTo(v, i, id).0)
  {
  }

  /** While it is in order the account is honest: it reports its position and price, fills
      or rejects, and proves each close at the very price it filled at. */
  lemma AlpacaIsHonest()
    ensures Honest(ALPACA, InOrder)
  {
    forall v: Account, i: Intent, id: OrderId | InOrder(v)
      ensures InOrder(ALPACA.submit(v, i, id).0)
    {
      StaysInOrder(v, i, id);
    }
    forall v: Account, i: Intent, id: OrderId | InOrder(v) && i.Open? && v.held.None?
      ensures OpensHonestly(v, ALPACA.submit(v, i, id).0, ALPACA.submit(v, i, id).1, i.short)
    {
      assert ALPACA.submit(v, i, id) == OpenAt(v, i, id);
    }
    forall v: Account, i: Intent, id: OrderId | InOrder(v) && i.Close? && v.held.Some?
      ensures ClosesHonestly(ALPACA, v, ALPACA.submit(v, i, id).0, ALPACA.submit(v, i, id).1)
    {
      CloseIsProved(v);
    }
  }

  /** A resting leg of the bracket fills while nothing runs: the other is cancelled, and it joins the history at the
      exchange's new time. */
  function RestingFills(v: Account, kind: Kind, price: real, at: int): Happening<Market>
    requires v.held.Some?
  {
    var ticket := Ticket(if v.held.value.short then BuySide else SellSide, kind, true, Some(price), 0.0, at);
    Outside(None, [Exit(v.held.value.short, price)],
            v.whim.(clock := at, history := [Order(ticket, [])] + v.whim.history, resting := NO_EXITS))
  }

  /** That is something the recovery theorems allow for. */
  lemma RestingFillIsPlausible(d: Driver<Account>, w: World<Market>, kind: Kind, price: real, at: int)
    requires d.seam == ALPACA && InOrder(w.venue) && w.venue.held.Some? && price > 0.0 && at >= w.venue.whim.clock
    ensures Plausible(d, InOrder, w, RestingFills(w.venue, kind, price, at))
    ensures ALPACA.closingFill(After(d, w, RestingFills(w.venue, kind, price, at)).venue, w.venue.held.value.short)
            == Some(ClosingFill(price, Some(ReasonOf(kind)), 0.0))
  {
    hide NewestClosing, Candidates;
    var v := After(d, w, RestingFills(w.venue, kind, price, at)).venue;
    var order, rest := v.whim.history[0], Recent(v.whim.history)[1..];
    assert Recent(v.whim.history) == [order] + rest;
    forall k | 0 <= k < |v.whim.history|
      ensures DatedBy(v.whim.history[k], at)
    {
      assert k > 0 ==> v.whim.history[k] == w.venue.whim.history[k - 1];
    }
    CandidatesHead(order, rest);
    CandidatesDated(rest, at);
    assert [order.own] + order.legs + Candidates(rest) == [order.own] + Candidates(rest);
    FirstStands(order.own, Candidates(rest), w.venue.held.value.short);
  }

  // -- entries, exits and what protects them ---------------------------------------------------

  /** An order can be made of an entry: it has a price, the equity is known, and a whole share
      fits, or else a dollar does and no bracket has to go with it. */
  predicate Sendable(i: Intent, equity: real)
    requires i.Open?
  {
    && i.expectedPrice != 0.0 && equity > 0.0
    && (Affords(i.weight, i.expectedPrice, equity)
        || (Budget(i.weight, equity) >= 0.995 && !(Truthy(i.stop) && Truthy(i.take))))
  }

  /** Exactly when an entry from flat is filled: an order can be made of it, the broker takes
      it, the market has a price and its id is new. It is then held in its direction at that
      price, as many whole shares as fit where one does, with its two exits at rest to the
      cent; otherwise it is refused and nothing at all changes. */
  lemma EntryFillsExactly(v: Account, i: Intent, id: OrderId)
    requires i.Open? && v.held.None?
    ensures var (w, fill) := ALPACA.submit(v, i, id);
            && (fill.IsFilled() <==> Sendable(i, v.whim.equity) && !v.whim.refuses && v.whim.price > 0.0 && !Used(v, id))
            && (if fill.IsFilled()
                then && fill.price == Some(v.whim.price) && w.held == Some(Holding(i.short, fill.price))
                     && w.filled == v.filled + [FilledEntry(id, true)] && w.exits == v.exits
                else w == v && fill.status == Rejected)
    ensures var (w, fill) := ALPACA.submit(v, i, id);
            fill.IsFilled() && Affords(i.weight, i.expectedPrice, v.whim.equity) ==>
              && (exists n: nat :: FitsBudget(n, i.weight, i.expectedPrice, v.whim.equity) && fill.quantity == n as real)
              && (Truthy(i.stop) && Truthy(i.take) ==>
                    w.whim.resting == Levels(Some(RoundCents(i.stop.value)), Some(RoundCents(i.take.value))))
  {
    PlanIsExactly(i.weight, i.expectedPrice, v.whim.equity, i.stop, i.take);
    hide PlanEntry, RoundCents, Affords, FitsBudget, Budget, Used;
  }

  predicate WithinACent(resting: Option<real>, level: Option<real>) {
    resting.Some? && level.Some? && AbsReal(resting.value - level.value) < 0.01
  }

  lemma ReplacedIsClose(current: Option<real>, wanted: Option<real>)
    requires current.Some? && wanted.Some?
    ensures WithinACent(Replaced(current, wanted), wanted)
  {
  }

  /** An entry of whole shares with a stop and a take is never left unprotected: both exits
      rest from the moment it fills, also when the program dies before moving them; and once
      it has, where the broker lets them be moved, within a cent of the levels remembered. */
  lemma EntryIsProtected(d: Driver<Account>, s: Scene<Account>, bar: Bar, i: Intent, id: OrderId, p: Position)
    requires d.seam == ALPACA && LiveAccount(s.acct) && i.Open? && s.mem.mind.position == Some(p) && s.book.held.None?
    requires Truthy(i.stop) && Truthy(i.take) && ALPACA.submit(s.book, i, id).1.IsFilled()
    requires d.machine.config.UsesStop() && d.machine.config.UsesTake()
    ensures var t := d.Act(s, bar, i, id);
            && |t.trail| == |s.trail| + 2
            && (forall k :: |s.trail| <= k < |t.trail| ==>
                  t.trail[k].book.held.Some? && t.trail[k].book.whim.resting.stop.Some? && t.trail[k].book.whim.resting.take.Some?)
            && (s.book.whim.amends ==>
                  && t.mem.mind.position.Some?
                  && WithinACent(t.book.whim.resting.stop, t.mem.mind.position.value.stop)
                  && WithinACent(t.book.whim.resting.take, t.mem.mind.position.value.take))
  {
    var (sent, fill) := ALPACA.submit(s.book, i, id);
    EntryFillsExactly(s.book, i, id);
    BracketIsWhole(s.book, i, id);
    FilledEntryLeaves(d, s, bar, i, id, p, s.book.whim.price);
    var q := PaidFor(d.machine.config, p, s.book.whim.price);
    ReplacedIsClose(sent.whim.resting.stop, q.stop);
    ReplacedIsClose(sent.whim.resting.take, q.take);
    hide PlanEntry, RoundCents, Affords, FitsBudget, Budget, Used, Replaced, Share;
  }

  /** A fraction of a share is never sent where both levels are set. */
  lemma BracketIsWhole(v: Account, i: Intent, id: OrderId)
    requires i.Open? && v.held.None? && Truthy(i.stop) && Truthy(i.take) && ALPACA.submit(v, i, id).1.IsFilled()
    ensures Affords(i.weight, i.expectedPrice, v.whim.equity)
    ensures ALPACA.submit(v, i, id).0.whim.resting.stop.Some? && ALPACA.submit(v, i, id).0.whim.resting.take.Some?
    ensures ALPACA.submit(v, i, id).0.whim.amends == v.whim.amends
  {
    EntryFillsExactly(v, i, id);
    hide PlanEntry, Affords, FitsBudget, Budget, Used;
  }

  /** A close cancels the exits before it is known whether it fills. One that does not fill
      leaves the position held with nothing resting, and moving exits never rests one again. */
  lemma UnfilledCloseStripsTheExits(v: Account, i: Intent, id: OrderId, levels: Levels)
    requires i.Close? && v.held.Some?
    ensures var (w, fill) := ALPACA.submit(v, i, id);
            && (fill.IsFilled() <==> v.whim.closes && v.whim.price > 0.0)
            && w.whim.resting == NO_EXITS && ALPACA.repriceExits(w, levels).whim.resting == NO_EXITS
            && (if fill.IsFilled() then w.held.None? else w.held == v.held)
  {
  }

  /** With only one of the two levels set there is no bracket: a filled entry rests no exit of
      its own, and moving exits rests none either. */
  lemma OneLevelRestsNothing(v: Account, i: Intent, id: OrderId, levels: Levels)
    requires i.Open? && v.held.None? && v.whim.resting == NO_EXITS && !(Truthy(i.stop) && Truthy(i.take))
    ensures var w := ALPACA.submit(v, i, id).0;
            w.whim.resting == NO_EXITS && ALPACA.repriceExits(w, levels).whim.resting == NO_EXITS
  {
    PlanIsExactly(i.weight, i.expectedPrice, v.whim.equity, i.stop, i.take);
    hide PlanEntry;
  }

  lemma AlpacaQuotes()
    ensures Quotes(ALPACA, InOrder)
  {
    forall v: Account, i: Intent, id: OrderId | InOrder(v) && i.Open? && v.held.None?
      ensures FillsAtOnce(ALPACA.submit(v, i, id).0, ALPACA.submit(v, i, id).1, i.short)
    {
      EntryFillsExactly(v, i, id);
    }
  }

  /** A signal becomes a position. A tick on a new bar, flat on both sides and under no halt,
      whose signal opens and whose own bar touches neither level, on a broker willing to take
      an order that can be made of it: the account ends up holding it at the market's price,
      and the driver remembers and has saved exactly that price and levels measured from it. */
  lemma SignalBecomesAPosition(d: Driver<Account>, s: Scene<Account>, c: Candles, short: bool)
    requires d.seam == ALPACA && LiveAccount(s.acct) && s.mem.mind.position.None? && s.book.held.None?
    requires c.have >= c.need && s.mem.last != JKey(c.key) && c.veto == ""
    requires if short then c.act == Sell && d.machine.config.allowShort else c.act == Buy
    requires var p := d.machine.NewPosition(Tail(s.closed + [c.close], d.machine.config.Keep()), d.FillBar(s, c), short);
             && d.machine.LevelHit(p, d.FillBar(s, c)).None?
             && Sendable(Open(short, p.entryPrice, p.stop, p.take, p.weight, p.stopPct), s.book.whim.equity)
    requires !s.book.whim.refuses && s.book.whim.price > 0.0 && !Used(s.book, OrderId(d.name, d.env, c.key, 0))
    ensures var (t, outcome) := d.OnBarClosed(s, c);
            var p := d.machine.NewPosition(Tail(s.closed + [c.close], d.machine.config.Keep()), d.FillBar(s, c), short);
            && outcome == Decided && t.acct == s.acct
            && t.book.held == Some(Holding(short, Some(s.book.whim.price)))
            && t.mem.mind.position == Some(PaidFor(d.machine.config, p, s.book.whim.price))
            && FromDict(t.file).Some? && FromDict(t.file).value.mind.position == t.mem.mind.position
  {
    var bar, ready := d.FillBar(s, c), s.(closed := Tail(s.closed + [c.close], d.machine.config.Keep()));
    NothingToAdopt(d, s, c);
    var p := d.machine.NewPosition(ready.closed, bar, short);
    var i, id := Open(short, p.entryPrice, p.stop, p.take, p.weight, p.stopPct), OrderId(d.name, d.env, c.key, 0);
    SignalIsOneIntent(d.machine, ready.closed, ready.mem.mind, bar, c.act, short);
    hide Machine.Step, Machine.NewPosition, Machine.LevelHit, Driver.Act, Driver.ActOn, Driver.Prepared, PlanEntry, Sendable,
         AsDict, FromDict, StopLevel, TakeLevel, Used, Driver.FillBar;
    var (mind, intents) := d.machine.Step(ready.closed, ready.mem.mind, bar, c.act, c.veto);
    OrdersAreNamed(d, ready, bar, c);
    EntryFillsExactly(ready.book, i, id);
    FilledEntryLeaves(d, ready.(mem := ready.mem.(mind := mind)), bar, i, id, p, s.book.whim.price);
    DecisionIsSaved(d, ready, bar, c);
  }

  lemma NothingToAdopt(d: Driver<Account>, s: Scene<Account>, c: Candles)
    requires d.seam == ALPACA && LiveAccount(s.acct) && s.mem.mind.position.None? && s.book.held.None?
    ensures d.Prepared(s, c) == s.(closed := Tail(s.closed + [c.close], d.machine.config.Keep()))
    ensures d.Reconcile(d.Prepared(s, c)).None?
  {
  }

  lemma SignalIsOneIntent(m: Machine, closed: seq<real>, mind: Mind, bar: Bar, act: Act, short: bool)
    requires mind.position.None? && if short then act == Sell && m.config.allowShort else act == Buy
    requires m.LevelHit(m.NewPosition(closed, bar, short), bar).None?
    ensures var p := m.NewPosition(closed, bar, short);
            && m.Step(closed, mind, bar, act, "").0.position == Some(p)
            && m.Step(closed, mind, bar, act, "").1 == [Open(short, p.entryPrice, p.stop, p.take, p.weight, p.stopPct)]
  {
    hide Machine.NewPosition, Machine.LevelHit;
  }

  // -- the live loop on it -------------------------------------------------------------------

  /** Exactly when a tick that remembers no position gets past reconciliation: the account
      is flat, or reports the entry price of what it holds. Without one the tick refuses,
      and so does every tick after it until somebody closes the position. */
  lemma UnpricedPositionWedges(d: Driver<Account>, s: Scene<Account>, c: Candles)
    requires d.seam == ALPACA && LiveAccount(s.acct) && s.mem.mind.position.None?
    requires c.have >= c.need && s.mem.last != JKey(c.key)
    ensures d.OnBarClosed(s, c).1 == Decided <==> (s.book.held.Some? ==> Truthy(s.book.held.value.price))
    ensures d.OnBarClosed(s, c).1 != Decided ==>
              d.OnBarClosed(s, c).1 == Refusal(UnknownPosition)
              && d.OnBarClosed(s, c).0.mem == s.mem && d.OnBarClosed(s, c).0.book == s.book
  {
    hide Driver.DecideOn;
    RefusesExactly(d, s, c);
  }

  /** After any plausible run on this account, a remembered position it holds is remembered at
      the price the account has it at. */
  lemma RemembersOnAlpaca(d: Driver<Account>, w: World<Market>, run: seq<Happening<Market>>)
    requires d.seam == ALPACA && Reconcilable(ALPACA, InOrder, w.file, w.venue) && Matches(w.file, w.venue)
    requires PlausibleRun(d, InOrder, w, run)
    ensures Matches(Outcomes(d, w, run).file, Outcomes(d, w, run).venue)
  {
    AlpacaIsHonest();
    AlpacaQuotes();
    RemembersWhatItPaid(d, InOrder, w, run);
  }

  /** The live loop on this account, after any plausible run of ticks, crashes at any write,
      restarts, broker exits and lost files: every entry was filled from flat and no bar has
      two; the next new bar is decided; and a remembered position the account no longer
      holds is booked first, at the price it really ended at. */
  lemma LiveOnAlpaca(d: Driver<Account>, w: World<Market>, run: seq<Happening<Market>>, c: Candles, p: Position)
    requires d.seam == ALPACA && w.venue.filled == []
    requires Reconcilable(ALPACA, InOrder, w.file, w.venue) && PlausibleRun(d, InOrder, w, run)
    ensures var now := Outcomes(d, w, run);
            && Safe(d, now.venue)
            && FromDict(now.file).Some?
            && (c.have >= c.need && FromDict(now.file).value.last != JKey(c.key) ==>
                  && d.OnBarClosed(SceneOf(now), c).1 == Decided
                  && (FromDict(now.file).value.mind.position == Some(p) && now.venue.held.None? ==>
                        var legs := d.OnBarClosed(SceneOf(now), c).0.acct.legs;
                        |legs| > 0 && |now.venue.exits| > 0 && BooksTheExit(legs[0], p, now.venue.exits[|now.venue.exits| - 1])))
  {
    hide Outcomes, Driver.OnBarClosed, BooksTheExit, Safe;
    AlpacaIsLawful();
    AlpacaIsHonest();
    EntriesAreSafe(d, w, run);
    NeverWedged(d, InOrder, w, run, c);
    ExitIsBookedAtThePricePaid(d, InOrder, w, run, c, p);
  }
}
