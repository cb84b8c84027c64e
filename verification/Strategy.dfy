/** One bar in, one decision out (`StrategyEngine`, src/strategy/engine.py). `Machine`
    holds the decision rules as functions; the class below it carries the trimmed price
    history and updates the strategy's memory the way the program does. */
module Strategy {
  import opened Prelude
  import opened Sizing
  import opened Ledgers

  datatype Act = Buy | Sell | Hold

  datatype Bar = Bar(index: int, time: int, open: real, close: real, high: Option<real>, low: Option<real>)

  datatype Position = Position(
    entryIndex: int, entryPrice: real, rawEntryPrice: real, short: bool,
    stop: Option<real>, take: Option<real>, weight: real, stopPct: Option<real>)

  datatype Intent =
    | Open(short: bool, expectedPrice: real, stop: Option<real>, take: Option<real>,
           weight: real, stopPct: Option<real>)
    | Close(reason: Reason, short: bool, expectedPrice: real, level: Option<real>,
            weight: real, stopPct: Option<real>)
    | Skip(why: string, short: bool)

  /** The part of the strategy's memory that `step` reads and writes. */
  datatype Mind = Mind(position: Option<Position>, firstWeight: real, weightSeen: bool)

  const FRESH_MIND := Mind(None, 1.0, false)

  /** The memory together with the ledger its fills land in. */
  datatype Desk = Desk(mind: Mind, acct: Account)

  /** The outcome of one bar. */
  datatype Verdict = Stay | Enter(p: Position) | Leave(ended: Position, reason: Reason, price: real)

  /** `Opposes(act, p)`: the signal closes the position. */
  predicate Opposes(act: Act, short: bool) {
    (act == Buy && short) || (act == Sell && !short)
  }

  datatype Machine = Machine(config: StrategyConfig, root: real -> real) {

    /** Which way a signal opens a position while flat, if it does. */
    function Entering(act: Act): Option<bool> {
      match act
      case Buy => Some(false)
      case Sell => if config.allowShort then Some(true) else None
      case Hold => None
    }

    function Levels(entryPx: real, short: bool): (Option<real>, Option<real>) {
      var stop :=
        if config.UsesStop()
        then
          var d := StopDistance(entryPx, config.stopLossPercent.value);
          Some(if short then entryPx + d else entryPx - d)
        else None;
      var take :=
        if config.UsesTake()
        then
          var d := StopDistance(entryPx, config.takeProfitPercent.value);
          Some(if short then entryPx - d else entryPx + d)
        else None;
      (stop, take)
    }

    /** The stop distance that sizes an entry: the configured one, or the realised
        volatility of the closes seen so far when that mode is selected. */
    function StopInForce(closed: seq<real>): Option<real> {
      if config.UsesStop() && config.sizingMode == VolatilityTarget then
        var vol := RealizedVolatility(root, closed, config.volatilityPeriod);
        if Truthy(vol) then vol else config.stopLossPercent
      else config.stopLossPercent
    }

    function EntryPrice(open: real, short: bool): real {
      if short then open * (1.0 - config.Cost()) else open * (1.0 + config.Cost())
    }

    function ExitPrice(price: real, short: bool): real {
      if short then price * (1.0 + config.Cost()) else price * (1.0 - config.Cost())
    }

    function NewPosition(closed: seq<real>, bar: Bar, short: bool): Position {
      var stopPct := StopInForce(closed);
      var px := EntryPrice(bar.open, short);
      var (stop, take) := Levels(px, short);
      Position(bar.index, px, bar.open, short, stop, take, config.DeployWeightFor(stopPct), stopPct)
    }

    function EntryIntent(closed: seq<real>, mind: Mind, bar: Bar, act: Act, veto: string): (Mind, Option<Intent>)
    {
      match Entering(act)
      case None => (mind, None)
      case Some(short) =>
        if veto != "" then (mind, Some(Skip(veto, short)))
        else
          var p := NewPosition(closed, bar, short);
          (Mind(Some(p), if mind.weightSeen then mind.firstWeight else p.weight, true),
           Some(Open(short, p.entryPrice, p.stop, p.take, p.weight, p.stopPct)))
    }

    function CloseAt(p: Position, price: real, reason: Reason, level: Option<real>): Intent {
      Close(reason, p.short, ExitPrice(price, p.short), level, p.weight, p.stopPct)
    }

    /** The level a bar touches, the stop before the take. */
    function LevelHit(p: Position, bar: Bar): Option<(real, Reason)> {
      if (p.stop.None? && p.take.None?) || bar.high.None? || bar.low.None? then None
      else if p.short then
        if p.stop.Some? && bar.high.value >= p.stop.value then Some((p.stop.value, Stop))
        else if p.take.Some? && bar.low.value <= p.take.value then Some((p.take.value, Take))
        else None
      else
        if p.stop.Some? && bar.low.value <= p.stop.value then Some((p.stop.value, Stop))
        else if p.take.Some? && bar.high.value >= p.take.value then Some((p.take.value, Take))
        else None
    }

    /** What this bar does, given the previous bar's signal. The level check runs on
        whatever position the memory holds, also after a signal exit was decided. */
    function Step(closed: seq<real>, mind: Mind, bar: Bar, act: Act, veto: string): (Mind, seq<Intent>) {
      var (next, first) :=
        match mind.position
        case None => EntryIntent(closed, mind, bar, act, veto)
        case Some(p) => (mind, if Opposes(act, p.short) then Some(CloseAt(p, bar.open, Signal, None)) else None);
      var intents := if first.Some? then [first.value] else [];
      match next.position
      case None => (next, intents)
      case Some(p) =>
        match LevelHit(p, bar)
        case None => (next, intents)
        case Some(hit) => (next, intents + [CloseAt(p, hit.0, hit.1, Some(hit.0))])
    }

    /** The booking a close makes: a signal exit fills at this bar's open, so the bar
        before it is the last to carry a return. */
    function BookingFor(p: Position, bar: Bar, reason: Reason, price: real): Booking {
      Booking(p.entryIndex, if reason == Signal then bar.index - 1 else bar.index, bar.index, p.short,
              p.entryPrice, price, p.weight, reason, p.stopPct, Some(p.rawEntryPrice))
    }

    /** Book an intent as a fill; `exitPrice` is what a broker really got. */
    function Settle(opens: seq<real>, desk: Desk, bar: Bar, intent: Intent, exitPrice: Option<real>): (r: Desk)
      requires Fits(opens, desk.acct)
      ensures Fits(opens, r.acct)
    {
      match intent
      case Skip(why, short) => desk.(acct := Refused(desk.acct, bar.index, short, why))
      case Open(_, _, _, _, _, _) => desk
      case Close(reason, _, expected, _, _, _) =>
        match desk.mind.position
        case None => desk
        case Some(p) =>
          var price := if exitPrice.Some? then exitPrice.value else expected;
          Desk(desk.mind.(position := None), Booked(opens, desk.acct, BookingFor(p, bar, reason, price)))
    }

    function SettleAll(opens: seq<real>, desk: Desk, bar: Bar, intents: seq<Intent>): (r: Desk)
      requires Fits(opens, desk.acct)
      ensures Fits(opens, r.acct)
    {
      if |intents| == 0 then desk
      else Settle(opens, SettleAll(opens, desk, bar, intents[..|intents| - 1]), bar, intents[|intents| - 1], None)
    }

    /** One whole bar of the replay: decide, then settle everything that was decided. */
    function Turn(opens: seq<real>, closed: seq<real>, desk: Desk, bar: Bar, act: Act): (r: Desk)
      requires Fits(opens, desk.acct)
      ensures Fits(opens, r.acct)
    {
      var (mind, intents) := Step(closed, desk.mind, bar, act, "");
      SettleAll(opens, Desk(mind, desk.acct), bar, intents)
    }

    /** An entry is always the first thing a bar does, a bar enters at most once, and
        only from flat. */
    lemma OpenIsFirst(closed: seq<real>, mind: Mind, bar: Bar, act: Act, veto: string)
      ensures
        var (next, intents) := Step(closed, mind, bar, act, veto);
        && |intents| <= 2
        && (forall i :: 0 <= i < |intents| && intents[i].Open? ==> i == 0 && mind.position.None? && next.position.Some?)
        && (forall i :: 0 < i < |intents| ==> intents[i].Close? && intents[i].reason in {Stop, Take})
        && (mind.position.Some? ==> next == mind)
        && (mind.position.None? && next.position.Some? ==> |intents| > 0 && intents[0].Open?)
    {
    }

    /** What one bar comes to, written without intents: stay as it was, open `p`, or end
        `p` (perhaps opened on this very bar) for one reason at one price. A signal exit
        outranks a level touched on the same bar. */
    function Judge(closed: seq<real>, position: Option<Position>, bar: Bar, act: Act): Verdict {
      match position
      case None =>
        (match Entering(act)
         case None => Stay
         case Some(short) =>
           var p := NewPosition(closed, bar, short);
           (match LevelHit(p, bar)
            case None => Enter(p)
            case Some(hit) => Leave(p, hit.1, ExitPrice(hit.0, short))))
      case Some(p) =>
        if Opposes(act, p.short) then Leave(p, Signal, ExitPrice(bar.open, p.short))
        else
          match LevelHit(p, bar)
          case None => Stay
          case Some(hit) => Leave(p, hit.1, ExitPrice(hit.0, p.short))
    }

    /** The memory once `p` is the position being held or ended: the first weight ever
        sized is remembered. */
    function Recall(mind: Mind, p: Position): Mind {
      if mind.position.Some? then mind
      else Mind(Some(p), if mind.weightSeen then mind.firstWeight else p.weight, true)
    }

    /** Deciding and settling a whole bar comes to exactly its verdict. Two closes decided
        on one bar therefore book one leg. */
    lemma TurnIsJudged(opens: seq<real>, closed: seq<real>, desk: Desk, bar: Bar, act: Act)
      requires Fits(opens, desk.acct)
      ensures Turn(opens, closed, desk, bar, act) ==
        match Judge(closed, desk.mind.position, bar, act)
        case Stay => desk
        case Enter(p) => Desk(Recall(desk.mind, p), desk.acct)
        case Leave(p, reason, price) =>
          Desk(Recall(desk.mind, p).(position := None), Booked(opens, desk.acct, BookingFor(p, bar, reason, price)))
    {
      var (mind, intents) := Step(closed, desk.mind, bar, act, "");
      var start := Desk(mind, desk.acct);
      if |intents| == 1 {
        SettleOne(opens, start, bar, intents[0]);
        assert intents == [intents[0]];
      } else if |intents| == 2 {
        SettleTwo(opens, start, bar, intents[0], intents[1]);
        assert intents == [intents[0], intents[1]];
      }
    }

    lemma SettleOne(opens: seq<real>, desk: Desk, bar: Bar, i: Intent)
      requires Fits(opens, desk.acct)
      ensures SettleAll(opens, desk, bar, [i]) == Settle(opens, desk, bar, i, None)
    {
    }

    lemma SettleTwo(opens: seq<real>, desk: Desk, bar: Bar, i: Intent, j: Intent)
      requires Fits(opens, desk.acct)
      ensures SettleAll(opens, desk, bar, [i, j]) == Settle(opens, Settle(opens, desk, bar, i, None), bar, j, None)
    {
      assert [i, j][..1] == [i];
      SettleOne(opens, desk, bar, i);
    }
  }
}
