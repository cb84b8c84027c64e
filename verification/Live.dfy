/** One tick of the live driver as a function of everything it can see
    (`LiveDriver`, src/strategy/live.py). `trail` lists what would survive a crash: the
    state file and the broker, after every write to either. */
module Live {
  import opened Prelude
  import opened Sizing
  import opened Ledgers
  import opened Strategy
  import opened State
  import opened Brokers

  type Document = map<string, Json>

  datatype Durable<B> = Durable(file: Document, book: B)

  datatype Scene<B> = Scene(
    mem: Memory, closed: seq<real>, acct: Account, book: B, file: Document, trail: seq<Durable<B>>)

  /** What one tick is handed: the window's length against the length the features need,
      the key, signal and close of the bar that closed, its row, the next bar when a
      replay knows it, and why nothing new may be opened (empty when it may). */
  datatype Candles = Candles(
    have: nat, need: nat, key: int, act: Act, close: real, row: Bar, next: Option<Bar>, veto: string)

  datatype Mismatch = UnknownPosition | UnprovenExit | WrongDirection

  datatype Outcome = NotEnoughHistory | Noop | Refusal(why: Mismatch) | Decided

  predicate LiveAccount(acct: Account) {
    acct.barReturns == [] && acct.active == []
  }

  function StatusText(status: FillStatus): string {
    match status
    case Filled => "filled"
    case NoFill => "no_fill"
    case Rejected => "rejected"
  }

  function LowerChar(c: char): char {
    if 'A' <= c <= 'Z' then (c as int + 32) as char else c
  }

  function Lower(s: string): string {
    if |s| == 0 then "" else Lower(s[..|s| - 1]) + [LowerChar(s[|s| - 1])]
  }

  /** The state's own record says its last entry was rejected. */
  predicate SaysRejected(note: Option<Document>) {
    note.Some? && "status" in note.value && note.value["status"].JStr? && Lower(note.value["status"].s) == "rejected"
  }

  datatype Driver<!B> = Driver(machine: Machine, seam: Seam<B>, name: string, env: string) {

    function Saved(s: Scene<B>): Scene<B> {
      s.(file := AsDict(s.mem), trail := s.trail + [Durable(AsDict(s.mem), s.book)])
    }

    /** The broker did something; its new state survives a crash. */
    function Moved(s: Scene<B>, book: B): Scene<B> {
      s.(book := book, trail := s.trail + [Durable(s.file, book)])
    }

    function Settled(s: Scene<B>, bar: Bar, intent: Intent, price: Option<real>): (r: Scene<B>)
      requires LiveAccount(s.acct)
      ensures LiveAccount(r.acct)
    {
      var desk := machine.Settle([], Desk(s.mem.mind, s.acct), bar, intent, price);
      s.(mem := s.mem.(mind := desk.mind), acct := desk.acct)
    }

    /** Book an exit the broker made while the driver slept. */
    function AdoptExit(s: Scene<B>, bar: Bar): (r: Scene<B>)
      requires LiveAccount(s.acct)
      ensures LiveAccount(r.acct)
    {
      match s.mem.mind.position
      case None => s
      case Some(p) =>
        if !seam.position(s.book).IsFlat() then s
        else
          match seam.closingFill(s.book, p.short)
          case None => s
          case Some(closing) =>
            var reason := if closing.reason.Some? then closing.reason.value else Forced;
            Saved(Settled(s, bar, Close(reason, p.short, closing.price, Some(closing.price), 1.0, Some(0.0)),
                          Some(closing.price)))
    }

    function AdoptedPosition(s: Scene<B>, bar: Bar, px: real): Position {
      var short := seam.position(s.book).short;
      var (stop, take) := machine.Levels(px, short);
      var resting := seam.restingLevels(s.book);
      Position(bar.index, px, px, short,
               if resting.stop.Some? then resting.stop else stop,
               if resting.take.Some? then resting.take else take,
               if s.mem.mind.firstWeight == 0.0 then 1.0 else s.mem.mind.firstWeight,
               machine.config.stopLossPercent)
    }

    /** Take ownership of a position only the broker knows about. */
    function AdoptPosition(s: Scene<B>, bar: Bar): Scene<B> {
      var actual := seam.position(s.book);
      if s.mem.mind.position.Some? || actual.IsFlat() || !Truthy(actual.entryPrice) then s
      else
        var p := AdoptedPosition(s, bar, actual.entryPrice.value);
        Saved(s.(mem := s.mem.(mind := s.mem.mind.(position := Some(p)))))
    }

    /** Forget a position whose entry the broker is on record as having refused. */
    function DropNeverOpened(s: Scene<B>): Scene<B> {
      if s.mem.mind.position.None? || !SaysRejected(s.mem.unfilled) || !seam.position(s.book).IsFlat() then s
      else Saved(s.(mem := s.mem.(mind := s.mem.mind.(position := None), unfilled := None)))
    }

    function Reconcile(s: Scene<B>): Option<Mismatch> {
      var actual := seam.position(s.book);
      match s.mem.mind.position
      case None => if actual.IsFlat() then None else Some(UnknownPosition)
      case Some(p) =>
        if actual.IsFlat() then Some(UnprovenExit)
        else if p.short != actual.short then Some(WrongDirection)
        else None
    }

    function Note(bar: Bar, fill: Fill): Document {
      map["bar" := JKey(bar.time), "status" := JStr(StatusText(fill.status)), "detail" := JStr(fill.detail)]
    }

    /** What the driver records about an entry it submitted. */
    function AfterOpen(s: Scene<B>, bar: Bar, fill: Fill): Scene<B> {
      var refused := fill.status == Rejected;
      var position :=
        if refused then None
        else if fill.IsFilled() && s.mem.mind.position.Some? then
          var p := s.mem.mind.position.value;
          var (stop, take) := machine.Levels(fill.price.value, p.short);
          Some(p.(entryPrice := fill.price.value, stop := stop, take := take))
        else s.mem.mind.position;
      var note := if fill.IsFilled() || refused then None else Some(Note(bar, fill));
      var t := s.(mem := s.mem.(mind := s.mem.mind.(position := position), unfilled := note));
      if fill.IsFilled() && position.Some?
      then Moved(t, seam.repriceExits(t.book, Levels(position.value.stop, position.value.take)))
      else t
    }

    /** Submit one intent and record what came back. */
    function Act(s: Scene<B>, bar: Bar, intent: Intent, id: OrderId): (r: Scene<B>)
      requires LiveAccount(s.acct)
      ensures LiveAccount(r.acct)
    {
      if intent.Skip? then Settled(s, bar, intent, None)
      else if intent.Close? && s.mem.mind.position.None? then s
      else
        var (book, fill) := seam.submit(s.book, intent, id);
        var t := Moved(s, book);
        if intent.Open? then AfterOpen(t, bar, fill)
        else Settled(t.(mem := t.mem.(unfilled := None)), bar, intent, if fill.IsFilled() then fill.price else None)
    }

    /** The first `i` intents of a bar, in order, each under its own order id. */
    function ActOn(s: Scene<B>, bar: Bar, intents: seq<Intent>, key: int, i: nat): (r: Scene<B>)
      requires LiveAccount(s.acct) && i <= |intents|
      ensures LiveAccount(r.acct)
    {
      if i == 0 then s
      else Act(ActOn(s, bar, intents, key, i - 1), bar, intents[i - 1], OrderId(name, env, key, i - 1))
    }

    function FillBar(s: Scene<B>, c: Candles): Bar {
      if c.next.Some? then c.next.value else c.row.(index := s.mem.barIndex + 1, time := c.key)
    }

    /** Everything before the decision: the history grows, exits and positions the broker
        owns up to are adopted, an entry it refused is forgotten. */
    function Prepared(s: Scene<B>, c: Candles): (r: Scene<B>)
      requires LiveAccount(s.acct)
      ensures LiveAccount(r.acct)
    {
      var bar := FillBar(s, c);
      var s0 := s.(closed := Tail(s.closed + [c.close], machine.config.Keep()));
      DropNeverOpened(AdoptPosition(AdoptExit(s0, bar), bar))
    }

    /** The decision itself: step, act on every intent, remember the bar, save. */
    function DecideOn(s: Scene<B>, bar: Bar, c: Candles): (r: Scene<B>)
      requires LiveAccount(s.acct)
      ensures LiveAccount(r.acct)
    {
      var (mind, intents) := machine.Step(s.closed, s.mem.mind, bar, c.act, c.veto);
      var done := ActOn(s.(mem := s.mem.(mind := mind)), bar, intents, c.key, |intents|);
      Saved(done.(mem := done.mem.(barIndex := bar.index, last := JKey(c.key))))
    }

    function OnBarClosed(s: Scene<B>, c: Candles): (r: (Scene<B>, Outcome))
      requires LiveAccount(s.acct)
      ensures LiveAccount(r.0.acct)
    {
      if c.have < c.need then (s, NotEnoughHistory)
      else if s.mem.last == JKey(c.key) then (s, Noop)
      else
        var ready := Prepared(s, c);
        match Reconcile(ready)
        case Some(why) => (ready, Refusal(why))
        case None => (DecideOn(ready, FillBar(s, c), c), Decided)
    }
  }
}
