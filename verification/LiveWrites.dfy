/** What each step of a tick leaves in memory, in the file and at the broker, over any broker
    (src/strategy/live.py:185-407, 431-672), in the words of `TradeRules`. */
module LiveWrites {
  import opened Prelude
  import opened Sizing
  import opened Ledgers
  import opened Strategy
  import opened State
  import opened Brokers
  import opened Live
  import opened TradeRules
  import opened CrashSafety

  // -- an entry ------------------------------------------------------------------------------

  /** The position as paid for: the price the broker got, and both levels measured from it.
      Direction, size and raw price stay what was decided. */
  function PaidFor(c: StrategyConfig, p: Position, x: real): Position {
    p.(entryPrice := x, stop := StopLevel(c, x, p.short), take := TakeLevel(c, x, p.short))
  }

  /** A filled entry is remembered at the price it was filled at, and the broker is told to
      move its exits to exactly the levels remembered. Both broker states survive a crash. */
  lemma FilledEntryLeaves<B>(d: Driver<B>, s: Scene<B>, bar: Bar, intent: Intent, id: OrderId, p: Position, x: real)
    requires LiveAccount(s.acct) && intent.Open? && s.mem.mind.position == Some(p)
    requires d.seam.submit(s.book, intent, id).1.status == Filled && d.seam.submit(s.book, intent, id).1.price == Some(x)
    ensures var sent, q := d.seam.submit(s.book, intent, id).0, PaidFor(d.machine.config, p, x);
            var moved := d.seam.repriceExits(sent, Levels(q.stop, q.take));
            d.Act(s, bar, intent, id) ==
              s.(mem := s.mem.(mind := s.mem.mind.(position := Some(q)), unfilled := None), book := moved,
                 trail := s.trail + [Durable(s.file, sent)] + [Durable(s.file, moved)])
  {
    LevelsAreRuled(d.machine, x, p.short);
    hide Machine.Levels, StopLevel, TakeLevel;
  }

  /** An entry accepted and not filled keeps the position as decided, and a note of it. */
  lemma PendingEntryLeaves<B>(d: Driver<B>, s: Scene<B>, bar: Bar, intent: Intent, id: OrderId)
    requires LiveAccount(s.acct) && intent.Open?
    requires var fill := d.seam.submit(s.book, intent, id).1; fill.status == NoFill || (fill.status == Filled && fill.price.None?)
    ensures var (sent, fill) := d.seam.submit(s.book, intent, id);
            var t := d.Act(s, bar, intent, id);
            && t == s.(mem := t.mem, book := sent, trail := s.trail + [Durable(s.file, sent)])
            && t.mem == s.mem.(unfilled := t.mem.unfilled) && t.mem.unfilled.Some?
            && t.mem.unfilled.value.Keys == {"bar", "status", "detail"}
            && t.mem.unfilled.value["bar"] == JKey(bar.time) && t.mem.unfilled.value["detail"] == JStr(fill.detail)
            && t.mem.unfilled.value["status"] == JStr(if fill.status == NoFill then "no_fill" else "filled")
            && !SaysRejected(t.mem.unfilled)
  {
    assert Lower("no_fill") != "rejected" && Lower("filled") != "rejected" by {
      LowerKeepsLength("no_fill");
      LowerKeepsLength("filled");
    }
  }

  /** Letter case does not matter to a recorded status, and nothing else is overlooked. */
  lemma {:induction false} LowerKeepsLength(s: string)
    ensures |Lower(s)| == |s|
    ensures forall i :: 0 <= i < |s| ==> Lower(s)[i] == if 'A' <= s[i] <= 'Z' then (s[i] as int + 32) as char else s[i]
  {
    if |s| > 0 {
      LowerKeepsLength(s[..|s| - 1]);
    }
  }

  /** A refused entry leaves no position, no note, and sends nothing more. */
  lemma RefusedEntryLeaves<B>(d: Driver<B>, s: Scene<B>, bar: Bar, intent: Intent, id: OrderId)
    requires LiveAccount(s.acct) && intent.Open? && d.seam.submit(s.book, intent, id).1.status == Rejected
    ensures var sent := d.seam.submit(s.book, intent, id).0;
            d.Act(s, bar, intent, id) ==
              s.(mem := s.mem.(mind := s.mem.mind.(position := None), unfilled := None), book := sent,
                 trail := s.trail + [Durable(s.file, sent)])
  {
  }

  // -- an exit -------------------------------------------------------------------------------

  /** One row more: this position, ended on this bar, for this reason at this price. */
  predicate BooksOne(before: seq<Leg>, after: seq<Leg>, p: Position, at: int, reason: Reason, price: real) {
    && |after| == |before| + 1 && after[..|before|] == before
    && var leg := after[|before|];
       RowOf(p, leg) && Earns(leg) && leg.exitIdx == at && leg.reason == reason && leg.exitPrice == price
  }

  /** A close of a held position goes to the broker, is booked at what the broker got or else
      at the price expected, and leaves no position and no note. */
  lemma CloseLeaves<B>(d: Driver<B>, s: Scene<B>, bar: Bar, intent: Intent, id: OrderId, p: Position)
    requires LiveAccount(s.acct) && intent.Close? && s.mem.mind.position == Some(p)
    ensures var (sent, fill) := d.seam.submit(s.book, intent, id);
            var t := d.Act(s, bar, intent, id);
            && BooksOne(s.acct.legs, t.acct.legs, p, bar.index, intent.reason,
                        if fill.status == Filled && fill.price.Some? then fill.price.value else intent.expectedPrice)
            && t == s.(mem := s.mem.(mind := s.mem.mind.(position := None), unfilled := None), acct := t.acct, book := sent,
                       trail := s.trail + [Durable(s.file, sent)])
  {
    var fill := d.seam.submit(s.book, intent, id).1;
    var price := if fill.status == Filled && fill.price.Some? then fill.price.value else intent.expectedPrice;
    RowIsBooked(p, bar, intent.reason, price, d.machine);
  }

  lemma RowIsBooked(p: Position, bar: Bar, reason: Reason, price: real, m: Machine)
    ensures var leg := LegOf([], m.BookingFor(p, bar, reason, price));
            RowOf(p, leg) && Earns(leg) && leg.exitIdx == bar.index && leg.reason == reason && leg.exitPrice == price
  {
    GainIsReturn(p.short, p.entryPrice, price);
    Commutes(p.weight, PriceReturn(p.short, p.entryPrice, price));
    hide PriceReturn, Gain;
  }

  /** A close that finds nothing held sends nothing; a skipped entry is a row and no order. */
  lemma NothingIsSent<B>(d: Driver<B>, s: Scene<B>, bar: Bar, intent: Intent, id: OrderId)
    requires LiveAccount(s.acct)
    ensures intent.Close? && s.mem.mind.position.None? ==> d.Act(s, bar, intent, id) == s
    ensures intent.Skip? ==>
              d.Act(s, bar, intent, id)
              == s.(acct := s.acct.(legs := s.acct.legs + [Skipped(bar.index, intent.short, intent.why)]))
  {
  }

  // -- what the broker did meanwhile ---------------------------------------------------------

  /** An exit the broker proves, of a position it no longer holds, is booked at the proven
      price and reason, forced when none is given, and saved; without one nothing changes. */
  lemma ExitIsAdopted<B>(d: Driver<B>, s: Scene<B>, bar: Bar)
    requires LiveAccount(s.acct)
    ensures var t := d.AdoptExit(s, bar);
            match s.mem.mind.position
            case None => t == s
            case Some(p) =>
              var proof := d.seam.closingFill(s.book, p.short);
              if !d.seam.position(s.book).IsFlat() || proof.None? then t == s
              else
                && BooksOne(s.acct.legs, t.acct.legs, p, bar.index,
                            if proof.value.reason.None? then Forced else proof.value.reason.value, proof.value.price)
                && t.mem == s.mem.(mind := s.mem.mind.(position := None))
                && t.file == AsDict(t.mem) && t.book == s.book && t.trail == s.trail + [Durable(t.file, s.book)]
                && t.closed == s.closed
  {
    if s.mem.mind.position.Some? {
      var p := s.mem.mind.position.value;
      var proof := d.seam.closingFill(s.book, p.short);
      if proof.Some? {
        RowIsBooked(p, bar, if proof.value.reason.None? then Forced else proof.value.reason.value, proof.value.price, d.machine);
      }
    }
  }

  /** A position only the broker knows is taken on at the broker's price and direction, each
      level the broker's own where an exit rests there and otherwise measured from that price,
      at the first weight this strategy ever used; and it is saved. */
  lemma PositionIsAdopted<B>(d: Driver<B>, s: Scene<B>, bar: Bar)
    ensures var t, held, rest := d.AdoptPosition(s, bar), d.seam.position(s.book), d.seam.restingLevels(s.book);
            var c := d.machine.config;
            if s.mem.mind.position.Some? || held.IsFlat() || held.entryPrice.None? || held.entryPrice.value == 0.0 then t == s
            else
              var x, p := held.entryPrice.value, t.mem.mind.position;
              && p.Some? && p.value.short == held.short && p.value.entryIndex == bar.index
              && p.value.entryPrice == x && p.value.rawEntryPrice == x
              && p.value.stop == (if rest.stop.Some? then rest.stop else StopLevel(c, x, held.short))
              && p.value.take == (if rest.take.Some? then rest.take else TakeLevel(c, x, held.short))
              && p.value.stopPct == c.stopLossPercent
              && (if s.mem.mind.firstWeight == 0.0 then p.value.weight == 1.0 else p.value.weight == s.mem.mind.firstWeight)
              && t == s.(mem := s.mem.(mind := s.mem.mind.(position := p)), file := AsDict(t.mem),
                         trail := s.trail + [Durable(AsDict(t.mem), s.book)])
  {
    var held := d.seam.position(s.book);
    if Truthy(held.entryPrice) {
      LevelsAreRuled(d.machine, held.entryPrice.value, held.short);
    }
    hide Machine.Levels, StopLevel, TakeLevel, AsDict;
  }

  /** A remembered position goes without a trade exactly when its entry is on record as
      rejected and the broker is flat; position and record go together, and it is saved. */
  lemma NeverOpenedIsDropped<B>(d: Driver<B>, s: Scene<B>)
    ensures var t := d.DropNeverOpened(s);
            if s.mem.mind.position.Some? && SaysRejected(s.mem.unfilled) && d.seam.position(s.book).IsFlat()
            then t.mem == s.mem.(mind := s.mem.mind.(position := None), unfilled := None) && t.acct == s.acct
                 && t.file == AsDict(t.mem) && t.book == s.book && t.trail == s.trail + [Durable(t.file, s.book)]
                 && t.closed == s.closed
            else t == s
  {
  }

  // -- every write, one at a time ------------------------------------------------------------

  /** What crashes can leave, from `start` to `now`: each differs from the one before it by
      one write, and the last is where things stand. */
  ghost predicate Traced<B>(start: Durable<B>, trail: seq<Durable<B>>, now: Durable<B>) {
    if |trail| == 0 then now == start
    else
      var before := if |trail| == 1 then start else trail[|trail| - 2];
      trail[|trail| - 1] == now && (before.file == now.file || before.book == now.book)
      && Traced(start, trail[..|trail| - 1], before)
  }

  lemma OneMoreWrite<B>(start: Durable<B>, trail: seq<Durable<B>>, now: Durable<B>, next: Durable<B>)
    requires Traced(start, trail, now) && (now.file == next.file || now.book == next.book)
    ensures Traced(start, trail + [next], next)
  {
    assert (trail + [next])[..|trail|] == trail;
  }

  /** A scene whose trail is whole. */
  ghost predicate Whole<B>(start: Durable<B>, s: Scene<B>) {
    LiveAccount(s.acct) && Traced(start, s.trail, Durable(s.file, s.book))
  }

  lemma SavedIsWhole<B>(d: Driver<B>, start: Durable<B>, s: Scene<B>)
    requires Whole(start, s)
    ensures Whole(start, d.Saved(s))
  {
    OneMoreWrite(start, s.trail, Durable(s.file, s.book), Durable(AsDict(s.mem), s.book));
  }

  lemma MovedIsWhole<B>(d: Driver<B>, start: Durable<B>, s: Scene<B>, book: B)
    requires Whole(start, s)
    ensures Whole(start, d.Moved(s, book))
  {
    OneMoreWrite(start, s.trail, Durable(s.file, s.book), Durable(s.file, book));
  }

  lemma AdoptExitIsWhole<B>(d: Driver<B>, start: Durable<B>, s: Scene<B>, bar: Bar)
    requires Whole(start, s)
    ensures Whole(start, d.AdoptExit(s, bar))
  {
    ExitIsAdopted(d, s, bar);
    var t := d.AdoptExit(s, bar);
    hide Driver.AdoptExit, BooksOne, Traced;
    if t != s {
      SavedIsWhole(d, start, s.(mem := t.mem, acct := t.acct));
    }
  }

  lemma AdoptPositionIsWhole<B>(d: Driver<B>, start: Durable<B>, s: Scene<B>, bar: Bar)
    requires Whole(start, s)
    ensures Whole(start, d.AdoptPosition(s, bar))
  {
    PositionIsAdopted(d, s, bar);
    var t := d.AdoptPosition(s, bar);
    hide Driver.AdoptPosition, Traced, StopLevel, TakeLevel;
    if t != s {
      SavedIsWhole(d, start, s.(mem := t.mem));
    }
  }

  lemma DropIsWhole<B>(d: Driver<B>, start: Durable<B>, s: Scene<B>)
    requires Whole(start, s)
    ensures Whole(start, d.DropNeverOpened(s))
  {
    NeverOpenedIsDropped(d, s);
    var t := d.DropNeverOpened(s);
    hide Driver.DropNeverOpened, Traced;
    if t != s {
      SavedIsWhole(d, start, s.(mem := t.mem));
    }
  }

  lemma PreparedIsWhole<B>(d: Driver<B>, start: Durable<B>, s: Scene<B>, c: Candles)
    requires Whole(start, s)
    ensures Whole(start, d.Prepared(s, c))
  {
    hide Driver.AdoptExit, Driver.AdoptPosition, Driver.DropNeverOpened, Traced;
    var bar := d.FillBar(s, c);
    var s0 := s.(closed := Tail(s.closed + [c.close], d.machine.config.Keep()));
    AdoptExitIsWhole(d, start, s0, bar);
    AdoptPositionIsWhole(d, start, d.AdoptExit(s0, bar), bar);
    DropIsWhole(d, start, d.AdoptPosition(d.AdoptExit(s0, bar), bar));
  }

  lemma AfterOpenIsWhole<B>(d: Driver<B>, start: Durable<B>, s: Scene<B>, bar: Bar, fill: Fill)
    requires Whole(start, s)
    ensures Whole(start, d.AfterOpen(s, bar, fill))
  {
    hide Traced, Machine.Levels;
    var t := d.AfterOpen(s, bar, fill);
    if |t.trail| > |s.trail| {
      MovedIsWhole(d, start, s.(mem := t.mem), t.book);
    }
  }

  lemma ActIsWhole<B>(d: Driver<B>, start: Durable<B>, s: Scene<B>, bar: Bar, intent: Intent, id: OrderId)
    requires Whole(start, s)
    ensures Whole(start, d.Act(s, bar, intent, id))
  {
    hide Traced, Driver.AfterOpen;
    var (book, fill) := d.seam.submit(s.book, intent, id);
    MovedIsWhole(d, start, s, book);
    AfterOpenIsWhole(d, start, d.Moved(s, book), bar, fill);
  }

  lemma {:induction false} ActOnIsWhole<B>(d: Driver<B>, start: Durable<B>, s: Scene<B>, bar: Bar, intents: seq<Intent>, key: int, i: nat)
    requires Whole(start, s) && i <= |intents|
    ensures Whole(start, d.ActOn(s, bar, intents, key, i))
  {
    hide Driver.Act, Traced;
    if i > 0 {
      ActOnIsWhole(d, start, s, bar, intents, key, i - 1);
      ActIsWhole(d, start, d.ActOn(s, bar, intents, key, i - 1), bar, intents[i - 1], OrderId(d.name, d.env, key, i - 1));
    }
  }

  lemma DecideIsWhole<B>(d: Driver<B>, start: Durable<B>, s: Scene<B>, bar: Bar, c: Candles)
    requires Whole(start, s)
    ensures Whole(start, d.DecideOn(s, bar, c))
  {
    hide Traced, Driver.ActOn, AsDict;
    var (mind, intents) := d.machine.Step(s.closed, s.mem.mind, bar, c.act, c.veto);
    var s0 := s.(mem := s.mem.(mind := mind));
    ActOnIsWhole(d, start, s0, bar, intents, c.key, |intents|);
    var done := d.ActOn(s0, bar, intents, c.key, |intents|);
    SavedIsWhole(d, start, done.(mem := done.mem.(barIndex := bar.index, last := JKey(c.key))));
  }

  /** What a decision saves is its own memory: a restart reads back the position, the bar
      and the key. */
  lemma DecisionIsSaved<B>(d: Driver<B>, s: Scene<B>, bar: Bar, c: Candles)
    requires LiveAccount(s.acct)
    ensures var t := d.DecideOn(s, bar, c);
            && t.file == AsDict(t.mem) && t.mem.last == JKey(c.key) && t.mem.barIndex == bar.index
            && FromDict(t.file).Some? && FromDict(t.file).value.mind.position == t.mem.mind.position
            && FromDict(t.file).value.last == JKey(c.key) && FromDict(t.file).value.barIndex == bar.index
  {
    hide Driver.ActOn, Machine.Step, AsDict, FromDict;
    Restored(d.DecideOn(s, bar, c).mem);
  }

  /** Every order of a bar goes out under the bar's own key and its place among that bar's
      intents, so that no two share a name. */
  lemma OrdersAreNamed<B>(d: Driver<B>, s: Scene<B>, bar: Bar, c: Candles)
    requires LiveAccount(s.acct)
    ensures var (mind, intents) := d.machine.Step(s.closed, s.mem.mind, bar, c.act, c.veto);
            var s0 := s.(mem := s.mem.(mind := mind));
            && |intents| <= 2
            && (forall i: nat, j: nat :: OrderId(d.name, d.env, c.key, i) == OrderId(d.name, d.env, c.key, j) ==> i == j)
            && d.ActOn(s0, bar, intents, c.key, |intents|) ==
                 if |intents| == 0 then s0
                 else
                   var s1 := d.Act(s0, bar, intents[0], OrderId(d.name, d.env, c.key, 0));
                   if |intents| == 1 then s1 else d.Act(s1, bar, intents[1], OrderId(d.name, d.env, c.key, 1))
  {
    var (mind, intents) := d.machine.Step(s.closed, s.mem.mind, bar, c.act, c.veto);
    d.machine.OpenIsFirst(s.closed, s.mem.mind, bar, c.act, c.veto);
    hide Driver.Act, Machine.Step;
    var s0 := s.(mem := s.mem.(mind := mind));
    assert d.ActOn(s0, bar, intents, c.key, 0) == s0;
    if |intents| == 2 {
      assert d.ActOn(s0, bar, intents, c.key, 1) == d.Act(s0, bar, intents[0], OrderId(d.name, d.env, c.key, 0));
    }
  }

  /** A tick writes one thing at a time, every write is one a crash can stop after, and the
      last of them is how it ends. One that decides ends by saving its own memory; one that
      has nothing to decide writes nothing. */
  lemma OneWriteAtATime<B>(d: Driver<B>, s: Scene<B>, c: Candles)
    requires LiveAccount(s.acct) && s.trail == []
    ensures var (t, outcome) := d.OnBarClosed(s, c);
            && Traced(Durable(s.file, s.book), t.trail, Durable(t.file, t.book))
            && (outcome == Decided ==>
                  && FromDict(t.file).Some? && FromDict(t.file).value.mind.position == t.mem.mind.position
                  && FromDict(t.file).value.last == JKey(c.key)
                  && FromDict(t.file).value.barIndex == if c.next.Some? then c.next.value.index else s.mem.barIndex + 1)
            && (outcome == NotEnoughHistory || outcome == Noop ==> t == s)
            && (outcome == NotEnoughHistory <==> c.have < c.need)
            && (outcome == Noop <==> c.have >= c.need && s.mem.last == JKey(c.key))
  {
    var start := Durable(s.file, s.book);
    assert Whole(start, s);
    hide Traced, Driver.Prepared, Driver.DecideOn, AsDict, FromDict;
    PreparedIsWhole(d, start, s, c);
    DecideIsWhole(d, start, d.Prepared(s, c), d.FillBar(s, c), c);
    DecisionIsSaved(d, d.Prepared(s, c), d.FillBar(s, c), c);
  }

  // -- a halt ----------------------------------------------------------------------------------

  /** A reason not to open anything stops entries and nothing else: what is held is decided as
      ever, and an entry the signal wanted becomes a skipped row with that reason. */
  lemma HaltStopsOnlyEntries(m: Machine, closed: seq<real>, mind: Mind, bar: Bar, act: Act, why: string)
    requires why != ""
    ensures var (next, intents) := m.Step(closed, mind, bar, act, why);
            && next == mind
            && (mind.position.Some? ==> intents == m.Step(closed, mind, bar, act, "").1)
            && (mind.position.None? ==>
                  intents == if act == Buy then [Skip(why, false)]
                             else if act == Sell && m.config.allowShort then [Skip(why, true)] else [])
  {
  }

  /** Nothing is bought in a tick under a halt, whatever else happens in it. */
  ghost predicate BuysNothing<W>(filled: seq<FilledEntry>, s: Scene<Venue<W>>) {
    && LiveAccount(s.acct) && s.book.filled == filled
    && forall t :: t in s.trail ==> t.book.filled == filled
  }

  lemma {:induction false} NoOpenBuysNothing<W(!new)>(d: Driver<Venue<W>>, s: Scene<Venue<W>>, bar: Bar, intents: seq<Intent>,
                                                      key: int, n: nat, filled: seq<FilledEntry>)
    requires Lawful(d.seam) && BuysNothing(filled, s) && n <= |intents|
    requires forall i :: 0 <= i < |intents| ==> !intents[i].Open?
    ensures BuysNothing(filled, d.ActOn(s, bar, intents, key, n))
  {
    if n > 0 {
      NoOpenBuysNothing(d, s, bar, intents, key, n - 1, filled);
      var before := d.ActOn(s, bar, intents, key, n - 1);
      assert d.seam.submit(before.book, intents[n - 1], OrderId(d.name, d.env, key, n - 1)).0.filled == before.book.filled;
    }
  }

  lemma PreparingBuysNothing<W(!new)>(d: Driver<Venue<W>>, s: Scene<Venue<W>>, c: Candles)
    requires BuysNothing(s.book.filled, s)
    ensures BuysNothing(s.book.filled, d.Prepared(s, c)) && d.Prepared(s, c).book == s.book
  {
  }

  lemma HaltedTickBuysNothing<W(!new)>(d: Driver<Venue<W>>, s: Scene<Venue<W>>, c: Candles)
    requires Lawful(d.seam) && BuysNothing(s.book.filled, s) && c.veto != ""
    ensures BuysNothing(s.book.filled, d.OnBarClosed(s, c).0)
  {
    var ready, bar := d.Prepared(s, c), d.FillBar(s, c);
    PreparingBuysNothing(d, s, c);
    hide Driver.Prepared, Driver.ActOn, Machine.Step;
    var (mind, intents) := d.machine.Step(ready.closed, ready.mem.mind, bar, c.act, c.veto);
    HaltStopsOnlyEntries(d.machine, ready.closed, ready.mem.mind, bar, c.act, c.veto);
    NoOpenBuysNothing(d, ready.(mem := ready.mem.(mind := mind)), bar, intents, c.key, |intents|, s.book.filled);
  }

  /** While every tick is under a halt, no entry is ever filled, through crashes, restarts,
      lost files and whatever else happens to the account. */
  lemma {:induction false} HaltedRunBuysNothing<W(!new)>(d: Driver<Venue<W>>, w: World<W>, run: seq<Happening<W>>)
    requires Lawful(d.seam) && forall i :: 0 <= i < |run| && run[i].Tick? ==> run[i].c.veto != ""
    ensures Outcomes(d, w, run).venue.filled == w.venue.filled
  {
    if |run| > 0 {
      HaltedRunBuysNothing(d, w, run[..|run| - 1]);
      var now := Outcomes(d, w, run[..|run| - 1]);
      if run[|run| - 1].Tick? && FromDict(now.file).Some? {
        var s := Scene(FromDict(now.file).value, [], EmptyAccount(0), now.venue, now.file, []);
        HaltedTickBuysNothing(d, s, run[|run| - 1].c);
        hide Driver.OnBarClosed, Lawful;
      }
    }
  }
}
