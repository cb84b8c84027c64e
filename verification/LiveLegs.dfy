/** What the live ledger's legs mean: an adopted exit is booked at the price the account
    really got, a leg of a decision is a real exit exactly when its close was filled, and an
    entry is tested against the range of the bar that signalled it. */
module LiveLegs {
  import opened Prelude
  import opened Sizing
  import opened Ledgers
  import opened Strategy
  import opened State
  import opened Brokers
  import opened Live
  import opened CrashSafety
  import opened Recovery
  import opened Returns

  // -- an adopted exit -------------------------------------------------------------------

  predicate Extends(before: seq<Leg>, after: seq<Leg>) {
    |before| <= |after| && after[..|before|] == before
  }

  lemma ActExtends<B>(d: Driver<B>, s: Scene<B>, bar: Bar, intent: Intent, id: OrderId)
    requires LiveAccount(s.acct)
    ensures Extends(s.acct.legs, d.Act(s, bar, intent, id).acct.legs)
  {
  }

  lemma {:induction false} ActOnExtends<B>(d: Driver<B>, s: Scene<B>, bar: Bar, intents: seq<Intent>, key: int, n: nat)
    requires LiveAccount(s.acct) && n <= |intents|
    ensures Extends(s.acct.legs, d.ActOn(s, bar, intents, key, n).acct.legs)
  {
    hide Driver.Act;
    if n > 0 {
      ActOnExtends(d, s, bar, intents, key, n - 1);
      ActExtends(d, d.ActOn(s, bar, intents, key, n - 1), bar, intents[n - 1], OrderId(d.name, d.env, key, n - 1));
    }
  }

  lemma TickExtends<B>(d: Driver<B>, s: Scene<B>, c: Candles)
    requires LiveAccount(s.acct) && c.have >= c.need && s.mem.last != JKey(c.key)
    ensures Extends(d.Prepared(s, c).acct.legs, d.OnBarClosed(s, c).0.acct.legs)
  {
    hide Driver.Prepared, Driver.ActOn;
    var ready, bar := d.Prepared(s, c), d.FillBar(s, c);
    var (mind, intents) := d.machine.Step(ready.closed, ready.mem.mind, bar, c.act, c.veto);
    ActOnExtends(d, ready.(mem := ready.mem.(mind := mind)), bar, intents, c.key, |intents|);
  }

  /** The position's row, closed at the price of the account's last exit. */
  predicate BooksTheExit(leg: Leg, p: Position, exit: Exit) {
    && leg.Trade? && leg.entryIdx == p.entryIndex && leg.entryPrice == p.entryPrice
    && leg.short == p.short == exit.short && leg.exitPrice == exit.price && leg.weight == p.weight
  }

  lemma AdoptionBooksTheExit<W(!new)>(d: Driver<Venue<W>>, s: Scene<Venue<W>>, c: Candles, p: Position)
    requires LiveAccount(s.acct) && s.acct.legs == [] && s.mem.mind.position == Some(p) && Proves(d.seam, s.book, p.short)
    requires d.seam.position(s.book).IsFlat()
    ensures var legs := d.Prepared(s, c).acct.legs;
            |legs| == 1 && BooksTheExit(legs[0], p, s.book.exits[|s.book.exits| - 1])
  {
  }

  /** After any plausible run — a crash between a close and its save, a resting exit that
      filled while nothing ran — a tick that finds the account flat under a remembered
      position books that position first, at the price it really ended at. */
  lemma ExitIsBookedAtThePricePaid<W(!new)>(d: Driver<Venue<W>>, ok: Venue<W> -> bool, w: World<W>, run: seq<Happening<W>>,
                                            c: Candles, p: Position)
    requires Honest(d.seam, ok) && Reconcilable(d.seam, ok, w.file, w.venue) && PlausibleRun(d, ok, w, run)
    ensures var now := Outcomes(d, w, run);
            && FromDict(now.file).Some?
            && (FromDict(now.file).value.mind.position == Some(p) && now.venue.held.None?
                && c.have >= c.need && FromDict(now.file).value.last != JKey(c.key) ==>
                  var legs := d.OnBarClosed(SceneOf(now), c).0.acct.legs;
                  |legs| > 0 && |now.venue.exits| > 0 && BooksTheExit(legs[0], p, now.venue.exits[|now.venue.exits| - 1]))
  {
    hide Driver.OnBarClosed, Driver.Prepared, Outcomes, BooksTheExit, Proves;
    var now := Outcomes(d, w, run);
    StaysReconcilable(d, ok, w, run);
    if FromDict(now.file).value.mind.position == Some(p) && now.venue.held.None?
       && c.have >= c.need && FromDict(now.file).value.last != JKey(c.key) {
      assert Proves(d.seam, now.venue, p.short);
      AdoptionBooksTheExit(d, SceneOf(now), c, p);
      TickExtends(d, SceneOf(now), c);
      assert |now.venue.exits| > 0 by {
        ProofNeedsAnExit(d.seam, now.venue, p.short);
      }
      assert d.OnBarClosed(SceneOf(now), c).0.acct.legs[..1][0] == d.Prepared(SceneOf(now), c).acct.legs[0];
    }
  }

  lemma ProofNeedsAnExit<W>(seam: Seam<Venue<W>>, v: Venue<W>, short: bool)
    requires Proves(seam, v, short)
    ensures |v.exits| > 0
  {
  }

  // -- a leg of a decision -----------------------------------------------------------------

  /** What a decision may book: nothing while no position ended; a refused entry; or one
      trade, which is a real exit when the account is flat afterwards and otherwise only
      what the driver believes. */
  ghost predicate BooksAtMostOne<W>(s: Scene<Venue<W>>, t: Scene<Venue<W>>) {
    || (t.acct.legs == s.acct.legs && t.book.exits == s.book.exits)
    || (|t.acct.legs| == |s.acct.legs| + 1 && Extends(s.acct.legs, t.acct.legs)
        && var leg := t.acct.legs[|s.acct.legs|];
        if leg.Skipped? then t.book.exits == s.book.exits
        else
          && t.mem.mind.position.None?
          && if t.book.held.None? then t.book.exits == s.book.exits + [Exit(leg.short, leg.exitPrice)]
             else t.book.exits == s.book.exits && t.book.held.value.short == leg.short)
  }

  /** The scene's memory matches an account in order, or is flat because nothing was held
      or an unfilled close was believed. */
  ghost predicate Acting<W>(ok: Venue<W> -> bool, s: Scene<Venue<W>>) {
    LiveAccount(s.acct) && ok(s.book) && Backed(s)
  }

  lemma CloseBooks<W(!new)>(d: Driver<Venue<W>>, ok: Venue<W> -> bool, s: Scene<Venue<W>>, bar: Bar, intent: Intent, id: OrderId)
    requires Honest(d.seam, ok) && Acting(ok, s) && intent.Close?
    ensures var t := d.Act(s, bar, intent, id);
            && Acting(ok, t) && t.mem.mind.position.None?
            && if s.mem.mind.position.None? then t == s
               else BooksAtMostOne(s, t) && |t.acct.legs| == |s.acct.legs| + 1 && t.acct.legs[|s.acct.legs|].Trade?
  {
    if s.mem.mind.position.Some? {
      var (v, fill) := d.seam.submit(s.book, intent, id);
      assert ClosesHonestly(d.seam, s.book, v, fill);
    }
  }

  lemma OpenBooksNothing<W(!new)>(d: Driver<Venue<W>>, ok: Venue<W> -> bool, s: Scene<Venue<W>>, bar: Bar, intent: Intent, id: OrderId)
    requires Honest(d.seam, ok) && LiveAccount(s.acct) && ok(s.book) && intent.Open? && s.book.held.None?
    requires s.mem.mind.position.Some? && s.mem.mind.position.value.short == intent.short
    ensures var t := d.Act(s, bar, intent, id);
            Acting(ok, t) && t.acct.legs == s.acct.legs && t.book.exits == s.book.exits
  {
    var (v, fill) := d.seam.submit(s.book, intent, id);
    assert OpensHonestly(s.book, v, fill, intent.short) && ok(v);
    forall levels: Levels
      ensures ok(d.seam.repriceExits(v, levels)) && d.seam.repriceExits(v, levels).held == v.held
              && d.seam.repriceExits(v, levels).exits == v.exits
    {
    }
  }

  lemma FirstBooks<W(!new)>(d: Driver<Venue<W>>, ok: Venue<W> -> bool, s: Scene<Venue<W>>, bar: Bar, c: Candles)
    requires Honest(d.seam, ok) && LiveAccount(s.acct) && ok(s.book) && InStep(s)
    requires |d.machine.Step(s.closed, s.mem.mind, bar, c.act, c.veto).1| > 0
    ensures var (mind, intents) := d.machine.Step(s.closed, s.mem.mind, bar, c.act, c.veto);
            var t := d.Act(s.(mem := s.mem.(mind := mind)), bar, intents[0], OrderId(d.name, d.env, c.key, 0));
            && Acting(ok, t) && BooksAtMostOne(s, t)
            && (t.acct.legs != s.acct.legs ==> t.mem.mind.position.None?)
  {
    var (mind, intents) := d.machine.Step(s.closed, s.mem.mind, bar, c.act, c.veto);
    d.machine.OpenIsFirst(s.closed, s.mem.mind, bar, c.act, c.veto);
    var s0, id := s.(mem := s.mem.(mind := mind)), OrderId(d.name, d.env, c.key, 0);
    match intents[0] {
      case Open(_, _, _, _, _, _) => OpenBooksNothing(d, ok, s0, bar, intents[0], id);
      case Close(_, _, _, _, _, _) => CloseBooks(d, ok, s0, bar, intents[0], id);
      case Skip(_, _) =>
    }
  }

  /** A decision books at most one leg, and a trade among them is a real exit — the account
      went flat, at the leg's own price — exactly when the close was filled. */
  lemma DecisionBooks<W(!new)>(d: Driver<Venue<W>>, ok: Venue<W> -> bool, s: Scene<Venue<W>>, bar: Bar, c: Candles)
    requires Honest(d.seam, ok) && LiveAccount(s.acct) && ok(s.book) && InStep(s)
    ensures ok(d.DecideOn(s, bar, c).book) && BooksAtMostOne(s, d.DecideOn(s, bar, c))
  {
    hide Driver.Act, Machine.Step, Honest, AsDict;
    var (mind, intents) := d.machine.Step(s.closed, s.mem.mind, bar, c.act, c.veto);
    d.machine.OpenIsFirst(s.closed, s.mem.mind, bar, c.act, c.veto);
    var s0 := s.(mem := s.mem.(mind := mind));
    if |intents| > 0 {
      var s1 := d.Act(s0, bar, intents[0], OrderId(d.name, d.env, c.key, 0));
      assert d.ActOn(s0, bar, intents, c.key, 0) == s0;
      assert d.ActOn(s0, bar, intents, c.key, 1) == s1;
      FirstBooks(d, ok, s, bar, c);
      if |intents| == 2 {
        CloseBooks(d, ok, s1, bar, intents[1], OrderId(d.name, d.env, c.key, 1));
      }
    }
  }

  /** A close that was not filled is booked all the same, and the position comes back: the
      next tick takes it on again, so it can be booked a second time. One position yields
      one leg exactly when its close is filled. */
  lemma UnfilledCloseComesBack<W(!new)>(d: Driver<Venue<W>>, ok: Venue<W> -> bool, s: Scene<Venue<W>>, bar: Bar, c: Candles, next: Candles)
    requires Honest(d.seam, ok) && LiveAccount(s.acct) && ok(s.book) && InStep(s)
    ensures var t := d.DecideOn(s, bar, c);
            |t.acct.legs| > |s.acct.legs| && t.acct.legs[|s.acct.legs|].Trade? ==>
              var again := d.Prepared(t, next).mem.mind.position;
              if t.book.exits == s.book.exits
              then again.Some? && again.value.short == t.acct.legs[|s.acct.legs|].short
              else again.None? && t.book.held.None?
  {
    hide Driver.DecideOn;
    DecisionBooks(d, ok, s, bar, c);
  }

  // -- the signal bar tests the entry --------------------------------------------------------

  /** The loop hands the driver no next bar, so an entry is priced at the open of the bar
      that signalled it and its levels are tested against that bar's range. Exactly when the
      same tick then closes what it has just opened. */
  lemma EntryIsTestedAgainstItsSignalBar<B>(d: Driver<B>, s: Scene<B>, c: Candles)
    requires c.next.None? && s.mem.mind.position.None?
    ensures var (mind, intents) := d.machine.Step(s.closed, s.mem.mind, d.FillBar(s, c), c.act, c.veto);
            (|intents| == 2 && intents[0].Open? && intents[1].Close?)
            <==> d.machine.Entering(c.act).Some? && c.veto == ""
                 && d.machine.LevelHit(d.machine.NewPosition(s.closed, d.FillBar(s, c), d.machine.Entering(c.act).value), c.row).Some?
  {
  }

  /** Open 100, low 90, a 2% stop and a BUY: bought at 100 and stopped at 98 in one tick. */
  lemma BoughtAndStoppedAtOnce<B>(d: Driver<B>, s: Scene<B>, time: int)
    requires d.machine.config == STOP_OF_TWO && s.mem.mind == FRESH_MIND
    ensures var row := Bar(0, time, 100.0, 101.0, Some(102.0), Some(90.0));
            var c := Candles(1, 1, time, Buy, 101.0, row, None, "");
            var intents := d.machine.Step(s.closed, s.mem.mind, d.FillBar(s, c), c.act, c.veto).1;
            |intents| == 2 && intents[0].Open? && intents[0].expectedPrice == 100.0
            && intents[1].Close? && intents[1].reason == Stop && intents[1].expectedPrice == 98.0
  {
    hide Machine.NewPosition;
    var row := Bar(0, time, 100.0, 101.0, Some(102.0), Some(90.0));
    var c := Candles(1, 1, time, Buy, 101.0, row, None, "");
    LongBehindTwoPercent(d.machine, s.closed, d.FillBar(s, c));
  }
}
