/** What the driver remembers of a position is what the account paid for it, in every run of
    ticks, crashes and restarts (src/strategy/live.py:245-323, 537-672). */
module PricesPaid {
  import opened Prelude
  import opened Sizing
  import opened Ledgers
  import opened Strategy
  import opened State
  import opened Brokers
  import opened Live
  import opened CrashSafety
  import opened Recovery

  /** From flat, an account that fills an entry answers with the price it holds it at. */
  ghost predicate FillsAtOnce<W>(w: Venue<W>, fill: Fill, short: bool) {
    w.held.Some? ==> fill.IsFilled() && w.held == Some(Holding(short, fill.price))
  }

  /** While in order, the account reports the price of what it holds, as it does its fills. */
  ghost predicate Quotes<W(!new)>(seam: Seam<Venue<W>>, ok: Venue<W> -> bool) {
    && (forall v: Venue<W> :: ok(v) && v.held.Some? ==> seam.position(v).entryPrice == v.held.value.price)
    && (forall v: Venue<W>, i: Intent, id: OrderId :: ok(v) && i.Open? && v.held.None? ==>
          FillsAtOnce(seam.submit(v, i, id).0, seam.submit(v, i, id).1, i.short))
  }

  /** A position and what the account holds, where both exist, are the same direction at the
      same price. */
  predicate HeldFor<W>(position: Option<Position>, v: Venue<W>) {
    position.Some? && v.held.Some? ==> v.held == Some(Holding(position.value.short, Some(position.value.entryPrice)))
  }

  predicate Matches<W>(file: Document, v: Venue<W>) {
    FromDict(file).Some? && HeldFor(FromDict(file).value.mind.position, v)
  }

  /** So does every state a crash in this tick could leave. */
  ghost predicate AllMatch<W>(s: Scene<Venue<W>>) {
    && LiveAccount(s.acct) && Matches(s.file, s.book)
    && forall t :: t in s.trail ==> Matches(t.file, t.book)
  }

  lemma SavedMatches<W(!new)>(d: Driver<Venue<W>>, s: Scene<Venue<W>>)
    requires AllMatch(s) && HeldFor(s.mem.mind.position, s.book)
    ensures AllMatch(d.Saved(s))
  {
    SavedReadsBack(s.mem);
  }

  lemma MovedMatches<W(!new)>(d: Driver<Venue<W>>, s: Scene<Venue<W>>, v: Venue<W>)
    requires AllMatch(s) && Matches(s.file, v)
    ensures AllMatch(d.Moved(s, v))
  {
  }

  lemma PreparedMatches<W(!new)>(d: Driver<Venue<W>>, ok: Venue<W> -> bool, s: Scene<Venue<W>>, c: Candles)
    requires Honest(d.seam, ok) && Quotes(d.seam, ok) && ok(s.book)
    requires AllMatch(s) && HeldFor(s.mem.mind.position, s.book)
    ensures AllMatch(d.Prepared(s, c)) && HeldFor(d.Prepared(s, c).mem.mind.position, s.book)
  {
    hide Matches;
    var bar := d.FillBar(s, c);
    var s0 := s.(closed := Tail(s.closed + [c.close], d.machine.config.Keep()));
    var s1 := d.AdoptExit(s0, bar);
    if s0.mem.mind.position.Some? && d.seam.position(s0.book).IsFlat() && s1.trail != s0.trail {
      SavedMatches(d, s0.(mem := s1.mem, acct := s1.acct));
    }
    AdoptPositionMatches(d, ok, s1, bar);
    var s2 := d.AdoptPosition(s1, bar);
    var s3 := d.DropNeverOpened(s2);
    if s3.trail != s2.trail {
      SavedMatches(d, s2.(mem := s3.mem));
    }
  }

  lemma AdoptPositionMatches<W(!new)>(d: Driver<Venue<W>>, ok: Venue<W> -> bool, s: Scene<Venue<W>>, bar: Bar)
    requires Honest(d.seam, ok) && Quotes(d.seam, ok) && ok(s.book)
    requires AllMatch(s) && HeldFor(s.mem.mind.position, s.book)
    ensures AllMatch(d.AdoptPosition(s, bar)) && HeldFor(d.AdoptPosition(s, bar).mem.mind.position, s.book)
  {
    hide Matches;
    var t := d.AdoptPosition(s, bar);
    if t.trail != s.trail {
      SavedMatches(d, s.(mem := t.mem));
    }
  }

  lemma CloseMatches<W(!new)>(d: Driver<Venue<W>>, ok: Venue<W> -> bool, s: Scene<Venue<W>>, bar: Bar, intent: Intent, id: OrderId)
    requires Honest(d.seam, ok) && ok(s.book) && AllMatch(s) && Backed(s) && intent.Close?
    ensures AllMatch(d.Act(s, bar, intent, id)) && d.Act(s, bar, intent, id).mem.mind.position.None?
  {
    if s.mem.mind.position.Some? {
      var (v, fill) := d.seam.submit(s.book, intent, id);
      assert ClosesHonestly(d.seam, s.book, v, fill);
      MovedMatches(d, s, v);
    }
  }

  lemma OpenMatches<W(!new)>(d: Driver<Venue<W>>, ok: Venue<W> -> bool, s: Scene<Venue<W>>, bar: Bar, intent: Intent, id: OrderId)
    requires Honest(d.seam, ok) && Quotes(d.seam, ok) && ok(s.book) && AllMatch(s) && intent.Open?
    requires s.book.held.None? && FromDict(s.file).value.mind.position.None?
    requires s.mem.mind.position.Some? && s.mem.mind.position.value.short == intent.short
    ensures var t := d.Act(s, bar, intent, id);
            AllMatch(t) && HeldFor(t.mem.mind.position, t.book) && Backed(t) && ok(t.book)
  {
    var (v, fill) := d.seam.submit(s.book, intent, id);
    assert FillsAtOnce(v, fill, intent.short) && OpensHonestly(s.book, v, fill, intent.short) && ok(v);
    MovedMatches(d, s, v);
    var sent := d.Moved(s, v);
    forall levels: Levels
      ensures Matches(s.file, d.seam.repriceExits(v, levels)) && d.seam.repriceExits(v, levels).held == v.held
              && ok(d.seam.repriceExits(v, levels))
    {
    }
    hide Quotes, Honest, Matches;
  }

  lemma DecideMatches<W(!new)>(d: Driver<Venue<W>>, ok: Venue<W> -> bool, s: Scene<Venue<W>>, bar: Bar, c: Candles)
    requires Honest(d.seam, ok) && Quotes(d.seam, ok) && ok(s.book) && AllMatch(s) && InStep(s)
    requires HeldFor(s.mem.mind.position, s.book) && FromDict(s.file).value.mind.position == s.mem.mind.position
    ensures AllMatch(d.DecideOn(s, bar, c))
  {
    var (mind, intents) := d.machine.Step(s.closed, s.mem.mind, bar, c.act, c.veto);
    d.machine.OpenIsFirst(s.closed, s.mem.mind, bar, c.act, c.veto);
    var s0 := s.(mem := s.mem.(mind := mind));
    var done := d.ActOn(s0, bar, intents, c.key, |intents|);
    if |intents| == 0 {
      assert done == s0;
    } else {
      FirstActMatches(d, ok, s, bar, c);
      var s1 := d.Act(s0, bar, intents[0], OrderId(d.name, d.env, c.key, 0));
      assert d.ActOn(s0, bar, intents, c.key, 0) == s0;
      assert d.ActOn(s0, bar, intents, c.key, 1) == s1;
      if |intents| == 2 {
        CloseMatches(d, ok, s1, bar, intents[1], OrderId(d.name, d.env, c.key, 1));
      }
    }
    hide Quotes, Honest, Machine.Step, Driver.Act, Driver.ActOn;
    SavedMatches(d, done.(mem := done.mem.(barIndex := bar.index, last := JKey(c.key))));
  }

  lemma FirstActMatches<W(!new)>(d: Driver<Venue<W>>, ok: Venue<W> -> bool, s: Scene<Venue<W>>, bar: Bar, c: Candles)
    requires Honest(d.seam, ok) && Quotes(d.seam, ok) && ok(s.book) && AllMatch(s) && InStep(s)
    requires HeldFor(s.mem.mind.position, s.book) && FromDict(s.file).value.mind.position == s.mem.mind.position
    requires |d.machine.Step(s.closed, s.mem.mind, bar, c.act, c.veto).1| > 0
    ensures var (mind, intents) := d.machine.Step(s.closed, s.mem.mind, bar, c.act, c.veto);
            var t := d.Act(s.(mem := s.mem.(mind := mind)), bar, intents[0], OrderId(d.name, d.env, c.key, 0));
            AllMatch(t) && HeldFor(t.mem.mind.position, t.book) && Backed(t) && ok(t.book)
  {
    var (mind, intents) := d.machine.Step(s.closed, s.mem.mind, bar, c.act, c.veto);
    d.machine.OpenIsFirst(s.closed, s.mem.mind, bar, c.act, c.veto);
    var s0 := s.(mem := s.mem.(mind := mind));
    match intents[0] {
      case Open(_, _, _, _, _, _) => OpenMatches(d, ok, s0, bar, intents[0], OrderId(d.name, d.env, c.key, 0));
      case Close(_, _, _, _, _, _) => CloseMatches(d, ok, s0, bar, intents[0], OrderId(d.name, d.env, c.key, 0));
      case Skip(_, _) =>
    }
  }

  lemma TickMatches<W(!new)>(d: Driver<Venue<W>>, ok: Venue<W> -> bool, s: Scene<Venue<W>>, c: Candles)
    requires Honest(d.seam, ok) && Quotes(d.seam, ok) && Sound(d.seam, ok, s) && FromDict(s.file) == Some(s.mem) && AllMatch(s)
    ensures AllMatch(d.OnBarClosed(s, c).0)
  {
    if c.have >= c.need && s.mem.last != JKey(c.key) {
      PreparedIsInStep(d, ok, s, c);
      PreparedMatches(d, ok, s, c);
      DecideMatches(d, ok, d.Prepared(s, c), d.FillBar(s, c), c);
    }
  }

  lemma AfterMatches<W(!new)>(d: Driver<Venue<W>>, ok: Venue<W> -> bool, w: World<W>, h: Happening<W>)
    requires Honest(d.seam, ok) && Quotes(d.seam, ok) && Reconcilable(d.seam, ok, w.file, w.venue) && Plausible(d, ok, w, h)
    requires Matches(w.file, w.venue)
    ensures Matches(After(d, w, h).file, After(d, w, h).venue)
  {
    match h {
      case Tick(c, writes) =>
        TickMatches(d, ok, SceneOf(w), c);
        forall t | t in Survivors(d, w, c)
          ensures Matches(t.file, t.book)
        {
        }
      case Outside(held, ended, whim) =>
      case FileBecomes(file) =>
    }
  }

  /** After any plausible run, with crashes after any write, a remembered position the account
      holds is remembered in the direction and at the very price the account has it at. */
  lemma {:induction false} RemembersWhatItPaid<W(!new)>(d: Driver<Venue<W>>, ok: Venue<W> -> bool, w: World<W>, run: seq<Happening<W>>)
    requires Honest(d.seam, ok) && Quotes(d.seam, ok) && Reconcilable(d.seam, ok, w.file, w.venue) && PlausibleRun(d, ok, w, run)
    requires Matches(w.file, w.venue)
    ensures Matches(Outcomes(d, w, run).file, Outcomes(d, w, run).venue)
  {
    if |run| > 0 {
      RemembersWhatItPaid(d, ok, w, run[..|run| - 1]);
      StaysReconcilable(d, ok, w, run[..|run| - 1]);
      AfterMatches(d, ok, Outcomes(d, w, run[..|run| - 1]), run[|run| - 1]);
    }
  }
}
