/** No crash, restart or broker exit wedges the driver: against an account that fills or
    rejects and can prove its own exits, every tick that has something to decide decides. */
module Recovery {
  import opened Prelude
  import opened Sizing
  import opened Ledgers
  import opened Strategy
  import opened State
  import opened Brokers
  import opened Live
  import opened CrashSafety

  /** The account is flat, and its history names the price its last position, of this
      direction, really ended at. */
  predicate Proves<W>(seam: Seam<Venue<W>>, v: Venue<W>, short: bool) {
    && v.held.None? && |v.exits| > 0 && v.exits[|v.exits| - 1].short == short
    && seam.closingFill(v, short).Some?
    && seam.closingFill(v, short).value.price == v.exits[|v.exits| - 1].price
  }

  /** A close of a held position either does nothing, or fills, leaves the account flat and
      leaves the proof of it. */
  ghost predicate ClosesHonestly<W>(seam: Seam<Venue<W>>, v: Venue<W>, w: Venue<W>, fill: Fill)
    requires v.held.Some?
  {
    if fill.IsFilled()
    then w.exits == v.exits + [Exit(v.held.value.short, fill.price.value)] && Proves(seam, w, v.held.value.short)
    else w.held == v.held && w.exits == v.exits
  }

  /** An entry placed from flat is filled in its direction, or answered as rejected. */
  ghost predicate OpensHonestly<W>(v: Venue<W>, w: Venue<W>, fill: Fill, short: bool) {
    && w.exits == v.exits
    && if w.held.Some? then w.held.value.short == short else fill.status == Rejected
  }

  /** While the account is in order (`ok`): it stays in order, reports what it holds and at
      what price, and fills or rejects honestly; moving resting exits changes nothing else. */
  ghost predicate Honest<W(!new)>(seam: Seam<Venue<W>>, ok: Venue<W> -> bool) {
    && (forall v: Venue<W> :: seam.position(v).IsFlat() <==> v.held.None?)
    && (forall v: Venue<W> :: ok(v) && v.held.Some? ==>
          seam.position(v).short == v.held.value.short && Truthy(seam.position(v).entryPrice))
    && (forall v: Venue<W>, i: Intent, id: OrderId :: ok(v) ==> ok(seam.submit(v, i, id).0))
    && (forall v: Venue<W>, i: Intent, id: OrderId :: ok(v) && i.Open? && v.held.None? ==>
          OpensHonestly(v, seam.submit(v, i, id).0, seam.submit(v, i, id).1, i.short))
    && (forall v: Venue<W>, i: Intent, id: OrderId :: ok(v) && i.Close? && v.held.Some? ==>
          ClosesHonestly(seam, v, seam.submit(v, i, id).0, seam.submit(v, i, id).1))
    && (forall v: Venue<W>, levels: Levels :: ok(v) ==>
          var w := seam.repriceExits(v, levels);
          ok(w) && w.held == v.held && w.exits == v.exits)
  }

  /** The account is in order, and the file's memory is one the next tick can reconcile
      with it. */
  ghost predicate Reconcilable<W>(seam: Seam<Venue<W>>, ok: Venue<W> -> bool, file: Document, v: Venue<W>) {
    ok(v) && FromDict(file).Some? &&
    match FromDict(file).value.mind.position
    case None => true
    case Some(p) => Agrees(seam, v, p.short)
  }

  ghost predicate Agrees<W>(seam: Seam<Venue<W>>, v: Venue<W>, short: bool) {
    (v.held.Some? && v.held.value.short == short) || Proves(seam, v, short)
  }

  ghost predicate Sound<W>(seam: Seam<Venue<W>>, ok: Venue<W> -> bool, s: Scene<Venue<W>>) {
    && LiveAccount(s.acct)
    && Reconcilable(seam, ok, s.file, s.book)
    && forall t :: t in s.trail ==> Reconcilable(seam, ok, t.file, t.book)
  }

  /** The memory matches the account exactly: what holds once a tick has reconciled. */
  ghost predicate InStep<W>(s: Scene<Venue<W>>) {
    match s.mem.mind.position
    case None => s.book.held.None?
    case Some(p) => s.book.held.Some? && s.book.held.value.short == p.short
  }

  lemma SavedReadsBack(m: Memory)
    ensures FromDict(AsDict(m)).Some? && FromDict(AsDict(m)).value.mind.position == m.mind.position
  {
    Restored(m);
  }

  lemma SavedIsSound<W(!new)>(d: Driver<Venue<W>>, ok: Venue<W> -> bool, s: Scene<Venue<W>>)
    requires Sound(d.seam, ok, s)
    requires s.mem.mind.position.Some? ==> Agrees(d.seam, s.book, s.mem.mind.position.value.short)
    ensures Sound(d.seam, ok, d.Saved(s))
  {
    SavedReadsBack(s.mem);
  }

  /** From a file the account can answer for, adoption brings the two sides into step. */
  lemma PreparedIsInStep<W(!new)>(d: Driver<Venue<W>>, ok: Venue<W> -> bool, s: Scene<Venue<W>>, c: Candles)
    requires Honest(d.seam, ok) && Sound(d.seam, ok, s)
    requires FromDict(s.file) == Some(s.mem)
    ensures var ready := d.Prepared(s, c);
            Sound(d.seam, ok, ready) && InStep(ready) && d.Reconcile(ready).None? && ready.book == s.book
            && FromDict(ready.file).value.mind.position == ready.mem.mind.position
  {
    var bar := d.FillBar(s, c);
    var s0 := s.(closed := Tail(s.closed + [c.close], d.machine.config.Keep()));
    var s1 := d.AdoptExit(s0, bar);
    if s0.mem.mind.position.Some? && s0.book.held.None? {
      var p := s0.mem.mind.position.value;
      assert Proves(d.seam, s0.book, p.short);
      assert s1.mem.mind.position.None?;
      SavedReadsBack(s1.mem);
    } else {
      assert s1 == s0;
    }
    var s2 := d.AdoptPosition(s1, bar);
    if s1.mem.mind.position.None? && s1.book.held.Some? {
      SavedReadsBack(s2.mem);
    } else {
      assert s2 == s1;
    }
    assert InStep(s2);
    assert d.DropNeverOpened(s2) == s2;
  }

  /** While intents are acted on, a held position is one the account holds too. */
  ghost predicate Backed<W>(s: Scene<Venue<W>>) {
    s.mem.mind.position.Some? ==> s.book.held.Some? && s.book.held.value.short == s.mem.mind.position.value.short
  }

  lemma MovedIsSound<W(!new)>(d: Driver<Venue<W>>, ok: Venue<W> -> bool, s: Scene<Venue<W>>, v: Venue<W>)
    requires Sound(d.seam, ok, s) && Reconcilable(d.seam, ok, s.file, v)
    ensures Sound(d.seam, ok, d.Moved(s, v))
  {
  }

  lemma CloseIsSound<W(!new)>(d: Driver<Venue<W>>, ok: Venue<W> -> bool, s: Scene<Venue<W>>, bar: Bar, intent: Intent, id: OrderId)
    requires Honest(d.seam, ok) && Sound(d.seam, ok, s) && Backed(s) && intent.Close?
    ensures var t := d.Act(s, bar, intent, id);
            Sound(d.seam, ok, t) && Backed(t) && t.file == s.file && t.mem.mind.position.None?
  {
    if s.mem.mind.position.Some? {
      var v := d.seam.submit(s.book, intent, id).0;
      assert v.held == s.book.held || Proves(d.seam, v, s.book.held.value.short);
      assert Reconcilable(d.seam, ok, s.file, v);
      MovedIsSound(d, ok, s, v);
    }
  }

  lemma OpenIsSound<W(!new)>(d: Driver<Venue<W>>, ok: Venue<W> -> bool, s: Scene<Venue<W>>, bar: Bar, intent: Intent, id: OrderId)
    requires Honest(d.seam, ok) && Sound(d.seam, ok, s) && intent.Open?
    requires s.book.held.None? && FromDict(s.file).value.mind.position.None?
    requires s.mem.mind.position.Some? && s.mem.mind.position.value.short == intent.short
    ensures var t := d.Act(s, bar, intent, id);
            Sound(d.seam, ok, t) && Backed(t) && t.file == s.file
  {
    var (v, fill) := d.seam.submit(s.book, intent, id);
    MovedIsSound(d, ok, s, v);
    var s1 := d.Moved(s, v);
    forall levels: Levels
      ensures Reconcilable(d.seam, ok, s.file, d.seam.repriceExits(v, levels)) && d.seam.repriceExits(v, levels).held == v.held
    {
    }
    assert fill.status != Rejected ==> v.held.Some? && v.held.value.short == intent.short;
  }

  lemma DecideIsSound<W(!new)>(d: Driver<Venue<W>>, ok: Venue<W> -> bool, s: Scene<Venue<W>>, bar: Bar, c: Candles)
    requires Honest(d.seam, ok) && Sound(d.seam, ok, s) && InStep(s)
    requires FromDict(s.file).value.mind.position == s.mem.mind.position
    ensures Sound(d.seam, ok, d.DecideOn(s, bar, c))
  {
    var (mind, intents) := d.machine.Step(s.closed, s.mem.mind, bar, c.act, c.veto);
    d.machine.OpenIsFirst(s.closed, s.mem.mind, bar, c.act, c.veto);
    var s0 := s.(mem := s.mem.(mind := mind));
    if |intents| == 0 {
      SavedIsSound(d, ok, s0.(mem := s0.mem.(barIndex := bar.index, last := JKey(c.key))));
    } else {
      var s1 := d.Act(s0, bar, intents[0], OrderId(d.name, d.env, c.key, 0));
      assert d.ActOn(s0, bar, intents, c.key, 0) == s0;
      assert d.ActOn(s0, bar, intents, c.key, 1) == s1;
      FirstActIsSound(d, ok, s, bar, c);
      if |intents| == 2 {
        CloseIsSound(d, ok, s1, bar, intents[1], OrderId(d.name, d.env, c.key, 1));
      }
      var done := d.ActOn(s0, bar, intents, c.key, |intents|);
      SavedIsSound(d, ok, done.(mem := done.mem.(barIndex := bar.index, last := JKey(c.key))));
    }
  }

  lemma FirstActIsSound<W(!new)>(d: Driver<Venue<W>>, ok: Venue<W> -> bool, s: Scene<Venue<W>>, bar: Bar, c: Candles)
    requires Honest(d.seam, ok) && Sound(d.seam, ok, s) && InStep(s)
    requires FromDict(s.file).value.mind.position == s.mem.mind.position
    requires |d.machine.Step(s.closed, s.mem.mind, bar, c.act, c.veto).1| > 0
    ensures var (mind, intents) := d.machine.Step(s.closed, s.mem.mind, bar, c.act, c.veto);
            var t := d.Act(s.(mem := s.mem.(mind := mind)), bar, intents[0], OrderId(d.name, d.env, c.key, 0));
            Sound(d.seam, ok, t) && Backed(t)
  {
    var (mind, intents) := d.machine.Step(s.closed, s.mem.mind, bar, c.act, c.veto);
    d.machine.OpenIsFirst(s.closed, s.mem.mind, bar, c.act, c.veto);
    var s0 := s.(mem := s.mem.(mind := mind));
    match intents[0] {
      case Open(_, _, _, _, _, _) => OpenIsSound(d, ok, s0, bar, intents[0], OrderId(d.name, d.env, c.key, 0));
      case Close(_, _, _, _, _, _) => CloseIsSound(d, ok, s0, bar, intents[0], OrderId(d.name, d.env, c.key, 0));
      case Skip(_, _) =>
    }
  }

  /** One tick from a reconcilable world: it never refuses, and every state a crash could
      leave is reconcilable again. */
  lemma TickRecovers<W(!new)>(d: Driver<Venue<W>>, ok: Venue<W> -> bool, s: Scene<Venue<W>>, c: Candles)
    requires Honest(d.seam, ok) && Sound(d.seam, ok, s) && FromDict(s.file) == Some(s.mem)
    ensures !d.OnBarClosed(s, c).1.Refusal? && Sound(d.seam, ok, d.OnBarClosed(s, c).0)
    ensures c.have >= c.need && s.mem.last != JKey(c.key) ==> d.OnBarClosed(s, c).1 == Decided
  {
    if c.have >= c.need && s.mem.last != JKey(c.key) {
      PreparedIsInStep(d, ok, s, c);
      DecideIsSound(d, ok, d.Prepared(s, c), d.FillBar(s, c), c);
    }
  }

  // -- runs ----------------------------------------------------------------------------

  /** What an honest account and a lossy disk can do between ticks. The account stays in
      order; it closes its position and keeps the proof, or drifts without touching what is
      held or proved, or — while the file remembers no position — trades for somebody else.
      The state file is lost, but never replaced. */
  ghost predicate Plausible<W(!new)>(d: Driver<Venue<W>>, ok: Venue<W> -> bool, w: World<W>, h: Happening<W>) {
    match h
    case Tick(_, _) => true
    case Outside(held, ended, whim) =>
      var v := After(d, w, h).venue;
      && ok(v)
      && (|| (FromDict(w.file).Some? && FromDict(w.file).value.mind.position.None?)
          || (w.venue.held.Some? && held.None? && |ended| == 1 && Proves(d.seam, v, w.venue.held.value.short))
          || (held == w.venue.held && ended == [] && forall short :: Proves(d.seam, w.venue, short) ==> Proves(d.seam, v, short)))
    case FileBecomes(file) => file == map[]
  }

  ghost predicate PlausibleRun<W(!new)>(d: Driver<Venue<W>>, ok: Venue<W> -> bool, w: World<W>, run: seq<Happening<W>>) {
    if |run| == 0 then true
    else
      var before := run[..|run| - 1];
      PlausibleRun(d, ok, w, before) && Plausible(d, ok, Outcomes(d, w, before), run[|run| - 1])
  }

  function SceneOf<W>(w: World<W>): Scene<Venue<W>>
    requires FromDict(w.file).Some?
  {
    Scene(FromDict(w.file).value, [], EmptyAccount(0), w.venue, w.file, [])
  }

  lemma AfterIsReconcilable<W(!new)>(d: Driver<Venue<W>>, ok: Venue<W> -> bool, w: World<W>, h: Happening<W>)
    requires Honest(d.seam, ok) && Reconcilable(d.seam, ok, w.file, w.venue) && Plausible(d, ok, w, h)
    ensures Reconcilable(d.seam, ok, After(d, w, h).file, After(d, w, h).venue)
  {
    match h {
      case Tick(c, writes) =>
        TickRecovers(d, ok, SceneOf(w), c);
        forall t | t in Survivors(d, w, c)
          ensures Reconcilable(d.seam, ok, t.file, t.book)
        {
        }
      case Outside(held, ended, whim) =>
      case FileBecomes(file) =>
    }
  }

  lemma {:induction false} StaysReconcilable<W(!new)>(d: Driver<Venue<W>>, ok: Venue<W> -> bool, w: World<W>, run: seq<Happening<W>>)
    requires Honest(d.seam, ok) && Reconcilable(d.seam, ok, w.file, w.venue) && PlausibleRun(d, ok, w, run)
    ensures Reconcilable(d.seam, ok, Outcomes(d, w, run).file, Outcomes(d, w, run).venue)
  {
    if |run| > 0 {
      StaysReconcilable(d, ok, w, run[..|run| - 1]);
      AfterIsReconcilable(d, ok, Outcomes(d, w, run[..|run| - 1]), run[|run| - 1]);
    }
  }

  /** No wedge. After any plausible run of ticks, crashes, restarts, broker exits and lost
      files, the next tick on a new bar with enough history decides. */
  lemma NeverWedged<W(!new)>(d: Driver<Venue<W>>, ok: Venue<W> -> bool, w: World<W>, run: seq<Happening<W>>, c: Candles)
    requires Honest(d.seam, ok) && Reconcilable(d.seam, ok, w.file, w.venue) && PlausibleRun(d, ok, w, run)
    ensures var now := Outcomes(d, w, run);
            && FromDict(now.file).Some?
            && (c.have >= c.need && FromDict(now.file).value.last != JKey(c.key) ==>
                  d.OnBarClosed(SceneOf(now), c).1 == Decided)
  {
    StaysReconcilable(d, ok, w, run);
    TickRecovers(d, ok, SceneOf(Outcomes(d, w, run)), c);
  }
}
