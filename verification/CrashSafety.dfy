/** The driver against a real account: ticks, crashes at any write, restarts, exits and
    positions the driver never asked for. The broker fills an entry or does not, and
    refuses an order id it has already filled; what it answers is unconstrained, and so is
    what an order placed on top of a position would do. */
module CrashSafety {
  import opened Prelude
  import opened Sizing
  import opened Strategy
  import opened Ledgers
  import opened State
  import opened Brokers
  import opened Live

  datatype Holding = Holding(short: bool, price: Option<real>)

  /** An entry the account filled, and whether it was flat at that moment. */
  datatype FilledEntry = FilledEntry(id: OrderId, wasFlat: bool)

  /** A held position that ended, and the price it really ended at. */
  datatype Exit = Exit(short: bool, price: real)

  /** The account: what it holds, the entries it filled, how its positions ended; `whim` is
      whatever else the broker's answers depend on. */
  datatype Venue<W> = Venue(held: Option<Holding>, filled: seq<FilledEntry>, exits: seq<Exit>, whim: W)

  predicate Used<W>(v: Venue<W>, id: OrderId) {
    exists i :: 0 <= i < |v.filled| && v.filled[i].id == id
  }

  ghost predicate SameAccount<W>(v: Venue<W>, w: Venue<W>) {
    v.held == w.held && v.filled == w.filled
  }

  /** From flat, an entry order either leaves the account alone or is filled once, under a
      new id. On top of a position it may do anything, but if filled it is on record as such. */
  ghost predicate OpensAtomically<W>(v: Venue<W>, w: Venue<W>, short: bool, id: OrderId) {
    if v.held.Some? then w.filled == v.filled || w.filled == v.filled + [FilledEntry(id, false)]
    else
      || SameAccount(v, w)
      || (!Used(v, id) && w.filled == v.filled + [FilledEntry(id, true)]
          && w.held.Some? && w.held.value.short == short)
  }

  ghost predicate Lawful<W(!new)>(seam: Seam<Venue<W>>) {
    && (forall v: Venue<W> :: seam.position(v).IsFlat() <==> v.held.None?)
    && (forall v: Venue<W>, i: Intent, id: OrderId :: i.Open? ==> OpensAtomically(v, seam.submit(v, i, id).0, i.short, id))
    && (forall v: Venue<W>, i: Intent, id: OrderId :: !i.Open? ==>
          var w := seam.submit(v, i, id).0;
          w.filled == v.filled && (w.held == v.held || w.held.None?))
    && (forall v: Venue<W>, levels: Levels :: SameAccount(v, seam.repriceExits(v, levels)))
  }

  // -- runs ------------------------------------------------------------------------

  datatype World<W> = World(file: Document, venue: Venue<W>)

  /** What can happen: a tick of which only the first `writes` writes survive (all of them
      when it did not crash); anything outside the driver changing what the account holds
      or how the broker will answer; the state file being lost or replaced. */
  datatype Happening<W> =
    | Tick(c: Candles, writes: nat)
    | Outside(held: Option<Holding>, ended: seq<Exit>, whim: W)
    | FileBecomes(file: Document)

  /** Every state a tick passes through that a crash would leave behind. */
  function Survivors<W>(d: Driver<Venue<W>>, w: World<W>, c: Candles): (s: seq<Durable<Venue<W>>>)
    ensures |s| > 0
  {
    var start := [Durable(w.file, w.venue)];
    match FromDict(w.file)
    case None => start
    case Some(mem) => start + d.OnBarClosed(Scene(mem, [], EmptyAccount(0), w.venue, w.file, []), c).0.trail
  }

  function After<W>(d: Driver<Venue<W>>, w: World<W>, h: Happening<W>): World<W> {
    match h
    case Tick(c, writes) =>
      var s := Survivors(d, w, c);
      var left := s[if writes < |s| then writes else |s| - 1];
      World(left.file, left.book)
    case Outside(held, ended, whim) => w.(venue := w.venue.(held := held, exits := w.venue.exits + ended, whim := whim))
    case FileBecomes(file) => w.(file := file)
  }

  function Outcomes<W>(d: Driver<Venue<W>>, w: World<W>, run: seq<Happening<W>>): World<W> {
    if |run| == 0 then w
    else After(d, Outcomes(d, w, run[..|run| - 1]), run[|run| - 1])
  }

  // -- safety ------------------------------------------------------------------------

  /** Entries were filled from flat, one per bar. */
  ghost predicate Safe<W>(d: Driver<Venue<W>>, v: Venue<W>) {
    && (forall i :: 0 <= i < |v.filled| ==>
          v.filled[i].wasFlat && v.filled[i].id == OrderId(d.name, d.env, v.filled[i].id.bar, 0))
    && (forall i, j :: 0 <= i < j < |v.filled| ==> v.filled[i].id.bar != v.filled[j].id.bar)
  }

  ghost predicate SafeScene<W>(d: Driver<Venue<W>>, s: Scene<Venue<W>>) {
    && LiveAccount(s.acct) && Safe(d, s.book)
    && forall t :: t in s.trail ==> Safe(d, t.book)
  }

  lemma MovedIsSafe<W(!new)>(d: Driver<Venue<W>>, s: Scene<Venue<W>>, v: Venue<W>)
    requires SafeScene(d, s) && Safe(d, v)
    ensures SafeScene(d, d.Moved(s, v))
  {
  }

  /** An entry filled from flat under a bar's first id keeps the account safe. */
  lemma FilledEntryIsSafe<W(!new)>(d: Driver<Venue<W>>, v: Venue<W>, w: Venue<W>, short: bool, key: int)
    requires Safe(d, v) && v.held.None? && OpensAtomically(v, w, short, OrderId(d.name, d.env, key, 0))
    ensures Safe(d, w)
  {
  }

  lemma ActIsSafe<W(!new)>(d: Driver<Venue<W>>, s: Scene<Venue<W>>, bar: Bar, intent: Intent, key: int, i: nat)
    requires Lawful(d.seam) && SafeScene(d, s)
    requires intent.Open? ==> i == 0 && s.book.held.None?
    ensures SafeScene(d, d.Act(s, bar, intent, OrderId(d.name, d.env, key, i)))
  {
    var id := OrderId(d.name, d.env, key, i);
    var (v, fill) := d.seam.submit(s.book, intent, id);
    if intent.Open? {
      FilledEntryIsSafe(d, s.book, v, intent.short, key);
    }
    if !intent.Skip? {
      assert Safe(d, v);
      MovedIsSafe(d, s, v);
    }
    if intent.Open? {
      AfterOpenIsSafe(d, d.Moved(s, v), bar, fill);
    }
  }

  lemma AfterOpenIsSafe<W(!new)>(d: Driver<Venue<W>>, s: Scene<Venue<W>>, bar: Bar, fill: Fill)
    requires Lawful(d.seam) && SafeScene(d, s)
    ensures SafeScene(d, d.AfterOpen(s, bar, fill))
  {
    forall levels: Levels
      ensures Safe(d, d.seam.repriceExits(s.book, levels))
    {
      assert SameAccount(s.book, d.seam.repriceExits(s.book, levels));
    }
  }

  lemma {:induction false} ActOnIsSafe<W(!new)>(d: Driver<Venue<W>>, s: Scene<Venue<W>>, bar: Bar, intents: seq<Intent>, key: int, n: nat)
    requires Lawful(d.seam) && SafeScene(d, s) && n <= |intents|
    requires forall i :: 0 <= i < |intents| && intents[i].Open? ==> i == 0 && s.book.held.None?
    ensures SafeScene(d, d.ActOn(s, bar, intents, key, n))
  {
    hide Driver.Act;
    if n > 0 {
      ActOnIsSafe(d, s, bar, intents, key, n - 1);
      ActIsSafe(d, d.ActOn(s, bar, intents, key, n - 1), bar, intents[n - 1], key, n - 1);
    }
  }

  /** Adoption writes the file and leaves the account alone. */
  lemma PreparedIsSafe<W(!new)>(d: Driver<Venue<W>>, s: Scene<Venue<W>>, c: Candles)
    requires SafeScene(d, s)
    ensures SafeScene(d, d.Prepared(s, c)) && d.Prepared(s, c).book == s.book
  {
  }

  lemma TickIsSafe<W(!new)>(d: Driver<Venue<W>>, s: Scene<Venue<W>>, c: Candles)
    requires Lawful(d.seam) && SafeScene(d, s)
    ensures SafeScene(d, d.OnBarClosed(s, c).0)
  {
    PreparedIsSafe(d, s, c);
    var ready, bar := d.Prepared(s, c), d.FillBar(s, c);
    if d.Reconcile(ready).None? {
      var (mind, intents) := d.machine.Step(ready.closed, ready.mem.mind, bar, c.act, c.veto);
      d.machine.OpenIsFirst(ready.closed, ready.mem.mind, bar, c.act, c.veto);
      ActOnIsSafe(d, ready.(mem := ready.mem.(mind := mind)), bar, intents, c.key, |intents|);
    }
  }

  lemma AfterIsSafe<W(!new)>(d: Driver<Venue<W>>, w: World<W>, h: Happening<W>)
    requires Lawful(d.seam) && Safe(d, w.venue)
    ensures Safe(d, After(d, w, h).venue)
  {
    if h.Tick? {
      var loaded := FromDict(w.file);
      if loaded.Some? {
        TickIsSafe(d, Scene(loaded.value, [], EmptyAccount(0), w.venue, w.file, []), h.c);
      }
      forall t | t in Survivors(d, w, h.c)
        ensures Safe(d, t.book)
      {
      }
    }
  }

  /** Crash safety. In every run of ticks, crashes at any write, restarts from whatever the
      state file says, and outside changes to the account, every entry the account filled
      was filled while it held nothing, and no bar has two filled entries. */
  lemma {:induction false} EntriesAreSafe<W(!new)>(d: Driver<Venue<W>>, w: World<W>, run: seq<Happening<W>>)
    requires Lawful(d.seam) && w.venue.filled == []
    ensures Safe(d, Outcomes(d, w, run).venue)
  {
    if |run| > 0 {
      EntriesAreSafe(d, w, run[..|run| - 1]);
      AfterIsSafe(d, Outcomes(d, w, run[..|run| - 1]), run[|run| - 1]);
    }
  }

  // -- when a tick refuses ------------------------------------------------------------

  /** Exactly when a tick refuses to trade, whatever the broker: a position it cannot
      price, an exit it cannot prove and has no refused entry to explain, or a direction
      the two sides disagree on. */
  lemma RefusesExactly<B(!new)>(d: Driver<B>, s: Scene<B>, c: Candles)
    requires LiveAccount(s.acct)
    ensures var actual := d.seam.position(s.book);
            d.Reconcile(d.Prepared(s, c)) ==
              match s.mem.mind.position
              case None =>
                if !actual.IsFlat() && !Truthy(actual.entryPrice) then Some(UnknownPosition) else None
              case Some(p) =>
                if actual.IsFlat() then
                  if d.seam.closingFill(s.book, p.short).None? && !SaysRejected(s.mem.unfilled) then Some(UnprovenExit) else None
                else if p.short != actual.short then Some(WrongDirection)
                else None
  {
  }
}
