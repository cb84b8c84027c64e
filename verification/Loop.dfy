/** The loop around the driver (src/scheduler/orchestrator.py): the gates a tick passes in
    order, the one bar it may decide on, and the wait between ticks. */
module Loop {
  import opened Prelude
  import opened Sizing
  import opened Ledgers
  import opened Strategy
  import opened State
  import opened Brokers
  import opened Live
  import opened BarGrid

  /** What a tick learns from the world around it, and what its bar says once read. */
  datatype Facts = Facts(
    on: bool, armed: bool, switchedInstrument: bool, executable: bool, exchangeOpen: Option<bool>, synced: bool,
    stored: Option<seq<int>>, need: nat, impossible: bool, act: Act, close: real, row: Bar, halt: string)

  datatype Stage = Switch | Armed | Instrument | Execution | Clock | Sync | Window | Quality

  datatype Verdict = Stopped(at: Stage) | ToDriver(c: Candles)

  /** The stamps of the file that are not past `until`. */
  function Kept(stored: seq<int>, until: int): (r: seq<int>)
    ensures forall k :: 0 <= k < |r| ==> r[k] <= until && r[k] in stored
  {
    if |stored| == 0 then []
    else
      var last := stored[|stored| - 1];
      Kept(stored[..|stored| - 1], until) + if last <= until then [last] else []
  }

  /** The driver sorts what it is handed and decides on the newest bar. */
  function Newest(window: seq<int>): (r: int)
    requires |window| > 0
    ensures r in window && forall k :: 0 <= k < |window| ==> window[k] <= r
  {
    if |window| == 1 then window[0]
    else
      var rest := Newest(window[..|window| - 1]);
      if rest < window[|window| - 1] then window[|window| - 1] else rest
  }

  /** Place `i` of the file holds `stamp`, and only later bars come after it. */
  predicate EndsAt(stored: seq<int>, stamp: int, i: int) {
    0 <= i < |stored| && stored[i] == stamp && forall j :: i < j < |stored| ==> stored[j] > stamp
  }

  /** The file ends, up to `stamp`, with `stamp` itself. */
  ghost predicate Reaches(stored: seq<int>, stamp: int) {
    exists i :: EndsAt(stored, stamp, i)
  }

  lemma ReachesOneMore(front: seq<int>, last: int, stamp: int)
    ensures Reaches(front + [last], stamp) <==> last == stamp || (last > stamp && Reaches(front, stamp))
  {
    var stored := front + [last];
    if last == stamp {
      assert EndsAt(stored, stamp, |front|);
    } else if last > stamp {
      forall i | 0 <= i < |front|
        ensures EndsAt(stored, stamp, i) <==> EndsAt(front, stamp, i)
      {
        assert forall j :: 0 <= j < |front| ==> stored[j] == front[j];
      }
    } else {
      forall i
        ensures !EndsAt(stored, stamp, i)
      {
        assert stored[|front|] == last;
      }
    }
  }

  lemma {:induction false} KeptEndsExactly(stored: seq<int>, until: int)
    ensures |Kept(stored, until)| > 0 && Kept(stored, until)[|Kept(stored, until)| - 1] >= until <==> Reaches(stored, until)
  {
    hide Reaches;
    if |stored| > 0 {
      var front, last := stored[..|stored| - 1], stored[|stored| - 1];
      KeptEndsExactly(front, until);
      ReachesOneMore(front, last, until);
      assert stored == front + [last];
    } else {
      NothingReached(stored, until);
    }
  }

  lemma NothingReached(stored: seq<int>, stamp: int)
    requires |stored| == 0
    ensures !Reaches(stored, stamp)
  {
  }

  function Least(a: nat, b: nat): nat {
    if a < b then a else b
  }

  /** The places of the file whose bars are not past `until`. */
  function IndicesUpTo(stored: seq<int>, until: int): set<nat> {
    set i: nat | i < |stored| && stored[i] <= until
  }

  lemma IndicesGrow(front: seq<int>, last: int, until: int)
    ensures IndicesUpTo(front + [last], until) == IndicesUpTo(front, until) + if last <= until then {|front|} else {}
    ensures |front| !in IndicesUpTo(front, until)
  {
  }

  lemma {:induction false} KeptCounts(stored: seq<int>, until: int)
    ensures |Kept(stored, until)| == |IndicesUpTo(stored, until)|
  {
    hide IndicesUpTo;
    if |stored| > 0 {
      var front, last := stored[..|stored| - 1], stored[|stored| - 1];
      KeptCounts(front, until);
      IndicesGrow(front, last, until);
      assert stored == front + [last];
    } else {
      NoIndices(stored, until);
    }
  }

  lemma NoIndices(stored: seq<int>, until: int)
    requires |stored| == 0
    ensures IndicesUpTo(stored, until) == {}
  {
  }

  datatype Orchestrator<!B> = Orchestrator(grid: Grid, driver: Driver<B>) {

    /** The newest closed bar, which the grid determines. */
    ghost function Until(at: int): Option<int> {
      if exists stamp :: grid.IsLastClosed(stamp, at) then
        var stamp :| grid.IsLastClosed(stamp, at);
        Some(stamp)
      else None
    }

    /** The gates, in order; only a bar that passed them all reaches the driver. */
    ghost function Gate(at: int, f: Facts): Verdict {
      if !f.on then Stopped(Switch)
      else if !f.armed then Stopped(Armed)
      else if f.switchedInstrument then Stopped(Instrument)
      else if !f.executable then Stopped(Execution)
      else if f.exchangeOpen != Some(true) then Stopped(Clock)
      else if !f.synced then Stopped(Sync)
      else if f.stored.None? || Until(at).None? then Stopped(Window)
      else
        var until := Until(at).value;
        var kept := Kept(f.stored.value, until);
        if |kept| == 0 || kept[|kept| - 1] < until then Stopped(Window)
        else if f.impossible then Stopped(Quality)
        else
          var window := Tail(kept, if f.need == 0 then 1 else f.need);
          ToDriver(Candles(|window|, f.need, Newest(window), f.act, f.close, f.row, None, f.halt))
    }

    /** Everything a tick needs before the driver is asked: trading on, the armed strategy, no
        change of instrument, orders possible, the exchange open, the dataset synced, a bar
        that could have happened, and the newest closed bar at the end of the file — nothing
        after it but bars still forming. */
    ghost predicate Clear(at: int, f: Facts) {
      && f.on && f.armed && !f.switchedInstrument && f.executable && f.exchangeOpen == Some(true) && f.synced && !f.impossible
      && f.stored.Some? && exists stamp :: grid.IsLastClosed(stamp, at) && Reaches(f.stored.value, stamp)
    }

    /** A tick reaches the driver exactly when nothing is in the way. */
    lemma ReachesTheDriverExactly(at: int, f: Facts)
      requires grid.Valid()
      ensures Gate(at, f).ToDriver? <==> Clear(at, f)
    {
      hide Grid.IsLastClosed;
      if Until(at).Some? {
        var until := Until(at).value;
        assert grid.IsLastClosed(until, at);
        if f.stored.Some? {
          KeptEndsExactly(f.stored.value, until);
        }
        forall stamp | grid.IsLastClosed(stamp, at)
          ensures stamp == until
        {
          grid.LastClosedIsUnique(stamp, until, at);
        }
      }
    }

    /** What stops a tick: the first thing in the way, in this order. */
    lemma StoppedExactly(at: int, f: Facts)
      requires grid.Valid()
      ensures var stop := Gate(at, f);
              && (stop == Stopped(Switch) <==> !f.on)
              && (stop == Stopped(Armed) <==> f.on && !f.armed)
              && (stop == Stopped(Instrument) <==> f.on && f.armed && f.switchedInstrument)
              && var asked := f.on && f.armed && !f.switchedInstrument;
              && (stop == Stopped(Execution) <==> asked && !f.executable)
              && (stop == Stopped(Clock) <==> asked && f.executable && f.exchangeOpen != Some(true))
              && (stop == Stopped(Sync) <==> asked && f.executable && f.exchangeOpen == Some(true) && !f.synced)
              && var synced := asked && f.executable && f.exchangeOpen == Some(true) && f.synced;
              && (stop == Stopped(Window) <==> synced && !Clear(at, f.(impossible := false)))
              && (stop == Stopped(Quality) <==> synced && Clear(at, f.(impossible := false)) && f.impossible)
    {
      ReachesTheDriverExactly(at, f.(impossible := false));
      hide Grid.IsLastClosed, Clear;
    }

    /** What the driver is handed: the newest closed bar as key, as many bars up to it as the
        features need or the file has, and the loop's reason to open nothing. */
    lemma DriverIsHanded(at: int, f: Facts)
      requires Gate(at, f).ToDriver?
      ensures var c := Gate(at, f).c;
              && f.stored.Some? && grid.IsLastClosed(c.key, at) && c.key in f.stored.value
              && c.have == Least(if f.need == 0 then 1 else f.need, |IndicesUpTo(f.stored.value, c.key)|)
              && c.need == f.need && c.act == f.act && c.close == f.close && c.row == f.row && c.next.None? && c.veto == f.halt
    {
      hide Grid.IsLastClosed;
      GateGivesTheLastClosedBar(at, f);
      KeptCounts(f.stored.value, Until(at).value);
    }

    /** A tick that anything stops leaves the file, the broker and the log alone. */
    lemma StoppedTickTouchesNothing(w: Desktop<B>, at: int, f: Facts, writes: nat)
      requires grid.Valid()
      ensures !Clear(at, f) ==> Ticked(w, at, f, writes) == w
    {
      ReachesTheDriverExactly(at, f);
      hide Clear, Gate;
    }

    /** Whatever reaches the driver is keyed by the newest closed bar: not one still
        forming, not one the market has moved past. */
    lemma GateGivesTheLastClosedBar(at: int, f: Facts)
      ensures Gate(at, f).ToDriver? ==> Some(Gate(at, f).c.key) == Until(at) && grid.IsLastClosed(Gate(at, f).c.key, at)
    {
      hide Grid.IsLastClosed;
    }

    // -- the loop's durable state ------------------------------------------------------

    ghost function Start(w: Desktop<B>): Option<Scene<B>> {
      match FromDict(w.file)
      case None => None
      case Some(mem) => Some(Scene(mem, [], EmptyAccount(0), w.book, w.file, []))
    }

    /** One tick of which only the first `writes` writes survive. The log gains a row when
        the save that marks the bar as decided is among them. */
    ghost function Ticked(w: Desktop<B>, at: int, f: Facts, writes: nat): Desktop<B> {
      var verdict := Gate(at, f);
      if verdict.Stopped? || Start(w).None? then w
      else
        var (s, outcome) := driver.OnBarClosed(Start(w).value, verdict.c);
        w.Survived(s.trail, writes, if outcome == Decided then [(at, verdict.c.key)] else [])
    }

    ghost function Onwards(w: Desktop<B>, e: Event<B>): Desktop<B> {
      match e
      case Tick(at, facts, writes) => Ticked(w, at, facts, writes)
      case BrokerMoves(book) => w.(book := book)
    }

    ghost function Ran(w: Desktop<B>, run: seq<Event<B>>): Desktop<B> {
      if |run| == 0 then w else Onwards(Ran(w, run[..|run| - 1]), run[|run| - 1])
    }
  }

  /** The state file, the broker, and which bars were saved as decided, and when. */
  datatype Desktop<B> = Desktop(file: Document, book: B, decided: seq<(int, int)>) {

    /** What the first `writes` of a tick's writes leave; `marked` is logged with the last. */
    function Survived(trail: seq<Durable<B>>, writes: nat, marked: seq<(int, int)>): Desktop<B> {
      if writes == 0 || |trail| == 0 then this
      else if writes < |trail| then Desktop(trail[writes - 1].file, trail[writes - 1].book, decided)
      else Desktop(trail[|trail| - 1].file, trail[|trail| - 1].book, decided + marked)
    }
  }

  datatype Event<B> = Tick(at: int, facts: Facts, writes: nat) | BrokerMoves(book: B)

  // -- what each write remembers ---------------------------------------------------------

  predicate Remembers(file: Document, last: Json) {
    FromDict(file).Some? && FromDict(file).value.last == last
  }

  ghost predicate Holds<B>(s: Scene<B>, last: Json) {
    && LiveAccount(s.acct) && s.mem.last == last && Remembers(s.file, last)
    && forall k :: 0 <= k < |s.trail| ==> Remembers(s.trail[k].file, last)
  }

  lemma SavedHolds<B>(d: Driver<B>, s: Scene<B>)
    requires Holds(s, s.mem.last)
    ensures Holds(d.Saved(s), s.mem.last)
  {
    Restored(s.mem);
  }

  lemma PreparedHolds<B>(d: Driver<B>, s: Scene<B>, c: Candles)
    requires Holds(s, s.mem.last)
    ensures Holds(d.Prepared(s, c), s.mem.last)
  {
    var bar := d.FillBar(s, c);
    var s0 := s.(closed := Tail(s.closed + [c.close], d.machine.config.Keep()));
    AdoptExitHolds(d, s0, bar);
    var s1 := d.AdoptExit(s0, bar);
    AdoptPositionHolds(d, s1, bar);
    var s2 := d.AdoptPosition(s1, bar);
    if s2.mem.mind.position.Some? {
      SavedHolds(d, s2.(mem := s2.mem.(mind := s2.mem.mind.(position := None), unfilled := None)));
    }
  }

  lemma AdoptExitHolds<B>(d: Driver<B>, s: Scene<B>, bar: Bar)
    requires Holds(s, s.mem.last)
    ensures Holds(d.AdoptExit(s, bar), s.mem.last)
  {
    if s.mem.mind.position.Some? {
      var p := s.mem.mind.position.value;
      var closing := d.seam.closingFill(s.book, p.short);
      if closing.Some? {
        var reason := if closing.value.reason.Some? then closing.value.reason.value else Forced;
        var intent := Close(reason, p.short, closing.value.price, Some(closing.value.price), 1.0, Some(0.0));
        SavedHolds(d, d.Settled(s, bar, intent, Some(closing.value.price)));
      }
    }
  }

  lemma AdoptPositionHolds<B>(d: Driver<B>, s: Scene<B>, bar: Bar)
    requires Holds(s, s.mem.last)
    ensures Holds(d.AdoptPosition(s, bar), s.mem.last)
  {
    var actual := d.seam.position(s.book);
    if Truthy(actual.entryPrice) {
      var p := d.AdoptedPosition(s, bar, actual.entryPrice.value);
      SavedHolds(d, s.(mem := s.mem.(mind := s.mem.mind.(position := Some(p)))));
    }
  }

  lemma ActHolds<B>(d: Driver<B>, s: Scene<B>, bar: Bar, intent: Intent, id: OrderId)
    requires Holds(s, s.mem.last)
    ensures Holds(d.Act(s, bar, intent, id), s.mem.last)
  {
  }

  lemma {:induction false} ActOnHolds<B>(d: Driver<B>, s: Scene<B>, bar: Bar, intents: seq<Intent>, key: int, i: nat)
    requires Holds(s, s.mem.last) && i <= |intents|
    ensures Holds(d.ActOn(s, bar, intents, key, i), s.mem.last)
  {
    if i > 0 {
      ActOnHolds(d, s, bar, intents, key, i - 1);
      ActHolds(d, d.ActOn(s, bar, intents, key, i - 1), bar, intents[i - 1], OrderId(d.name, d.env, key, i - 1));
    }
  }

  /** Every write of a tick leaves the last decided bar as it was, except the last write of
      a tick that decided, which names the bar just decided. */
  lemma OnlyTheFinalSaveMarks<B>(d: Driver<B>, s: Scene<B>, c: Candles)
    requires Holds(s, s.mem.last)
    ensures var (t, outcome) := d.OnBarClosed(s, c);
            && (outcome != Decided ==> Holds(t, s.mem.last))
            && (outcome == Decided ==>
                  && s.mem.last != JKey(c.key)
                  && |t.trail| > 0
                  && (forall k :: 0 <= k < |t.trail| - 1 ==> Remembers(t.trail[k].file, s.mem.last))
                  && Remembers(t.trail[|t.trail| - 1].file, JKey(c.key)))
  {
    PreparedHolds(d, s, c);
    var ready, bar := d.Prepared(s, c), d.FillBar(s, c);
    var (mind, intents) := d.machine.Step(ready.closed, ready.mem.mind, bar, c.act, c.veto);
    var s0 := ready.(mem := ready.mem.(mind := mind));
    ActOnHolds(d, s0, bar, intents, c.key, |intents|);
    var done := d.ActOn(s0, bar, intents, c.key, |intents|);
    Restored(done.mem.(barIndex := bar.index, last := JKey(c.key)));
  }

  // -- one decision per bar ----------------------------------------------------------------

  /** Each bar was the newest closed one when it was decided. */
  ghost predicate AllClosed(grid: Grid, decided: seq<(int, int)>) {
    forall i :: 0 <= i < |decided| ==> grid.IsLastClosed(decided[i].1, decided[i].0)
  }

  /** No bar came up twice, or after a later one. */
  ghost predicate InOrder(decided: seq<(int, int)>) {
    forall i, j :: 0 <= i < j < |decided| ==> decided[i].0 <= decided[j].0 && decided[i].1 < decided[j].1
  }

  ghost predicate FileAgrees<B>(w: Desktop<B>) {
    |w.decided| > 0 ==> Remembers(w.file, JKey(w.decided[|w.decided| - 1].1))
  }

  ghost predicate DecidedBy<B>(w: Desktop<B>, now: int) {
    forall i :: 0 <= i < |w.decided| ==> w.decided[i].0 <= now
  }

  /** The clock never goes back between ticks. */
  ghost predicate Chronological<B>(run: seq<Event<B>>) {
    forall i, j :: 0 <= i < j < |run| && run[i].Tick? && run[j].Tick? ==> run[i].at <= run[j].at
  }

  /** The tick left the log alone, and the file remembers what it did. */
  ghost predicate MarksNothing<B>(w: Desktop<B>, v: Desktop<B>) {
    v.decided == w.decided && forall last :: Remembers(w.file, last) ==> Remembers(v.file, last)
  }

  /** The tick added one bar: the newest closed one, and not the one the file remembered. */
  ghost predicate Marks<B>(grid: Grid, w: Desktop<B>, v: Desktop<B>, at: int, key: int) {
    && v.decided == w.decided + [(at, key)] && Remembers(v.file, JKey(key))
    && !Remembers(w.file, JKey(key)) && grid.IsLastClosed(key, at)
  }

  ghost predicate AllRemember<B>(trail: seq<Durable<B>>, n: int, last: Json) {
    forall k :: 0 <= k < n <= |trail| ==> Remembers(trail[k].file, last)
  }

  lemma UnmarkedSurvives<B>(w: Desktop<B>, trail: seq<Durable<B>>, writes: nat, last: Json)
    requires Remembers(w.file, last) && AllRemember(trail, |trail|, last)
    ensures MarksNothing(w, w.Survived(trail, writes, []))
  {
  }

  lemma MarkedSurvives<B>(w: Desktop<B>, trail: seq<Durable<B>>, writes: nat, last: Json, at: int, key: int)
    requires Remembers(w.file, last) && |trail| > 0 && AllRemember(trail, |trail| - 1, last)
    requires Remembers(trail[|trail| - 1].file, JKey(key)) && last != JKey(key)
    ensures var v := w.Survived(trail, writes, [(at, key)]);
            if writes < |trail| then MarksNothing(w, v)
            else v.decided == w.decided + [(at, key)] && Remembers(v.file, JKey(key)) && !Remembers(w.file, JKey(key))
  {
  }

  ghost predicate MarksAtMostOne<B>(grid: Grid, w: Desktop<B>, v: Desktop<B>, at: int) {
    MarksNothing(w, v) || exists key :: Marks(grid, w, v, at, key)
  }

  lemma TickMarksAtMostOne<B>(o: Orchestrator<B>, w: Desktop<B>, at: int, f: Facts, writes: nat)
    ensures MarksAtMostOne(o.grid, w, o.Ticked(w, at, f, writes), at)
  {
    hide Grid.IsLastClosed, Orchestrator.Gate, Driver.OnBarClosed;
    var verdict := o.Gate(at, f);
    if verdict.ToDriver? && o.Start(w).Some? {
      var s, key := o.Start(w).value, verdict.c.key;
      OnlyTheFinalSaveMarks(o.driver, s, verdict.c);
      o.GateGivesTheLastClosedBar(at, f);
      var trail := o.driver.OnBarClosed(s, verdict.c).0.trail;
      if o.driver.OnBarClosed(s, verdict.c).1 == Decided {
        MarkedSurvives(w, trail, writes, s.mem.last, at, key);
        assert writes >= |trail| ==> Marks(o.grid, w, o.Ticked(w, at, f, writes), at, key);
      } else {
        UnmarkedSurvives(w, trail, writes, s.mem.last);
      }
    }
  }

  lemma StaysInOrder<B>(grid: Grid, w: Desktop<B>, v: Desktop<B>, at: int, key: int)
    requires grid.Valid() && AllClosed(grid, w.decided) && InOrder(w.decided) && FileAgrees(w) && DecidedBy(w, at)
    requires Marks(grid, w, v, at, key)
    ensures AllClosed(grid, v.decided) && InOrder(v.decided) && FileAgrees(v) && DecidedBy(v, at)
  {
    LaterThanTheLast(grid, w, at, key);
    AppendKeepsOrder(w.decided, at, key);
  }

  lemma AppendKeepsOrder(decided: seq<(int, int)>, at: int, key: int)
    requires InOrder(decided)
    requires |decided| > 0 ==> decided[|decided| - 1].0 <= at && decided[|decided| - 1].1 < key
    ensures InOrder(decided + [(at, key)])
  {
  }

  /** The only bar the driver remembers is enough: the grid puts every older one before it. */
  lemma LaterThanTheLast<B>(grid: Grid, w: Desktop<B>, at: int, key: int)
    requires grid.Valid() && AllClosed(grid, w.decided) && FileAgrees(w) && DecidedBy(w, at)
    requires grid.IsLastClosed(key, at) && !Remembers(w.file, JKey(key))
    ensures |w.decided| > 0 ==> w.decided[|w.decided| - 1].1 < key
  {
    if |w.decided| > 0 {
      var (earlier, bar) := w.decided[|w.decided| - 1];
      grid.LastClosedMovesOn(earlier, bar, at, key);
    }
  }

  ghost predicate WellKept<B>(grid: Grid, w: Desktop<B>, now: int) {
    AllClosed(grid, w.decided) && InOrder(w.decided) && FileAgrees(w) && DecidedBy(w, now)
  }

  lemma TickKeeps<B>(o: Orchestrator<B>, w: Desktop<B>, at: int, f: Facts, writes: nat)
    requires o.grid.Valid() && WellKept(o.grid, w, at)
    ensures WellKept(o.grid, o.Ticked(w, at, f, writes), at)
  {
    hide Orchestrator.Ticked, Grid.IsLastClosed, Remembers;
    TickMarksAtMostOne(o, w, at, f, writes);
    var v := o.Ticked(w, at, f, writes);
    if !MarksNothing(w, v) {
      var key :| Marks(o.grid, w, v, at, key);
      StaysInOrder(o.grid, w, v, at, key);
    }
  }

  /** The latest moment a run ticked at. */
  ghost function Horizon<B>(run: seq<Event<B>>): Option<int> {
    if |run| == 0 then None
    else if run[|run| - 1].Tick? then Some(run[|run| - 1].at)
    else Horizon(run[..|run| - 1])
  }

  lemma {:induction false} HorizonIsPast<B>(run: seq<Event<B>>, at: int)
    requires forall i :: 0 <= i < |run| && run[i].Tick? ==> run[i].at <= at
    ensures Horizon(run).Some? ==> Horizon(run).value <= at
  {
    if |run| > 0 {
      HorizonIsPast(run[..|run| - 1], at);
    }
  }

  /** At most once. In every run with a clock that does not go back — ticks stopped at any
      gate, crashes at any write, restarts from the file, a broker doing as it likes — the
      bars saved as decided strictly increase, and each was the newest closed bar of its
      tick; although the driver remembers only the last of them. */
  lemma {:induction false} OneDecisionPerBar<B>(o: Orchestrator<B>, w: Desktop<B>, run: seq<Event<B>>)
    requires o.grid.Valid() && w.decided == [] && Chronological(run)
    ensures AllClosed(o.grid, o.Ran(w, run).decided) && InOrder(o.Ran(w, run).decided) && FileAgrees(o.Ran(w, run))
    ensures match Horizon(run)
            case None => o.Ran(w, run).decided == []
            case Some(now) => DecidedBy(o.Ran(w, run), now)
  {
    if |run| > 0 {
      var before := run[..|run| - 1];
      OneDecisionPerBar(o, w, before);
      if run[|run| - 1].Tick? {
        var at, v := run[|run| - 1].at, o.Ran(w, before);
        HorizonIsPast(before, at);
        assert DecidedBy(v, at);
        TickKeeps(o, v, at, run[|run| - 1].facts, run[|run| - 1].writes);
      }
    }
  }

  // -- the gates over a run ------------------------------------------------------------------

  /** A decision in the log passed every gate: some tick of the run made it, at its moment,
      with nothing in the way. */
  ghost predicate WasClear<B>(o: Orchestrator<B>, run: seq<Event<B>>, at: int) {
    exists i :: 0 <= i < |run| && IsClearTick(o, run[i], at)
  }

  ghost predicate IsClearTick<B>(o: Orchestrator<B>, e: Event<B>, at: int) {
    e.Tick? && e.at == at && o.Clear(at, e.facts)
  }

  lemma StillClear<B>(o: Orchestrator<B>, before: seq<Event<B>>, e: Event<B>, at: int)
    ensures WasClear(o, before, at) ==> WasClear(o, before + [e], at)
    ensures IsClearTick(o, e, at) ==> WasClear(o, before + [e], at)
  {
    hide IsClearTick;
    if WasClear(o, before, at) {
      var i :| 0 <= i < |before| && IsClearTick(o, before[i], at);
      assert (before + [e])[i] == before[i];
    }
    if IsClearTick(o, e, at) {
      assert (before + [e])[|before|] == e;
    }
  }

  lemma TickLogs<B>(o: Orchestrator<B>, w: Desktop<B>, at: int, f: Facts, writes: nat)
    requires o.grid.Valid()
    ensures var v := o.Ticked(w, at, f, writes);
            v.decided == w.decided || (o.Clear(at, f) && exists key :: v.decided == w.decided + [(at, key)])
  {
    o.StoppedTickTouchesNothing(w, at, f, writes);
    hide Orchestrator.Clear, Orchestrator.Gate, Driver.OnBarClosed;
    var verdict := o.Gate(at, f);
    if o.Ticked(w, at, f, writes).decided != w.decided {
      assert o.Ticked(w, at, f, writes).decided == w.decided + [(at, verdict.c.key)];
    }
  }

  lemma {:induction false} DecisionsPassedTheGates<B>(o: Orchestrator<B>, w: Desktop<B>, run: seq<Event<B>>)
    requires o.grid.Valid() && w.decided == []
    ensures forall k :: 0 <= k < |o.Ran(w, run).decided| ==> WasClear(o, run, o.Ran(w, run).decided[k].0)
  {
    if |run| > 0 {
      var before, e := run[..|run| - 1], run[|run| - 1];
      DecisionsPassedTheGates(o, w, before);
      if e.Tick? {
        TickLogs(o, o.Ran(w, before), e.at, e.facts, e.writes);
      }
      hide Orchestrator.Clear, Orchestrator.Ticked, WasClear;
      assert run == before + [e];
      forall k | 0 <= k < |o.Ran(w, run).decided|
        ensures WasClear(o, run, o.Ran(w, run).decided[k].0)
      {
        StillClear(o, before, e, o.Ran(w, run).decided[k].0);
      }
    }
  }

  /** What the broker came to by itself. */
  ghost function LeftAlone<B>(book: B, run: seq<Event<B>>): B {
    if |run| == 0 then book
    else if run[|run| - 1].BrokerMoves? then run[|run| - 1].book
    else LeftAlone(book, run[..|run| - 1])
  }

  /** Off means off. Over a run whose every tick finds something in the way — the switch off
      throughout, say — the program writes nothing and sends nothing. */
  lemma {:induction false} OffMeansOff<B>(o: Orchestrator<B>, w: Desktop<B>, run: seq<Event<B>>)
    requires o.grid.Valid() && forall i :: 0 <= i < |run| && run[i].Tick? ==> !o.Clear(run[i].at, run[i].facts)
    ensures o.Ran(w, run) == w.(book := LeftAlone(w.book, run))
  {
    if |run| > 0 {
      var before, e := run[..|run| - 1], run[|run| - 1];
      OffMeansOff(o, w, before);
      if e.Tick? {
        o.StoppedTickTouchesNothing(o.Ran(w, before), e.at, e.facts, e.writes);
      }
    }
  }

  // -- the wait ----------------------------------------------------------------------------

  const STOP_CHECK_SECONDS := 1.0
  const MAX_WAIT_SLICES := 3600

  function NapLength(seconds: real): (r: real)
    ensures r >= STOP_CHECK_SECONDS && r * 3600.0 >= seconds
  {
    MaxReal(STOP_CHECK_SECONDS, seconds / 3600.0)
  }

  /** `count` whole naps of `step` seconds. */
  predicate Slept(total: real, count: int, step: real) {
    total == count as real * step
  }

  lemma FewerThanTheCap(total: real, count: int, step: real, seconds: real)
    requires step > 0.0 && Slept(total, count, step) && total < seconds <= step * 3600.0
    ensures count < MAX_WAIT_SLICES
  {
    assert count as real * step < 3600.0 * step;
  }

  lemma OneMoreNap(total: real, count: int, step: real)
    requires Slept(total, count, step)
    ensures Slept(total + step, count + 1, step)
  {
  }

  /** Half-way through a wait: what was slept and what remains make up the whole, and
      while anything remains every nap so far was a whole one. */
  predicate Napping(seconds: real, step: real, naps: seq<real>, remaining: real) {
    && Sum(naps) == seconds - remaining
    && (naps != [] ==> 0.0 <= remaining < seconds)
    && (remaining > 0.0 ==> Slept(Sum(naps), |naps|, step))
  }

  lemma NoNapYet(seconds: real, step: real)
    ensures Napping(seconds, step, [], seconds)
  {
  }

  lemma NapTaken(seconds: real, step: real, naps: seq<real>, remaining: real)
    requires remaining > 0.0 && Napping(seconds, step, naps, remaining) && 0.0 < step && seconds <= step * 3600.0
    ensures |naps| < MAX_WAIT_SLICES
    ensures var now := MinReal(step, remaining);
            0.0 < now <= step && Napping(seconds, step, naps + [now], remaining - now)
  {
    FewerThanTheCap(Sum(naps), |naps|, step, seconds);
    OneMoreNap(Sum(naps), |naps|, step);
    SumGrows(naps, MinReal(step, remaining));
    hide Slept, Sum;
  }

  /** Sleep until the boundary in slices, reading the switch before each. `on(i)` is what
      the switch says after `i` naps. */
  method WaitForTheBoundary(seconds: real, on: nat -> bool) returns (done: bool, naps: seq<real>)
    ensures |naps| <= MAX_WAIT_SLICES
    ensures forall i :: 0 <= i < |naps| ==> on(i) && 0.0 < naps[i] <= NapLength(seconds)
    ensures done ==> Sum(naps) == MaxReal(seconds, 0.0)
    ensures !done ==> !on(|naps|) && Sum(naps) < seconds
  {
    hide NapLength, Slept;
    var remaining := seconds;
    var step := NapLength(seconds);
    naps := [];
    NoNapYet(seconds, step);
    while remaining > 0.0
      invariant |naps| <= MAX_WAIT_SLICES
      invariant forall i :: 0 <= i < |naps| ==> on(i) && 0.0 < naps[i] <= step
      invariant Napping(seconds, step, naps, remaining)
      decreases MAX_WAIT_SLICES - |naps|
    {
      hide NapLength, Slept;
      if !on(|naps|) {
        return false, naps;
      }
      var now := MinReal(step, remaining);
      NapTaken(seconds, step, naps, remaining);
      naps := naps + [now];
      remaining := remaining - now;
    }
    done := true;
  }

  /** The switch going off after `j` naps stops the wait there: only a nap already begun is
      slept out, and on waits of up to an hour that is at most a second. */
  lemma StopsWithinOneNap(seconds: real, on: nat -> bool, done: bool, naps: seq<real>, j: nat)
    requires forall i :: 0 <= i < |naps| ==> on(i) && 0.0 < naps[i] <= NapLength(seconds)
    requires forall i :: i >= j ==> !on(i)
    ensures |naps| <= j
    ensures seconds <= 3600.0 ==> forall i :: 0 <= i < |naps| ==> naps[i] <= 1.0
  {
    var answer := on(j);
    assert !answer;
  }
}
