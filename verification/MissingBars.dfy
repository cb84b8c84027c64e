/** Which completed bars a file lacks, and why (src/data/delta.py:599-758, the intraday
    branch). Stamps are canonical, exchange-local. */
module MissingBars {
  import opened Prelude
  import opened BarGrid
  import opened Gaps

  const MAX_MISSING_BARS := 500

  datatype Reason = Fetchable | NoTrades | Unconfirmed

  /** What a provider returned, and how many microseconds ago it was asked. */
  datatype ProviderFrame = ProviderFrame(stamps: seq<int>, age: int)

  predicate Seen(frames: seq<ProviderFrame>, s: int) {
    exists i :: 0 <= i < |frames| && s in frames[i].stamps
  }

  ghost predicate Traded(frames: seq<ProviderFrame>, day: int) {
    exists s :: Seen(frames, s) && Day(s) == day
  }

  /** The age of the freshest request that brought any bars. */
  function Freshest(frames: seq<ProviderFrame>): Option<int> {
    if |frames| == 0 then None
    else
      var before, last := Freshest(frames[..|frames| - 1]), frames[|frames| - 1];
      if last.stamps == [] then before
      else if before.None? || last.age < before.value then Some(last.age)
      else before
  }

  /** Everything the question is asked against. */
  datatype View = View(
    have: set<int>, frames: seq<ProviderFrame>, absent: set<int>, until: int, now: int, closeAt: int, step: int) {

    /** As far as the provider has been asked. */
    function AskedUntil(): Option<int> {
      match Freshest(frames)
      case None => None
      case Some(age) => Some(now - age)
    }

    /** A request has reached past the interval, which the session's close cuts short. */
    predicate Reached(s: int) {
      var close := Day(s) * DAY + closeAt;
      AskedUntil().Some? && (if s + step <= close then s + step else close) <= AskedUntil().value
    }

    /** A slot of the stored grid that a day known to have traded has no bar for. */
    ghost predicate Expected(s: int) {
      && s !in have && TimeOfDay(s) in GridOf(have)
      && (Day(s) in Days(have) <==> Day(s) !in absent)
    }

    ghost function SlotReason(s: int): Reason {
      if Traded(frames, Day(s)) && Reached(s) then NoTrades else Unconfirmed
    }

    /** The verdict on every instant: nothing missing there, or why. */
    ghost function Verdict(s: int): Option<Reason> {
      if s > until || s in have then None
      else if Seen(frames, s) then Some(Fetchable)
      else if Expected(s) then Some(SlotReason(s))
      else None
    }
  }

  type Found = map<int, Reason>

  // -- the scan ----------------------------------------------------------------------

  method TradedDays(frames: seq<ProviderFrame>) returns (days: set<int>, freshest: Option<int>)
    ensures forall d :: d in days <==> Traded(frames, d)
    ensures freshest == Freshest(frames)
  {
    days, freshest := {}, None;
    for i := 0 to |frames|
      invariant forall d :: d in days <==> Traded(frames[..i], d)
      invariant freshest == Freshest(frames[..i])
    {
      var probe := frames[i];
      OneMoreFrame(frames, i);
      if probe.stamps != [] {
        if freshest.None? || probe.age < freshest.value {
          freshest := Some(probe.age);
        }
        days := days + set s | s in probe.stamps :: Day(s);
      }
    }
    assert frames[..|frames|] == frames;
  }

  lemma OneMoreFrame(frames: seq<ProviderFrame>, i: nat)
    requires i < |frames|
    ensures frames[..i + 1][..i] == frames[..i]
    ensures forall s :: Seen(frames[..i + 1], s) <==> Seen(frames[..i], s) || s in frames[i].stamps
    ensures forall d :: Traded(frames[..i + 1], d) <==>
              Traded(frames[..i], d) || exists s :: s in frames[i].stamps && Day(s) == d
  {
    assert frames[..i + 1] == frames[..i] + [frames[i]];
    forall s
      ensures Seen(frames[..i + 1], s) <==> Seen(frames[..i], s) || s in frames[i].stamps
    {
      if s in frames[i].stamps {
        assert s in frames[..i + 1][i].stamps;
      }
      if Seen(frames[..i], s) {
        var k :| 0 <= k < i && s in frames[..i][k].stamps;
        assert s in frames[..i + 1][k].stamps;
      }
    }
  }

  /** Record one missing bar, unless it is still forming or already recorded. */
  function Add(found: Found, s: int, reason: Reason, until: int): Found {
    if s > until || s in found then found else found[s := reason]
  }

  method AddFrame(view: View, probe: ProviderFrame, found: Found) returns (more: Found)
    ensures forall s :: s in more <==> s in found || (s in probe.stamps && s !in view.have && s <= view.until)
    ensures forall s :: s in more ==> more[s] == if s in found then found[s] else Fetchable
  {
    more := found;
    for j := 0 to |probe.stamps|
      invariant forall s :: s in more <==> s in found || (s in probe.stamps[..j] && s !in view.have && s <= view.until)
      invariant forall s :: s in more ==> more[s] == if s in found then found[s] else Fetchable
    {
      var s := probe.stamps[j];
      assert probe.stamps[..j + 1] == probe.stamps[..j] + [s];
      if s !in view.have {
        more := Add(more, s, Fetchable, view.until);
      }
    }
    assert probe.stamps[..|probe.stamps|] == probe.stamps;
  }

  /** The bars a provider frame holds and the file does not. */
  method AddFrames(view: View) returns (found: Found)
    ensures forall s :: s in found <==> Seen(view.frames, s) && s !in view.have && s <= view.until
    ensures forall s :: s in found ==> found[s] == Fetchable
  {
    found := map[];
    for i := 0 to |view.frames|
      invariant forall s :: s in found <==> Seen(view.frames[..i], s) && s !in view.have && s <= view.until
      invariant forall s :: s in found ==> found[s] == Fetchable
    {
      OneMoreFrame(view.frames, i);
      found := AddFrame(view, view.frames[i], found);
    }
    assert view.frames[..|view.frames|] == view.frames;
  }

  /** The slots one day lacks. */
  method AddDay(view: View, grid: seq<int>, traded: bool, asked: Option<int>, day: int, found: Found) returns (more: Found)
    requires asked == view.AskedUntil()
    requires forall k :: 0 <= k < |grid| ==> 0 <= grid[k] < DAY
    requires traded <==> Traded(view.frames, day)
    ensures forall s :: s in more <==>
              s in found || (Day(s) == day && TimeOfDay(s) in grid && s !in view.have && s <= view.until)
    ensures forall s :: s in more ==> more[s] == if s in found then found[s] else view.SlotReason(s)
  {
    more := found;
    for j := 0 to |grid|
      invariant forall s :: s in more <==>
                  s in found || (Day(s) == day && TimeOfDay(s) in grid[..j] && s !in view.have && s <= view.until)
      invariant forall s :: s in more ==> more[s] == if s in found then found[s] else view.SlotReason(s)
    {
      var s := day * DAY + grid[j];
      OfDay(day, grid[j]);
      assert grid[..j + 1] == grid[..j] + [grid[j]];
      forall x
        ensures Day(x) == day && TimeOfDay(x) == grid[j] <==> x == s
      {
        StampParts(x);
      }
      if s !in view.have {
        var end := if s + view.step <= day * DAY + view.closeAt then s + view.step else day * DAY + view.closeAt;
        var reached := asked.Some? && end <= asked.value;
        more := Add(more, s, if traded && reached then NoTrades else Unconfirmed, view.until);
      }
    }
    assert grid[..|grid|] == grid;
  }

  /** A set in order. */
  method Ascending(all: set<int>) returns (ordered: seq<int>)
    ensures forall i, j :: 0 <= i < j < |ordered| ==> ordered[i] < ordered[j]
    ensures forall s :: s in ordered <==> s in all
    ensures |ordered| == |all|
  {
    ordered := [];
    var rest := all;
    while rest != {}
      invariant rest <= all && |ordered| + |rest| == |all|
      invariant forall s :: s in ordered <==> s in all && s !in rest
      invariant forall i, j :: 0 <= i < j < |ordered| ==> ordered[i] < ordered[j]
      invariant forall i, y :: 0 <= i < |ordered| && y in rest ==> ordered[i] < y
      decreases |rest|
    {
      var s := Least(rest);
      ordered := ordered + [s];
      rest := rest - {s};
    }
  }

  /** Everything missing: each instant with its verdict, and no other. */
  ghost predicate Complete(view: View, found: Found) {
    forall s :: (s in found <==> view.Verdict(s).Some?) && (s in found ==> found[s] == view.Verdict(s).value)
  }

  method SortedGrid(index: seq<int>) returns (grid: seq<int>)
    ensures forall slot :: slot in grid <==> slot in GridOf(set s | s in index)
    ensures forall k :: 0 <= k < |grid| ==> 0 <= grid[k] < DAY
  {
    var slots := SessionGrid(index);
    GridSlots(set s | s in index);
    grid := Ascending(slots);
    StillInRange(grid, slots);
  }

  lemma StillInRange(grid: seq<int>, slots: set<int>)
    requires forall slot :: slot in grid <==> slot in slots
    requires forall slot :: slot in slots ==> 0 <= slot < DAY
    ensures forall k :: 0 <= k < |grid| ==> 0 <= grid[k] < DAY
  {
    forall k | 0 <= k < |grid|
      ensures 0 <= grid[k] < DAY
    {
      assert grid[k] in grid;
    }
  }

  /** The slots missing from the days known to have traded: those held in part, and those
      confirmed and held not at all. */
  method AddDays(view: View, grid: seq<int>, present: set<int>, traded: set<int>, asked: Option<int>, first: Found)
    returns (found: Found)
    requires asked == view.AskedUntil()
    requires forall k :: 0 <= k < |grid| ==> 0 <= grid[k] < DAY
    requires forall d :: d in traded <==> Traded(view.frames, d)
    ensures forall s :: s in found <==>
              s in first || ((Day(s) in present <==> Day(s) !in view.absent) && TimeOfDay(s) in grid
                             && s !in view.have && s <= view.until)
    ensures forall s :: s in found ==> found[s] == if s in first then first[s] else view.SlotReason(s)
  {
    found := first;
    var days := Ascending(present + view.absent);
    for i := 0 to |days|
      invariant forall s :: s in found <==>
                  s in first || (Day(s) in days[..i] && (Day(s) in present <==> Day(s) !in view.absent)
                                 && TimeOfDay(s) in grid && s !in view.have && s <= view.until)
      invariant forall s :: s in found ==> found[s] == if s in first then first[s] else view.SlotReason(s)
    {
      var day := days[i];
      assert day in days && days[..i + 1] == days[..i] + [day];
      if !(day in view.absent && day in present) {
        found := AddDay(view, grid, day in traded, asked, day, found);
      }
    }
    assert days[..|days|] == days;
  }

  method FindMissing(index: seq<int>, view: View) returns (found: Found)
    requires view.have == set s | s in index
    ensures Complete(view, found)
  {
    var traded, freshest := TradedDays(view.frames);
    var first := AddFrames(view);
    var grid := SortedGrid(index);
    var asked := if freshest.None? then None else Some(view.now - freshest.value);
    found := AddDays(view, grid, Days(view.have), traded, asked, first);
  }

  // -- what the verdicts say -----------------------------------------------------------

  /** Some request that brought bars was made at `t` or later. */
  ghost predicate AskedAt(frames: seq<ProviderFrame>, now: int, t: int) {
    exists i :: 0 <= i < |frames| && frames[i].stamps != [] && t <= now - frames[i].age
  }

  lemma {:induction false} FreshestIsLatest(frames: seq<ProviderFrame>, now: int, t: int)
    ensures AskedAt(frames, now, t) <==> Freshest(frames).Some? && t <= now - Freshest(frames).value
  {
    if |frames| > 0 {
      var front, last := frames[..|frames| - 1], frames[|frames| - 1];
      FreshestIsLatest(front, now, t);
      if AskedAt(front, now, t) {
        var i :| 0 <= i < |front| && front[i].stamps != [] && t <= now - front[i].age;
        assert frames[i] == front[i];
      }
      if AskedAt(frames, now, t) {
        var i :| 0 <= i < |frames| && frames[i].stamps != [] && t <= now - frames[i].age;
        assert i < |front| ==> front[i] == frames[i];
      }
    }
  }

  /** When the interval of a bar is over: after its length, or at the session's close. */
  function IntervalEnd(view: View, s: int): int {
    var close := Day(s) * DAY + view.closeAt;
    if s + view.step < close then s + view.step else close
  }

  /** The day of this instant is one the file has bars of and the provider does not list as
      wholly missing, or one it lists and the file has nothing of. */
  ghost predicate OnKnownDay(view: View, s: int) {
    if exists h :: h in view.have && Day(h) == Day(s) then Day(s) !in view.absent else Day(s) in view.absent
  }

  /** Every verdict, in stamps and ages. An absent bar, closed by `until`, is fetchable when a
      frame holds it; else, in a slot of the grid on a known day, it is one nobody traded in
      exactly when some frame has a bar of that day and some request with bars was made once
      its interval was over, and unconfirmed otherwise; and nothing else is missing. */
  lemma VerdictExactly(view: View, s: int)
    ensures var open := s !in view.have && s <= view.until;
            var seen := exists i :: 0 <= i < |view.frames| && s in view.frames[i].stamps;
            var slot := TimeOfDay(s) in GridOf(view.have) && OnKnownDay(view, s);
            var quiet := (exists i, t :: 0 <= i < |view.frames| && t in view.frames[i].stamps && Day(t) == Day(s))
                         && AskedAt(view.frames, view.now, IntervalEnd(view, s));
            && (view.Verdict(s) == Some(Fetchable) <==> open && seen)
            && (view.Verdict(s) == Some(NoTrades) <==> open && !seen && slot && quiet)
            && (view.Verdict(s) == Some(Unconfirmed) <==> open && !seen && slot && !quiet)
  {
    FreshestIsLatest(view.frames, view.now, IntervalEnd(view, s));
    hide GridOf, Freshest, AskedAt;
    TradedExactly(view.frames, Day(s));
    KnownDayExactly(view, s);
  }

  lemma TradedExactly(frames: seq<ProviderFrame>, day: int)
    ensures Traded(frames, day) <==> exists i, t :: 0 <= i < |frames| && t in frames[i].stamps && Day(t) == day
  {
    if Traded(frames, day) {
      var t :| Seen(frames, t) && Day(t) == day;
      var i :| 0 <= i < |frames| && t in frames[i].stamps;
    }
    if exists i, t :: 0 <= i < |frames| && t in frames[i].stamps && Day(t) == day {
      var i, t :| 0 <= i < |frames| && t in frames[i].stamps && Day(t) == day;
      assert Seen(frames, t);
    }
  }

  lemma KnownDayExactly(view: View, s: int)
    ensures OnKnownDay(view, s) <==> (Day(s) in Days(view.have) <==> Day(s) !in view.absent)
  {
  }

  // -- the report --------------------------------------------------------------------

  /** The rows of one reason, or those that block a backtest. */
  datatype Kind = Only(reason: Reason) | Blocking {
    predicate Includes(r: Reason) {
      if Blocking? then r != NoTrades else r == reason
    }
  }

  predicate Increasing(s: seq<int>) {
    forall i, j :: 0 <= i < j < |s| ==> s[i] < s[j]
  }

  /** The rows whose reason is wanted, in order. */
  function Select(ordered: seq<int>, found: Found, kind: Kind): (r: seq<int>)
    requires forall s :: s in ordered ==> s in found
    ensures forall s :: s in r <==> s in ordered && kind.Includes(found[s])
  {
    if |ordered| == 0 then []
    else
      var front, last := ordered[..|ordered| - 1], ordered[|ordered| - 1];
      assert ordered == front + [last];
      Select(front, found, kind) + if kind.Includes(found[last]) then [last] else []
  }

  lemma {:induction false} SelectIncreases(ordered: seq<int>, found: Found, kind: Kind)
    requires Increasing(ordered) && forall s :: s in ordered ==> s in found
    ensures Increasing(Select(ordered, found, kind))
  {
    if |ordered| > 0 {
      var front, last := ordered[..|ordered| - 1], ordered[|ordered| - 1];
      assert ordered == front + [last];
      FrontIncreases(ordered);
      hide Increasing;
      SelectIncreases(front, found, kind);
      AppendIncreases(Select(front, found, kind), last);
    }
  }

  lemma FrontIncreases(s: seq<int>)
    requires Increasing(s) && |s| > 0
    ensures Increasing(s[..|s| - 1]) && forall x :: x in s ==> x == s[|s| - 1] || (x in s[..|s| - 1] && x < s[|s| - 1])
  {
  }

  lemma AppendIncreases(s: seq<int>, x: int)
    requires Increasing(s) && forall y :: y in s ==> y < x
    ensures Increasing(s + [x])
  {
    assert forall i :: 0 <= i < |s| ==> s[i] in s;
  }

  /** Every row is fetchable, unconfirmed or quiet, and the first two are what blocks. */
  lemma {:induction false} SelectPartitions(ordered: seq<int>, found: Found)
    requires forall s :: s in ordered ==> s in found
    ensures |Select(ordered, found, Only(Fetchable))| + |Select(ordered, found, Only(Unconfirmed))|
            == |Select(ordered, found, Blocking)|
    ensures |Select(ordered, found, Blocking)| + |Select(ordered, found, Only(NoTrades))| == |ordered|
  {
    if |ordered| > 0 {
      assert ordered == ordered[..|ordered| - 1] + [ordered[|ordered| - 1]];
      SelectPartitions(ordered[..|ordered| - 1], found);
    }
  }

  lemma {:induction false} SelectIsSet(ordered: seq<int>, all: set<int>)
    requires Increasing(ordered) && forall s :: s in ordered <==> s in all
    ensures |ordered| == |all|
  {
    if |ordered| > 0 {
      var last := ordered[|ordered| - 1];
      assert ordered == ordered[..|ordered| - 1] + [last];
      SelectIsSet(ordered[..|ordered| - 1], all - {last});
    } else {
      assert forall s :: s in all ==> s in ordered;
      assert all == {};
    }
  }

  /** The bars missing for one of these reasons. */
  function For(found: Found, kind: Kind): set<int> {
    set s | s in found && kind.Includes(found[s])
  }

  datatype Totals = Totals(fetchable: nat, noTrades: nat, unconfirmed: nat)

  lemma SelectCounts(ordered: seq<int>, found: Found, kind: Kind)
    requires Increasing(ordered) && forall s :: s in ordered <==> s in found
    ensures |Select(ordered, found, kind)| == |For(found, kind)|
  {
    SelectIncreases(ordered, found, kind);
    SelectIsSet(Select(ordered, found, kind), For(found, kind));
  }

  lemma PrefixIncreases(s: seq<int>, n: nat)
    requires Increasing(s) && n <= |s|
    ensures Increasing(s[..n]) && forall k :: n <= k < |s| ==> s[k] !in s[..n]
  {
  }

  lemma PrefixMembers(s: seq<int>, n: nat)
    requires n <= |s|
    ensures forall x :: x in s[..n] ==> x in s
  {
  }

  lemma DisjointCounts(a: seq<int>, b: seq<int>, both: set<int>)
    requires Increasing(a) && Increasing(b) && forall s :: s in a ==> s !in b
    requires forall s :: s in both <==> s in a || s in b
    ensures |both| == |a| + |b|
  {
    var left, right := set s | s in a, set s | s in b;
    SelectIsSet(a, left);
    SelectIsSet(b, right);
    assert forall s :: s in both <==> s in left + right;
    assert both == left + right && left !! right;
  }

  /** The stamps the capped list shows: blocking ones first, then what room is left. */
  method Shown(blocking: seq<int>, untraded: seq<int>) returns (keys: seq<int>)
    requires Increasing(blocking) && Increasing(untraded) && forall s :: s in blocking ==> s !in untraded
    ensures Increasing(keys) && forall s :: s in keys ==> s in blocking || s in untraded
    ensures |keys| == if |blocking| + |untraded| <= MAX_MISSING_BARS then |blocking| + |untraded| else MAX_MISSING_BARS
    ensures (forall s :: s in blocking ==> s in keys) <==> |blocking| <= MAX_MISSING_BARS
  {
    var n := if |blocking| <= MAX_MISSING_BARS then |blocking| else MAX_MISSING_BARS;
    var room := if |untraded| <= MAX_MISSING_BARS - n then |untraded| else MAX_MISSING_BARS - n;
    PrefixIncreases(blocking, n);
    PrefixIncreases(untraded, room);
    PrefixMembers(blocking, n);
    PrefixMembers(untraded, room);
    var all := set s | s in blocking[..n] + untraded[..room];
    DisjointCounts(blocking[..n], untraded[..room], all);
    keys := Ascending(all);
    if n < |blocking| {
      assert blocking[n] in blocking && blocking[n] !in keys;
    } else {
      assert blocking[..n] == blocking;
    }
  }

  /** The rows for these stamps. */
  method Labelled(keys: seq<int>, found: Found) returns (rows: seq<(int, Reason)>)
    requires forall i :: 0 <= i < |keys| ==> keys[i] in found
    ensures |rows| == |keys| && forall i :: 0 <= i < |rows| ==> keys[i] in found && rows[i] == (keys[i], found[keys[i]])
    ensures forall s :: s in found ==> ((s, found[s]) in rows <==> s in keys)
  {
    rows := seq(|keys|, i requires 0 <= i < |keys| => (keys[i], found[keys[i]]));
    forall s | s in keys
      ensures (s, found[s]) in rows
    {
      var i :| 0 <= i < |keys| && keys[i] == s;
      assert rows[i] == (s, found[s]);
    }
  }

  lemma TotalsCount(ordered: seq<int>, found: Found)
    requires Increasing(ordered) && |ordered| == |found| && forall s :: s in ordered <==> s in found
    ensures |Select(ordered, found, Only(Fetchable))| == |For(found, Only(Fetchable))|
    ensures |Select(ordered, found, Only(NoTrades))| == |For(found, Only(NoTrades))|
    ensures |Select(ordered, found, Only(Unconfirmed))| == |For(found, Only(Unconfirmed))|
    ensures |Select(ordered, found, Only(Fetchable))| + |Select(ordered, found, Only(Unconfirmed))|
            == |Select(ordered, found, Blocking)|
    ensures |Select(ordered, found, Blocking)| + |Select(ordered, found, Only(NoTrades))| == |found|
  {
    SelectCounts(ordered, found, Only(NoTrades));
    SelectCounts(ordered, found, Only(Fetchable));
    SelectCounts(ordered, found, Only(Unconfirmed));
    SelectPartitions(ordered, found);
  }

  /** The capped display list. */
  method DisplayRows(ordered: seq<int>, found: Found) returns (rows: seq<(int, Reason)>)
    requires Increasing(ordered) && |ordered| == |found| && forall s :: s in ordered <==> s in found
    ensures forall i :: 0 <= i < |rows| ==> rows[i].0 in found && rows[i].1 == found[rows[i].0]
    ensures forall i, j :: 0 <= i < j < |rows| ==> rows[i].0 < rows[j].0
    ensures |rows| == if |found| <= MAX_MISSING_BARS then |found| else MAX_MISSING_BARS
    ensures (forall s :: s in found && found[s] != NoTrades ==> (s, found[s]) in rows)
            <==> |Select(ordered, found, Blocking)| <= MAX_MISSING_BARS
  {
    var blocking, untraded := Select(ordered, found, Blocking), Select(ordered, found, Only(NoTrades));
    SelectIncreases(ordered, found, Blocking);
    SelectIncreases(ordered, found, Only(NoTrades));
    SelectPartitions(ordered, found);
    SelectsApart(ordered, found);
    hide Select, Kind.Includes, Increasing;
    var keys := Shown(blocking, untraded);
    KeysAreFound(ordered, found, keys);
    rows := Labelled(keys, found);
    RowsIncrease(keys, found, rows);
    AllShown(ordered, found, keys, rows);
  }

  lemma SelectsApart(ordered: seq<int>, found: Found)
    requires forall s :: s in ordered <==> s in found
    ensures forall s :: s in Select(ordered, found, Blocking) ==> s !in Select(ordered, found, Only(NoTrades))
  {
  }

  lemma KeysAreFound(ordered: seq<int>, found: Found, keys: seq<int>)
    requires forall s :: s in ordered <==> s in found
    requires forall s :: s in keys ==> s in Select(ordered, found, Blocking) || s in Select(ordered, found, Only(NoTrades))
    ensures forall i :: 0 <= i < |keys| ==> keys[i] in found
  {
    hide Select;
    var blocking, untraded := Select(ordered, found, Blocking), Select(ordered, found, Only(NoTrades));
    forall i | 0 <= i < |keys|
      ensures keys[i] in found
    {
      var key := keys[i];
      assert key in keys;
      assert key in blocking || key in untraded;
      assert key in ordered;
    }
  }

  lemma RowsIncrease(keys: seq<int>, found: Found, rows: seq<(int, Reason)>)
    requires Increasing(keys) && |rows| == |keys|
    requires forall i :: 0 <= i < |keys| ==> keys[i] in found && rows[i] == (keys[i], found[keys[i]])
    ensures forall i, j :: 0 <= i < j < |rows| ==> rows[i].0 < rows[j].0
  {
  }

  /** The blocking rows are all on the list exactly when their stamps are. */
  lemma AllShown(ordered: seq<int>, found: Found, keys: seq<int>, rows: seq<(int, Reason)>)
    requires forall s :: s in ordered <==> s in found
    requires forall s :: s in found ==> ((s, found[s]) in rows <==> s in keys)
    ensures (forall s :: s in found && found[s] != NoTrades ==> (s, found[s]) in rows)
            <==> (forall s :: s in Select(ordered, found, Blocking) ==> s in keys)
  {
    var blocking := Select(ordered, found, Blocking);
    assert forall s :: s in blocking <==> s in found && found[s] != NoTrades;
  }

  /** The capped display list and the totals over the whole set. The blocking rows are all
      shown exactly when they fit the cap by themselves. */
  method Report(found: Found) returns (rows: seq<(int, Reason)>, totals: Totals)
    ensures totals == Totals(|For(found, Only(Fetchable))|, |For(found, Only(NoTrades))|, |For(found, Only(Unconfirmed))|)
    ensures totals.fetchable + totals.noTrades + totals.unconfirmed == |found|
    ensures forall i :: 0 <= i < |rows| ==> rows[i].0 in found && rows[i].1 == found[rows[i].0]
    ensures forall i, j :: 0 <= i < j < |rows| ==> rows[i].0 < rows[j].0
    ensures |rows| == if |found| <= 500 then |found| else 500
    ensures (forall s :: s in found && found[s] != NoTrades ==> (s, found[s]) in rows)
            <==> totals.fetchable + totals.unconfirmed <= 500
  {
    var ordered := Ascending(found.Keys);
    rows := DisplayRows(ordered, found);
    totals := Totals(|Select(ordered, found, Only(Fetchable))|, |Select(ordered, found, Only(NoTrades))|,
                     |Select(ordered, found, Only(Unconfirmed))|);
    TotalsCount(ordered, found);
  }

  /** One row per completed bar that is absent, with the reason; `found` is the whole set
      the capped rows are taken from. */
  method MissingBarRows(index: seq<int>, view: View) returns (rows: seq<(int, Reason)>, totals: Totals, ghost found: Found)
    requires view.have == set s | s in index
    ensures Complete(view, found)
    ensures forall i :: 0 <= i < |rows| ==>
              rows[i].0 !in view.have && rows[i].0 <= view.until && view.Verdict(rows[i].0) == Some(rows[i].1)
    ensures forall i, j :: 0 <= i < j < |rows| ==> rows[i].0 < rows[j].0
    ensures totals == Totals(|For(found, Only(Fetchable))|, |For(found, Only(NoTrades))|, |For(found, Only(Unconfirmed))|)
    ensures totals.fetchable + totals.noTrades + totals.unconfirmed == |found|
    ensures |rows| == if |found| <= 500 then |found| else 500
    ensures (forall s :: s in found && found[s] != NoTrades ==> (s, found[s]) in rows)
            <==> totals.fetchable + totals.unconfirmed <= 500
  {
    var all := FindMissing(index, view);
    found := all;
    rows, totals := Report(all);
    forall i | 0 <= i < |rows|
      ensures view.Verdict(rows[i].0) == Some(rows[i].1)
    {
      assert rows[i].0 in all;
    }
  }

  // -- another frame -------------------------------------------------------------------

  lemma FreshestOfMore(frames: seq<ProviderFrame>, f: ProviderFrame)
    ensures Freshest(frames).Some? ==> Freshest(frames + [f]).Some? && Freshest(frames + [f]).value <= Freshest(frames).value
  {
  }

  lemma SeenInMore(frames: seq<ProviderFrame>, f: ProviderFrame)
    ensures forall s :: Seen(frames, s) ==> Seen(frames + [f], s)
    ensures forall d :: Traded(frames, d) ==> Traded(frames + [f], d)
  {
    forall s | Seen(frames, s)
      ensures Seen(frames + [f], s)
    {
      var i :| 0 <= i < |frames| && s in frames[i].stamps;
      assert s in (frames + [f])[i].stamps;
    }
  }

  /** More evidence never loses a bar and never makes a verdict less certain: a fetchable
      bar stays fetchable, a quiet one is not put back in doubt, and a bar left in doubt
      was in doubt before. */
  lemma AnotherFrameSettles(view: View, f: ProviderFrame, s: int)
    ensures var more := view.(frames := view.frames + [f]);
            && (view.Verdict(s).Some? ==> more.Verdict(s).Some?)
            && (view.Verdict(s) == Some(Fetchable) ==> more.Verdict(s) == Some(Fetchable))
            && (view.Verdict(s) == Some(NoTrades) ==> more.Verdict(s) == Some(NoTrades) || more.Verdict(s) == Some(Fetchable))
            && (more.Verdict(s) == Some(Unconfirmed) ==> view.Verdict(s) == Some(Unconfirmed))
  {
    FreshestOfMore(view.frames, f);
    SeenInMore(view.frames, f);
  }

  /** So fetching never raises the count of bars in doubt, nor lowers that of bars to fetch. */
  lemma TotalsOnlySettle(view: View, f: ProviderFrame, found: Found, more: Found)
    requires Complete(view, found) && Complete(view.(frames := view.frames + [f]), more)
    ensures |For(more, Only(Unconfirmed))| <= |For(found, Only(Unconfirmed))|
    ensures |For(found, Only(Fetchable))| <= |For(more, Only(Fetchable))| && |found| <= |more|
  {
    forall s
      ensures s in For(more, Only(Unconfirmed)) ==> s in For(found, Only(Unconfirmed))
      ensures s in For(found, Only(Fetchable)) ==> s in For(more, Only(Fetchable))
      ensures s in found ==> s in more
    {
      AnotherFrameSettles(view, f, s);
    }
    CardinalityGrows(For(more, Only(Unconfirmed)), For(found, Only(Unconfirmed)));
    CardinalityGrows(For(found, Only(Fetchable)), For(more, Only(Fetchable)));
    CardinalityGrows(found.Keys, more.Keys);
  }
}
