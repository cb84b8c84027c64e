/** The session grid read off a file of bars, and the flat bars that fill its holes for
    display (src/data/dataset.py:98-129, 376-422). Intraday stamps, exchange-local. */
module Gaps {
  import opened Prelude
  import opened BarGrid

  /** A stored bar; a price or the volume may be missing. */
  datatype Row = Row(open: Option<real>, high: Option<real>, low: Option<real>, close: Option<real>, volume: Option<real>) {
    predicate Complete() {
      open.Some? && high.Some? && low.Some? && close.Some? && volume.Some?
    }
  }

  type Frame = map<int, Row>

  // -- the grid ----------------------------------------------------------------------

  function Days(stamps: set<int>): set<int> {
    set s | s in stamps :: Day(s)
  }

  /** The days of the file that have a bar at this time of day. */
  function SeenOn(stamps: set<int>, slot: int): set<int> {
    set d | d in Days(stamps) && d * DAY + slot in stamps
  }

  /** Half the sessions, rounded up, and never none. */
  function Need(days: nat): nat {
    if days == 0 then 1 else (days + 1) / 2
  }

  function GridOf(stamps: set<int>): set<int> {
    set s | s in stamps && |SeenOn(stamps, TimeOfDay(s))| >= Need(|Days(stamps)|) :: TimeOfDay(s)
  }

  lemma StampParts(s: int)
    ensures s == Day(s) * DAY + TimeOfDay(s) && 0 <= TimeOfDay(s) < DAY
  {
  }

  lemma NeededExactly(stamps: set<int>, slot: int)
    requires 0 <= slot < DAY
    ensures slot in GridOf(stamps) <==> |SeenOn(stamps, slot)| >= Need(|Days(stamps)|)
  {
    if |SeenOn(stamps, slot)| >= Need(|Days(stamps)|) {
      var d :| d in SeenOn(stamps, slot);
      OfDay(d, slot);
    }
  }

  /** A slot is on the grid exactly when some session has it and at least half of them do. */
  lemma OnTheGridExactly(stamps: set<int>, slot: int)
    requires 0 <= slot < DAY
    ensures slot in GridOf(stamps) <==> SeenOn(stamps, slot) != {} && 2 * |SeenOn(stamps, slot)| >= |Days(stamps)|
  {
    NeededExactly(stamps, slot);
    if SeenOn(stamps, slot) != {} {
      var d :| d in SeenOn(stamps, slot);
      assert d in Days(stamps);
    }
  }

  lemma GridSlots(stamps: set<int>)
    ensures forall slot :: slot in GridOf(stamps) ==> 0 <= slot < DAY
  {
  }

  /** The times of day of one session. */
  function TimesOf(stamps: set<int>, day: int): set<int> {
    set s | s in stamps && Day(s) == day :: TimeOfDay(s)
  }

  lemma TimesOfExactly(stamps: set<int>, day: int, slot: int)
    ensures slot in TimesOf(stamps, day) <==> 0 <= slot < DAY && day * DAY + slot in stamps
  {
  }

  /** A scan has grouped these stamps. */
  ghost predicate Grouped(byDay: map<int, set<int>>, stamps: set<int>) {
    byDay.Keys == Days(stamps) && forall d :: d in byDay ==> byDay[d] == TimesOf(stamps, d)
  }

  lemma GroupOne(byDay: map<int, set<int>>, stamps: set<int>, s: int)
    requires Grouped(byDay, stamps)
    ensures var times := if Day(s) in byDay then byDay[Day(s)] else {};
            Grouped(byDay[Day(s) := times + {TimeOfDay(s)}], stamps + {s})
  {
  }

  /** Group the stamps by day. */
  method ByDay(index: seq<int>) returns (byDay: map<int, set<int>>)
    ensures Grouped(byDay, set s | s in index)
  {
    byDay := map[];
    ghost var seen: set<int> := {};
    for i := 0 to |index|
      invariant seen == set s | s in index[..i]
      invariant Grouped(byDay, seen)
    {
      var day, slot := Day(index[i]), TimeOfDay(index[i]);
      GroupOne(byDay, seen, index[i]);
      byDay := byDay[day := (if day in byDay then byDay[day] else {}) + {slot}];
      seen := seen + {index[i]};
      assert index[..i + 1] == index[..i] + [index[i]];
    }
    assert index[..|index|] == index;
  }

  lemma Inhabited(s: set<int>)
    requires s != {}
    ensures exists x :: x in s
  {
    assert (forall x :: x !in s) ==> s == {};
  }

  function Count(counts: map<int, nat>, slot: int): nat {
    if slot in counts then counts[slot] else 0
  }

  /** Count one day's slots. */
  method CountDay(counts: map<int, nat>, times: set<int>) returns (more: map<int, nat>)
    ensures forall slot :: Count(more, slot) == Count(counts, slot) + if slot in times then 1 else 0
  {
    more := counts;
    var rest := times;
    ghost var done: set<int> := {};
    while rest != {}
      invariant done + rest == times && done !! rest
      invariant forall slot :: Count(more, slot) == Count(counts, slot) + if slot in done then 1 else 0
      decreases |rest|
    {
      Inhabited(rest);
      var slot :| slot in rest;
      more := more[slot := Count(more, slot) + 1];
      rest, done := rest - {slot}, done + {slot};
    }
  }

  /** How many of these days have the slot. */
  ghost function Having(byDay: map<int, set<int>>, days: set<int>, slot: int): set<int> {
    set d | d in days && d in byDay && slot in byDay[d]
  }

  lemma OneMoreDay(byDay: map<int, set<int>>, days: set<int>, d: int, slot: int)
    requires d in byDay && d !in days
    ensures |Having(byDay, days + {d}, slot)| == |Having(byDay, days, slot)| + if slot in byDay[d] then 1 else 0
  {
    assert Having(byDay, days + {d}, slot) == Having(byDay, days, slot) + if slot in byDay[d] then {d} else {};
  }

  /** Count every slot over all the sessions. */
  method CountSlots(byDay: map<int, set<int>>) returns (counts: map<int, nat>)
    ensures forall slot :: Count(counts, slot) == |Having(byDay, byDay.Keys, slot)|
  {
    counts := map[];
    var rest := byDay.Keys;
    ghost var done: set<int> := {};
    while rest != {}
      invariant done + rest == byDay.Keys && done !! rest
      invariant forall slot :: Count(counts, slot) == |Having(byDay, done, slot)|
      decreases |rest|
    {
      Inhabited(rest);
      var d :| d in rest;
      forall slot {
        OneMoreDay(byDay, done, d, slot);
      }
      counts := CountDay(counts, byDay[d]);
      rest, done := rest - {d}, done + {d};
    }
    assert done == byDay.Keys;
  }

  lemma HavingIsSeenOn(byDay: map<int, set<int>>, stamps: set<int>, slot: int)
    requires Grouped(byDay, stamps) && 0 <= slot < DAY
    ensures Having(byDay, byDay.Keys, slot) == SeenOn(stamps, slot)
  {
    forall d | d in Days(stamps) {
      TimesOfExactly(stamps, d, slot);
    }
  }

  lemma NobodyHas(byDay: map<int, set<int>>, stamps: set<int>, slot: int)
    requires Grouped(byDay, stamps) && !(0 <= slot < DAY)
    ensures |Having(byDay, byDay.Keys, slot)| == 0
  {
  }

  /** The times of day at least half the sessions of the file have. */
  method SessionGrid(index: seq<int>) returns (grid: set<int>)
    ensures var stamps := set s | s in index;
            && grid == GridOf(stamps)
            && forall slot :: 0 <= slot < DAY ==>
                 (slot in grid <==> SeenOn(stamps, slot) != {} && 2 * |SeenOn(stamps, slot)| >= |Days(stamps)|)
  {
    var byDay := ByDay(index);
    var counts := CountSlots(byDay);
    var need := Need(|byDay.Keys|);
    ghost var stamps := set s | s in index;
    grid := set slot | slot in counts && counts[slot] >= need;
    forall slot
      ensures slot in grid <==> slot in GridOf(stamps)
    {
      if 0 <= slot < DAY {
        NeededExactly(stamps, slot);
        HavingIsSeenOn(byDay, stamps, slot);
      } else {
        NobodyHas(byDay, stamps, slot);
      }
      assert slot in grid <==> Count(counts, slot) >= need;
    }
    forall slot | 0 <= slot < DAY {
      OnTheGridExactly(stamps, slot);
    }
  }

  // -- the fill ----------------------------------------------------------------------

  ghost predicate InSpan(stamps: set<int>, s: int) {
    exists a, b :: a in stamps && b in stamps && a <= s <= b
  }

  /** A slot of the grid, on one of the file's days, inside the span the file covers. */
  ghost predicate IsSlot(stamps: set<int>, s: int) {
    Day(s) in Days(stamps) && TimeOfDay(s) in GridOf(stamps) && InSpan(stamps, s)
  }

  const BLANK := Row(None, None, None, None, None)

  /** What an interval nobody traded in looks like. */
  function Flat(price: real): Row {
    Row(Some(price), Some(price), Some(price), Some(price), Some(0.0))
  }

  function RowAt(frame: Frame, s: int): Row {
    if s in frame then frame[s] else BLANK
  }

  function Or(x: Option<real>, y: Option<real>): Option<real> {
    if x.Some? then x else y
  }

  /** A missing price becomes the last close seen, a missing volume zero. */
  function Patched(row: Row, lastClose: Option<real>): Row {
    Row(Or(row.open, lastClose), Or(row.high, lastClose), Or(row.low, lastClose), Or(row.close, lastClose),
        Or(row.volume, Some(0.0)))
  }

  /** `p` is the latest of these stamps whose close is known. */
  ghost predicate LatestKnown(frame: Frame, stamps: set<int>, p: int) {
    && p in frame && p in stamps && frame[p].close.Some?
    && forall q :: q in frame && q in stamps && frame[q].close.Some? ==> q <= p
  }

  /** `close` is the last close known among these stamps, if there is one. */
  ghost predicate LastClose(frame: Frame, stamps: set<int>, close: Option<real>) {
    match close
    case None => forall q :: q in frame && q in stamps ==> frame[q].close.None?
    case Some(_) => exists p :: LatestKnown(frame, stamps, p) && frame[p].close == close
  }

  /** The stored stamps at or before `s`. */
  ghost function UpTo(frame: Frame, s: int): set<int> {
    set q | q in frame && q <= s
  }

  /** The row of this stamp, patched with the last close known at or before it. */
  ghost predicate PatchedAt(frame: Frame, s: int, row: Row) {
    exists close :: LastClose(frame, UpTo(frame, s), close) && row == Patched(RowAt(frame, s), close)
  }

  ghost predicate Carried(frame: Frame, out: Frame) {
    forall s :: s in out ==> PatchedAt(frame, s, out[s])
  }

  ghost predicate HasHole(frame: Frame) {
    exists s :: IsSlot(frame.Keys, s) && s !in frame
  }

  /** `out` is `frame` with its holes filled: a bar in every slot and no other bar added,
      every bar patched; a file without a hole is returned as it was. */
  ghost predicate FilledFrom(frame: Frame, out: Frame) {
    && (forall s :: s in out <==> s in frame || IsSlot(frame.Keys, s))
    && if HasHole(frame) then Carried(frame, out) else out == frame
  }

  /** The first and last stamp of a file. */
  method Bounds(index: seq<int>) returns (first: int, last: int)
    requires |index| > 0
    ensures first in index && last in index && forall s :: s in index ==> first <= s <= last
  {
    first, last := index[0], index[0];
    for i := 1 to |index|
      invariant first in index && last in index
      invariant forall k :: 0 <= k < i ==> first <= index[k] <= last
    {
      if index[i] < first {
        first := index[i];
      }
      if index[i] > last {
        last := index[i];
      }
    }
  }

  lemma {:induction false} LeastExists(s: set<int>)
    requires s != {}
    ensures exists x :: x in s && forall y :: y in s ==> x <= y
    decreases |s|
  {
    Inhabited(s);
    var z :| z in s;
    var rest := s - {z};
    if rest != {} {
      LeastExists(rest);
      var x :| x in rest && forall y :: y in rest ==> x <= y;
      var least := if z < x then z else x;
      assert forall y :: y in s ==> y == z || y in rest;
      assert least in s;
    } else {
      assert s == {z};
    }
  }

  ghost predicate IsLeast(s: int, all: set<int>) {
    s in all && forall y :: y in all ==> s <= y
  }

  /** Half-way through the scan: `done` lies before `rest`, and the close to carry is the
      last one known among the bars passed. */
  ghost predicate Scanned(frame: Frame, out: Frame, done: set<int>, rest: set<int>, lastClose: Option<real>) {
    && frame.Keys <= done + rest && out.Keys == done && Carried(frame, out)
    && (forall x, y :: x in done && y in rest ==> x < y)
    && LastClose(frame, done, lastClose)
  }

  /** The close to carry after one more bar. */
  lemma CloseMovesOn(frame: Frame, done: set<int>, rest: set<int>, s: int, lastClose: Option<real>)
    requires frame.Keys <= done + rest && IsLeast(s, rest) && forall x :: x in done ==> x < s
    requires LastClose(frame, done, lastClose)
    ensures LastClose(frame, UpTo(frame, s), Or(RowAt(frame, s).close, lastClose))
    ensures LastClose(frame, done + {s}, Or(RowAt(frame, s).close, lastClose))
  {
    forall q | q in frame
      ensures q in UpTo(frame, s) <==> q in done + {s}
    {
    }
    if s in frame && frame[s].close.Some? {
      assert LatestKnown(frame, UpTo(frame, s), s) && LatestKnown(frame, done + {s}, s);
    } else if lastClose.Some? {
      var p :| LatestKnown(frame, done, p) && frame[p].close == lastClose;
      assert LatestKnown(frame, UpTo(frame, s), p) && LatestKnown(frame, done + {s}, p);
    }
  }

  lemma PassOne(frame: Frame, out: Frame, done: set<int>, rest: set<int>, lastClose: Option<real>, s: int)
    requires Scanned(frame, out, done, rest, lastClose) && IsLeast(s, rest)
    ensures var close := Or(RowAt(frame, s).close, lastClose);
            Scanned(frame, out[s := Patched(RowAt(frame, s), close)], done + {s}, rest - {s}, close)
  {
    hide LastClose, Patched, RowAt, UpTo;
    var close := Or(RowAt(frame, s).close, lastClose);
    CloseMovesOn(frame, done, rest, s, lastClose);
    assert PatchedAt(frame, s, Patched(RowAt(frame, s), close));
  }

  lemma ScanStarts(frame: Frame, all: set<int>)
    requires frame.Keys <= all
    ensures Scanned(frame, map[], all - all, all, None)
  {
  }

  lemma ScanEnds(frame: Frame, out: Frame, all: set<int>, lastClose: Option<real>)
    requires Scanned(frame, out, all - {}, {}, lastClose)
    ensures out.Keys == all && Carried(frame, out)
  {
  }

  method Least(all: set<int>) returns (s: int)
    requires all != {}
    ensures IsLeast(s, all)
  {
    LeastExists(all);
    s :| s in all && forall y :: y in all ==> s <= y;
  }

  /** Carry the last close forward over the stamps in order. */
  method ForwardFill(frame: Frame, all: set<int>) returns (out: Frame)
    requires frame.Keys <= all
    ensures out.Keys == all && Carried(frame, out)
  {
    hide Scanned, Carried;
    out := map[];
    var rest, lastClose := all, None;
    ScanStarts(frame, all);
    while rest != {}
      invariant rest <= all && Scanned(frame, out, all - rest, rest, lastClose)
      decreases |rest|
    {
      hide Scanned, Carried;
      var s := Least(rest);
      assert all - (rest - {s}) == (all - rest) + {s};
      PassOne(frame, out, all - rest, rest, lastClose, s);
      lastClose := Or(RowAt(frame, s).close, lastClose);
      out := out[s := Patched(RowAt(frame, s), lastClose)];
      rest := rest - {s};
    }
    ScanEnds(frame, out, all, lastClose);
  }

  /** The slots of these days, in the file's span. */
  method SlotsBetween(days: set<int>, grid: set<int>, first: int, last: int) returns (slots: set<int>)
    requires forall slot :: slot in grid ==> 0 <= slot < DAY
    ensures forall s :: s in slots <==> Day(s) in days && TimeOfDay(s) in grid && first <= s <= last
  {
    slots := set d, slot | d in days && slot in grid && first <= d * DAY + slot <= last :: d * DAY + slot;
    forall s
      ensures s in slots <==> Day(s) in days && TimeOfDay(s) in grid && first <= s <= last
    {
      StampParts(s);
      if s in slots {
        var d, slot :| d in days && slot in grid && s == d * DAY + slot && first <= s <= last;
        OfDay(d, slot);
      }
    }
  }

  lemma SpanIsBounds(stamps: set<int>, first: int, last: int, s: int)
    requires first in stamps && last in stamps && forall x :: x in stamps ==> first <= x <= last
    ensures first <= s <= last <==> InSpan(stamps, s)
  {
  }

  lemma NothingToFill(frame: Frame)
    requires forall s :: IsSlot(frame.Keys, s) ==> s in frame
    ensures FilledFrom(frame, frame)
  {
  }

  lemma HolesFilled(frame: Frame, slots: set<int>, out: Frame)
    requires forall s :: s in slots <==> IsSlot(frame.Keys, s)
    requires slots - frame.Keys != {}
    requires out.Keys == frame.Keys + (slots - frame.Keys) && Carried(frame, out)
    ensures FilledFrom(frame, out)
  {
    hide Carried, IsSlot;
    Inhabited(slots - frame.Keys);
    var hole :| hole in slots - frame.Keys;
    assert IsSlot(frame.Keys, hole) && hole !in frame;
    forall s
      ensures s in out <==> s in frame || IsSlot(frame.Keys, s)
    {
      assert s in out <==> s in out.Keys;
      assert s in slots <==> IsSlot(frame.Keys, s);
    }
  }

  /** Every slot of a file's grid inside its span, as a set. */
  method AllSlots(index: seq<int>, stamps: set<int>, grid: set<int>) returns (slots: set<int>)
    requires |index| > 0 && (set s | s in index) == stamps && grid == GridOf(stamps)
    ensures forall s :: s in slots <==> IsSlot(stamps, s)
  {
    var first, last := Bounds(index);
    assert first in stamps && last in stamps;
    slots := SlotsBetween(Days(stamps), grid, first, last);
    forall s
      ensures s in slots <==> IsSlot(stamps, s)
    {
      SpanIsBounds(stamps, first, last, s);
    }
  }

  /** Give every slot of the session grid a bar, for display. */
  method FillSessionGaps(index: seq<int>, frame: Frame) returns (out: Frame)
    requires (set s | s in index) == frame.Keys
    ensures FilledFrom(frame, out)
  {
    if |index| == 0 {
      NothingToFill(frame);
      return frame;
    }
    var grid := SessionGrid(index);
    if grid == {} {
      NothingToFill(frame);
      return frame;
    }
    var slots := AllSlots(index, frame.Keys, grid);
    var absent := slots - frame.Keys;
    if absent == {} {
      assert forall s :: s in slots ==> s in frame.Keys + absent;
      NothingToFill(frame);
      return frame;
    }
    out := ForwardFill(frame, frame.Keys + absent);
    HolesFilled(frame, slots, out);
  }

  /** What a filled file holds: its own bars, and one at every instant strictly inside it that
      falls on a day it has bars of, at a time of day half of its days or more have. */
  lemma FilledExactly(frame: Frame, out: Frame, s: int)
    requires FilledFrom(frame, out)
    ensures var sessions := set x | x in frame :: Day(x);
            var with := set x | x in frame && TimeOfDay(x) == TimeOfDay(s) :: Day(x);
            s in out <==>
              s in frame
              || ((exists a, b :: a in frame && b in frame && a < s < b) && Day(s) in sessions
                  && with != {} && 2 * |with| >= |sessions|)
  {
    var with := set x | x in frame && TimeOfDay(x) == TimeOfDay(s) :: Day(x);
    StampParts(s);
    OnTheGridExactly(frame.Keys, TimeOfDay(s));
    SeenExactly(frame.Keys, TimeOfDay(s));
    assert with == SeenOn(frame.Keys, TimeOfDay(s));
    assert (set x | x in frame :: Day(x)) == Days(frame.Keys);
    hide GridOf, SeenOn, Days, Carried;
    if s !in frame && InSpan(frame.Keys, s) {
      var a, b :| a in frame.Keys && b in frame.Keys && a <= s <= b;
      assert a in frame && b in frame && a < s < b;
    }
    if exists a, b :: a in frame && b in frame && a < s < b {
      var a, b :| a in frame && b in frame && a < s < b;
      assert a in frame.Keys && b in frame.Keys && a <= s <= b;
    }
  }

  lemma SeenExactly(stamps: set<int>, slot: int)
    requires 0 <= slot < DAY
    ensures SeenOn(stamps, slot) == set x | x in stamps && TimeOfDay(x) == slot :: Day(x)
  {
    forall d
      ensures d in SeenOn(stamps, slot) <==> exists x :: x in stamps && TimeOfDay(x) == slot && Day(x) == d
    {
      OfDay(d, slot);
      if d in SeenOn(stamps, slot) {
        assert d * DAY + slot in stamps;
      }
      if exists x :: x in stamps && TimeOfDay(x) == slot && Day(x) == d {
        var x :| x in stamps && TimeOfDay(x) == slot && Day(x) == d;
        StampParts(x);
      }
    }
  }

  // -- what a fill keeps ---------------------------------------------------------------

  lemma SameDays(frame: Frame, out: Frame)
    requires FilledFrom(frame, out)
    ensures Days(out.Keys) == Days(frame.Keys)
  {
  }

  lemma AddedOrStored(frame: Frame, out: Frame, s: int)
    requires FilledFrom(frame, out)
    ensures s in frame.Keys ==> s in out.Keys
    ensures s in out.Keys ==> s in frame.Keys || TimeOfDay(s) in GridOf(frame.Keys)
  {
  }

  /** A fill adds only grid slots: a slot off the grid is seen on the days it was, and a
      slot on it on no fewer. */
  lemma SeenAfter(frame: Frame, out: Frame, slot: int)
    requires FilledFrom(frame, out) && 0 <= slot < DAY
    ensures SeenOn(frame.Keys, slot) <= SeenOn(out.Keys, slot)
    ensures slot in GridOf(frame.Keys) || SeenOn(out.Keys, slot) == SeenOn(frame.Keys, slot)
  {
    hide FilledFrom, GridOf, Days;
    SameDays(frame, out);
    forall d
      ensures d in SeenOn(frame.Keys, slot) ==> d in SeenOn(out.Keys, slot)
      ensures d in SeenOn(out.Keys, slot) ==> d in SeenOn(frame.Keys, slot) || slot in GridOf(frame.Keys)
    {
      hide FilledFrom, GridOf, Days;
      OfDay(d, slot);
      AddedOrStored(frame, out, d * DAY + slot);
    }
  }

  lemma CardinalityGrows(a: set<int>, b: set<int>)
    requires a <= b
    ensures |a| <= |b|
  {
    assert b == a + (b - a);
  }

  /** The grid of a filled file is the grid it was filled to. */
  lemma GridIsFixpoint(frame: Frame, out: Frame)
    requires FilledFrom(frame, out)
    ensures GridOf(out.Keys) == GridOf(frame.Keys)
  {
    SameDays(frame, out);
    forall slot
      ensures slot in GridOf(out.Keys) <==> slot in GridOf(frame.Keys)
    {
      if 0 <= slot < DAY {
        SeenAfter(frame, out, slot);
        CardinalityGrows(SeenOn(frame.Keys, slot), SeenOn(out.Keys, slot));
        NeededExactly(frame.Keys, slot);
        NeededExactly(out.Keys, slot);
      }
    }
  }

  lemma SpanIsKept(frame: Frame, out: Frame, s: int)
    requires FilledFrom(frame, out) && InSpan(out.Keys, s)
    ensures InSpan(frame.Keys, s)
  {
  }

  /** A slot of a filled file already has its bar. */
  lemma SlotsAreFull(frame: Frame, out: Frame, s: int)
    requires FilledFrom(frame, out) && IsSlot(out.Keys, s)
    ensures s in out
  {
    SameDays(frame, out);
    GridIsFixpoint(frame, out);
    SpanIsKept(frame, out, s);
  }

  lemma SameFrame(a: Frame, b: Frame)
    requires forall s :: s in a <==> s in b
    requires forall s :: s in a && s in b ==> a[s] == b[s]
    ensures a == b
  {
    assert a.Keys == b.Keys by {
      assert forall s :: s in a.Keys <==> s in b.Keys;
    }
    assert forall s :: s in a ==> a[s] == b[s];
  }

  /** Filling a filled file changes nothing. */
  lemma SecondFillAddsNothing(frame: Frame, out: Frame, again: Frame)
    requires FilledFrom(frame, out) && FilledFrom(out, again)
    ensures again == out
  {
    forall s | IsSlot(out.Keys, s)
      ensures s in out
    {
      SlotsAreFull(frame, out, s);
    }
  }

  lemma LastCloseIsOne(frame: Frame, stamps: set<int>, a: Option<real>, b: Option<real>)
    requires LastClose(frame, stamps, a) && LastClose(frame, stamps, b)
    ensures a == b
  {
    if a.Some? && b.Some? {
      var p :| LatestKnown(frame, stamps, p) && frame[p].close == a;
      var q :| LatestKnown(frame, stamps, q) && frame[q].close == b;
      assert p == q;
    }
  }

  lemma PatchIsOne(frame: Frame, s: int, r1: Row, r2: Row)
    requires PatchedAt(frame, s, r1) && PatchedAt(frame, s, r2)
    ensures r1 == r2
  {
    hide LastClose, Patched;
    var a :| LastClose(frame, UpTo(frame, s), a) && r1 == Patched(RowAt(frame, s), a);
    var b :| LastClose(frame, UpTo(frame, s), b) && r2 == Patched(RowAt(frame, s), b);
    LastCloseIsOne(frame, UpTo(frame, s), a, b);
  }

  /** There is only one way to fill a file. */
  lemma FillIsDetermined(frame: Frame, out1: Frame, out2: Frame)
    requires FilledFrom(frame, out1) && FilledFrom(frame, out2)
    ensures out1 == out2
  {
    hide PatchedAt, IsSlot;
    if HasHole(frame) {
      forall s | s in out1 && s in out2
        ensures out1[s] == out2[s]
      {
        PatchIsOne(frame, s, out1[s], out2[s]);
      }
      SameFrame(out1, out2);
    }
  }

  /** What was known stays: a stored price or volume is never changed, and a complete bar
      not at all. */
  lemma KnownStays(frame: Frame, out: Frame, s: int)
    requires FilledFrom(frame, out) && s in frame
    ensures s in out
    ensures frame[s].open.Some? ==> out[s].open == frame[s].open
    ensures frame[s].high.Some? ==> out[s].high == frame[s].high
    ensures frame[s].low.Some? ==> out[s].low == frame[s].low
    ensures frame[s].close.Some? ==> out[s].close == frame[s].close
    ensures frame[s].volume.Some? ==> out[s].volume == frame[s].volume
    ensures frame[s].Complete() ==> out[s] == frame[s]
  {
    hide IsSlot, LastClose;
    if HasHole(frame) {
      assert PatchedAt(frame, s, out[s]);
    }
  }

  /** When the stored closes are known, as the loader sees to, a bar that was added is flat
      at the close of the latest stored bar before it, with no volume. */
  lemma AddedBarsAreFlat(frame: Frame, out: Frame, s: int)
    requires FilledFrom(frame, out) && s in out && s !in frame
    requires forall q :: q in frame ==> frame[q].close.Some?
    ensures exists p :: p in frame && p < s && (forall q :: q in frame && q < s ==> q <= p)
                        && var last := frame[p].close;
                           out[s] == Row(last, last, last, last, Some(0.0))
  {
    hide FilledFrom, Patched, LastClose;
    var close := PatchOfAdded(frame, out, s);
    var a := SpanHasAStart(frame, out, s);
    var p := LatestOfAll(frame, s, a, close);
    BlankPatchedIsFlat(close.value);
  }

  lemma LatestOfAll(frame: Frame, s: int, a: int, close: Option<real>) returns (p: int)
    requires LastClose(frame, UpTo(frame, s), close) && s !in frame && a in frame && a < s
    requires forall q :: q in frame ==> frame[q].close.Some?
    ensures p in frame && p < s && frame[p].close == close && close.Some?
    ensures forall q :: q in frame && q < s ==> q <= p
  {
    assert a in UpTo(frame, s) && frame[a].close.Some?;
    assert close.Some?;
    p :| LatestKnown(frame, UpTo(frame, s), p) && frame[p].close == close;
    hide LastClose;
    assert p in UpTo(frame, s);
    forall q | q in frame && q < s
      ensures q <= p
    {
      assert q in UpTo(frame, s);
    }
  }

  lemma BlankPatchedIsFlat(price: real)
    ensures Patched(BLANK, Some(price)) == Flat(price)
  {
  }

  lemma PatchOfAdded(frame: Frame, out: Frame, s: int) returns (close: Option<real>)
    requires FilledFrom(frame, out) && s in out && s !in frame
    ensures LastClose(frame, UpTo(frame, s), close) && out[s] == Patched(BLANK, close)
  {
    hide IsSlot, LastClose, Patched;
    assert PatchedAt(frame, s, out[s]);
    close :| LastClose(frame, UpTo(frame, s), close) && out[s] == Patched(RowAt(frame, s), close);
  }

  lemma SpanHasAStart(frame: Frame, out: Frame, s: int) returns (a: int)
    requires FilledFrom(frame, out) && s in out && s !in frame
    ensures a in frame && a < s
  {
    hide GridOf, Days, Carried, HasHole;
    assert IsSlot(frame.Keys, s);
    a :| a in frame.Keys && a <= s;
  }
}
