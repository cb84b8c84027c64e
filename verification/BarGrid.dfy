/** Which bar closed last and when the next one closes (src/data/dataset.py:161-291). Time
    is microseconds of exchange-local wall clock, and day 0 is a Monday. */
module BarGrid {
  import opened Prelude

  const MINUTE := 60000000
  const DAY := 1440 * MINUTE

  /** A calendar bar is its session; any other size is so many minutes, when the text of
      the setting can be read as such. */
  datatype BarSize = Calendar | Intraday(minutes: Option<nat>)

  function Day(t: int): int {
    t / DAY
  }

  function TimeOfDay(t: int): int {
    t % DAY
  }

  predicate Weekday(day: int) {
    day % 7 < 5
  }

  datatype Grid = Grid(openAt: int, closeAt: int, size: BarSize) {

    /** The session's hours are two times of day, in either order. */
    predicate Valid() {
      0 <= openAt < DAY && 0 <= closeAt < DAY
    }

    /** The length of an intraday bar, an hour when the setting cannot be read. */
    function Step(): (r: int)
      ensures r > 0
    {
      if size.Intraday? && size.minutes.Some? && size.minutes.value > 0 then size.minutes.value * MINUTE
      else 60 * MINUTE
    }

    predicate Readable() {
      size.Intraday? ==> size.minutes.Some? && size.minutes.value > 0
    }

    /** Bars exist at all: an intraday session has to open before it closes. */
    predicate HasBars() {
      size.Intraday? ==> openAt < closeAt
    }

    // -- what the two loops are meant to find -------------------------------------

    /** A bar stamp. An intraday bar is stamped with its start, a calendar bar with its date. */
    predicate IsBar(stamp: int) {
      && Weekday(Day(stamp))
      && if size.Calendar? then TimeOfDay(stamp) == 0
         else openAt <= TimeOfDay(stamp) < closeAt && (TimeOfDay(stamp) - openAt) % Step() == 0
    }

    /** When the bar has finished forming: the session's end cuts its last bar short. */
    function CloseOf(stamp: int): int {
      var end := Day(stamp) * DAY + closeAt;
      if size.Calendar? || stamp + Step() > end then end else stamp + Step()
    }

    /** An instant at which some bar finishes. */
    predicate IsBoundary(t: int) {
      && Weekday(Day(t))
      && if size.Calendar? then TimeOfDay(t) == closeAt
         else openAt < TimeOfDay(t) <= closeAt && (TimeOfDay(t) == closeAt || (TimeOfDay(t) - openAt) % Step() == 0)
    }

    ghost predicate IsFloor(b: int, t: int) {
      IsBoundary(b) && b <= t && forall x :: b < x <= t ==> !IsBoundary(x)
    }

    ghost predicate IsNext(b: int, t: int) {
      IsBoundary(b) && t < b && forall x :: t < x < b ==> !IsBoundary(x)
    }

    /** The newest bar that has finished forming. */
    ghost predicate IsLastClosed(stamp: int, t: int) {
      IsBar(stamp) && IsFloor(CloseOf(stamp), t)
    }

    // -- bars and boundaries correspond --------------------------------------------

    lemma BarCloses(stamp: int)
      requires Valid() && IsBar(stamp)
      ensures IsBoundary(CloseOf(stamp)) && Day(CloseOf(stamp)) == Day(stamp)
      ensures size.Intraday? ==> stamp < CloseOf(stamp)
    {
      var day, tod := Day(stamp), TimeOfDay(stamp);
      if size.Calendar? || stamp + Step() > day * DAY + closeAt {
        OfDay(day, closeAt);
      } else {
        OfDay(day, tod + Step());
        NextMultiple(tod - openAt, Step());
      }
    }

    /** A day's bars do not overlap. */
    lemma ClosesBeforeTheNextStarts(s1: int, s2: int)
      requires Valid() && size.Intraday? && IsBar(s1) && IsBar(s2) && Day(s1) == Day(s2) && s1 < s2
      ensures CloseOf(s1) <= s2
    {
      MultiplesApart(TimeOfDay(s1) - openAt, TimeOfDay(s2) - openAt, Step());
    }

    /** A boundary is the close of one bar only. */
    lemma OneBarPerBoundary(s1: int, s2: int)
      requires Valid() && IsBar(s1) && IsBar(s2) && CloseOf(s1) == CloseOf(s2)
      ensures s1 == s2
    {
      BarCloses(s1);
      BarCloses(s2);
      if size.Intraday? && s1 < s2 {
        ClosesBeforeTheNextStarts(s1, s2);
      } else if size.Intraday? && s2 < s1 {
        ClosesBeforeTheNextStarts(s2, s1);
      }
    }

    /** No boundary falls strictly between two consecutive starts, or inside a bar. */
    lemma NothingInside(stamp: int, t: int)
      requires Valid() && size.Intraday? && IsBar(stamp) && stamp < t < CloseOf(stamp)
      ensures !IsBoundary(t)
    {
      var day, tod := Day(stamp), TimeOfDay(stamp);
      OfDay(day, t - day * DAY);
      if (TimeOfDay(t) - openAt) % Step() == 0 {
        MultiplesApart(tod - openAt, TimeOfDay(t) - openAt, Step());
      }
    }

    // -- where a day's boundaries are -------------------------------------------------

    function StampAt(day: int, k: int): int {
      day * DAY + openAt + k * Step()
    }

    lemma StampIsBar(day: int, k: nat)
      requires Valid() && size.Intraday? && Weekday(day) && StampAt(day, k) < day * DAY + closeAt
      ensures IsBar(StampAt(day, k)) && Day(StampAt(day, k)) == day
    {
      var x := k * Step();
      MultipleOf(k, Step());
      OfDay(day, openAt + x);
    }

    lemma SessionEndIsFloor(day: int, t: int)
      requires Valid() && HasBars() && Weekday(day) && day * DAY + closeAt <= t
      requires forall d :: day < d < Day(t) ==> !Weekday(d)
      requires day < Day(t) ==> forall x :: Day(t) * DAY <= x <= t ==> !IsBoundary(x)
      ensures IsFloor(day * DAY + closeAt, t)
    {
      OfDay(day, closeAt);
      forall x | day * DAY + closeAt < x <= t
        ensures !IsBoundary(x)
      {
        if day < Day(x) < Day(t) {
          assert !Weekday(Day(x));
        }
      }
    }

    /** A bar still forming at `t`, and no boundary of its day before it: then the floor of
        `t` is where the bar started, or earlier. */
    lemma NothingSince(stamp: int, t: int)
      requires Valid() && size.Intraday? && IsBar(stamp) && stamp <= t < CloseOf(stamp)
      ensures forall x :: stamp < x <= t ==> !IsBoundary(x)
    {
      forall x | stamp < x <= t
        ensures !IsBoundary(x)
      {
        NothingInside(stamp, x);
      }
    }

    // -- the loops -------------------------------------------------------------------

    /** Every stamp in a day's session, in order. */
    method SessionBars(day: int) returns (stamps: seq<int>)
      requires Valid() && size.Intraday?
      ensures |stamps| > 0 <==> openAt < closeAt
      ensures forall k :: 0 <= k < |stamps| ==> stamps[k] == StampAt(day, k) && stamps[k] < day * DAY + closeAt
      ensures |stamps| > 0 ==> stamps[|stamps| - 1] + Step() >= day * DAY + closeAt
    {
      stamps := [];
      var cursor, end := day * DAY + openAt, day * DAY + closeAt;
      while cursor < end
        invariant cursor == StampAt(day, |stamps|)
        invariant forall k :: 0 <= k < |stamps| ==> stamps[k] == StampAt(day, k) && stamps[k] < end
        invariant |stamps| > 0 ==> stamps[|stamps| - 1] + Step() == cursor
        decreases end - cursor
      {
        stamps := stamps + [cursor];
        cursor := cursor + Step();
      }
    }

    /** The last bar of a weekday's session, which closes when the session does. */
    method LastOfSession(day: int) returns (stamp: Option<int>)
      requires Valid() && size.Intraday? && Weekday(day)
      ensures stamp.Some? <==> HasBars()
      ensures stamp.Some? ==> IsBar(stamp.value) && CloseOf(stamp.value) == day * DAY + closeAt
    {
      var bars := SessionBars(day);
      if |bars| == 0 {
        return None;
      }
      StampIsBar(day, |bars| - 1);
      stamp := Some(bars[|bars| - 1]);
    }

    /** The last bar of the weekday before `day`. */
    method PreviousSession(day: int) returns (stamp: Option<int>, ghost back: int)
      requires Valid() && size.Intraday?
      ensures back < day && Weekday(back) && forall d :: back < d < day ==> !Weekday(d)
      ensures stamp.Some? <==> HasBars()
      ensures stamp.Some? ==> IsBar(stamp.value) && CloseOf(stamp.value) == back * DAY + closeAt
    {
      var at := day - 1;
      while !Weekday(at)
        invariant at < day && forall d :: at < d < day ==> !Weekday(d)
        decreases at % 7
      {
        at := at - 1;
      }
      back := at;
      stamp := LastOfSession(at);
    }

    /** The most recent weekday that is over. */
    method EligibleDate(t: int) returns (day: int)
      requires Valid()
      ensures Weekday(day) && day * DAY + closeAt <= t
      ensures forall d :: day < d <= Day(t) && Weekday(d) ==> d == Day(t) && TimeOfDay(t) < closeAt
    {
      day := Day(t);
      if !Weekday(day) || TimeOfDay(t) < closeAt {
        day := day - 1;
      }
      while !Weekday(day)
        invariant day * DAY + closeAt <= t || !Weekday(day)
        invariant day < Day(t) || (Weekday(day) && closeAt <= TimeOfDay(t))
        invariant day <= Day(t)
        invariant forall d :: day < d <= Day(t) && Weekday(d) ==> d == Day(t) && TimeOfDay(t) < closeAt
        decreases day % 7
      {
        day := day - 1;
      }
    }

    /** The stamps of a session whose full length has passed by `t`; the caller wants the last. */
    method NewestPassed(bars: seq<int>, t: int) returns (closed: seq<int>, ghost j: int)
      ensures -1 <= j < |bars| && (closed == [] <==> j == -1)
      ensures j >= 0 ==> closed[|closed| - 1] == bars[j] && bars[j] + Step() <= t
      ensures forall k :: j < k < |bars| ==> bars[k] + Step() > t
    {
      closed := [];
      j := -1;
      for i := 0 to |bars|
        invariant -1 <= j < i
        invariant closed == [] <==> j == -1
        invariant j >= 0 ==> closed[|closed| - 1] == bars[j] && bars[j] + Step() <= t
        invariant forall k :: j < k < i ==> bars[k] + Step() > t
      {
        if bars[i] + Step() <= t {
          closed := closed + [bars[i]];
          j := i;
        }
      }
    }

    lemma AStepApart(day: int, k: int)
      ensures StampAt(day, k + 1) == StampAt(day, k) + Step()
    {
    }

    /** Bar `j` has run its length by `t` and bar `j + 1` has not. */
    lemma PassedIsFloor(day: int, t: int, j: nat)
      requires Valid() && size.Intraday? && Weekday(day)
      requires StampAt(day, j + 1) <= t < day * DAY + closeAt && t < StampAt(day, j + 2)
      ensures IsLastClosed(StampAt(day, j), t)
    {
      AStepApart(day, j);
      AStepApart(day, j + 1);
      StampIsBar(day, j);
      StampIsBar(day, j + 1);
      BarCloses(StampAt(day, j));
      NothingSince(StampAt(day, j + 1), t);
    }

    /** The newest bar of the session `t` falls in, when one of its bars has closed. */
    method ClosedThisSession(t: int) returns (stamp: Option<int>)
      requires Valid() && size.Intraday? && Weekday(Day(t)) && openAt <= TimeOfDay(t) < closeAt
      ensures stamp.Some? ==> IsLastClosed(stamp.value, t)
      ensures stamp.None? ==> forall x :: Day(t) * DAY <= x <= t ==> !IsBoundary(x)
    {
      var bars := SessionBars(Day(t));
      var closed;
      ghost var j;
      closed, j := NewestPassed(bars, t);
      if closed != [] {
        stamp := Some(closed[|closed| - 1]);
        AStepApart(Day(t), j);
        AStepApart(Day(t), j + 1);
        PassedIsFloor(Day(t), t, j);
      } else {
        stamp := None;
        StampIsBar(Day(t), 0);
        NothingBetween(Day(t), 0, Day(t) * DAY - 1, CloseOf(bars[0]));
      }
    }

    /** A calendar bar is the last one that is over. */
    method LastClosedSession(t: int) returns (stamp: int)
      requires Valid() && size.Calendar?
      ensures IsLastClosed(stamp, t)
    {
      var day := EligibleDate(t);
      SessionEndIsFloor(day, t);
      OfDay(day, 0);
      stamp := day * DAY;
    }

    lemma NothingBeforeTheOpen(t: int)
      requires Valid() && size.Intraday? && (Weekday(Day(t)) ==> TimeOfDay(t) <= openAt)
      ensures forall x :: Day(t) * DAY <= x <= t ==> !IsBoundary(x)
    {
      forall x | Day(t) * DAY <= x <= t
        ensures !IsBoundary(x)
      {
        OfDay(Day(t), x - Day(t) * DAY);
      }
    }

    /** The close of the previous session, when nothing has closed today. */
    method LastBeforeToday(t: int) returns (stamp: Option<int>)
      requires Valid() && size.Intraday? && forall x :: Day(t) * DAY <= x <= t ==> !IsBoundary(x)
      ensures stamp.Some? <==> HasBars()
      ensures stamp.Some? ==> IsLastClosed(stamp.value, t)
    {
      ghost var back;
      stamp, back := PreviousSession(Day(t));
      if stamp.Some? {
        SessionEndIsFloor(back, t);
      }
    }

    /** The newest bar that has finished forming at `t`: the one whose close is the greatest
        boundary at or before `t`. There is none only when sessions are empty. */
    method LastClosedBar(t: int) returns (stamp: Option<int>)
      requires Valid()
      ensures stamp.Some? <==> HasBars()
      ensures stamp.Some? ==> IsLastClosed(stamp.value, t)
    {
      if size.Calendar? {
        var bar := LastClosedSession(t);
        return Some(bar);
      }
      if !Weekday(Day(t)) {
        NothingBeforeTheOpen(t);
        stamp := LastBeforeToday(t);
      } else if TimeOfDay(t) >= closeAt {
        stamp := LastOfSession(Day(t));
        if stamp.Some? {
          SessionEndIsFloor(Day(t), t);
        }
      } else if TimeOfDay(t) < openAt {
        NothingBeforeTheOpen(t);
        stamp := LastBeforeToday(t);
      } else {
        stamp := ClosedThisSession(t);
        if stamp.None? {
          stamp := LastBeforeToday(t);
        }
      }
    }

    /** When each bar of a weekday's session closes, in order. */
    method Boundaries(day: int) returns (out: seq<int>)
      requires Valid() && Readable() && size.Intraday? && Weekday(day)
      ensures |out| > 0 <==> openAt < closeAt
      ensures forall k :: 0 <= k < |out| ==> StampAt(day, k) < day * DAY + closeAt
      ensures forall k :: 0 <= k < |out| ==>
                out[k] == if StampAt(day, k) + Step() <= day * DAY + closeAt then StampAt(day, k) + Step() else day * DAY + closeAt
      ensures |out| > 0 ==> out[|out| - 1] == day * DAY + closeAt
    {
      out := [];
      var cursor, end := day * DAY + openAt, day * DAY + closeAt;
      while cursor < end
        invariant cursor == StampAt(day, |out|)
        invariant forall k :: 0 <= k < |out| ==> StampAt(day, k) < end
        invariant forall k :: 0 <= k < |out| ==>
                    out[k] == if StampAt(day, k) + Step() <= end then StampAt(day, k) + Step() else end
        invariant |out| > 0 ==> out[|out| - 1] == if cursor < end then cursor else end
        decreases end - cursor
      {
        out := out + [if cursor + Step() <= end then cursor + Step() else end];
        cursor := cursor + Step();
      }
    }

    /** The first boundary of a weekday after `t`, when the day still has one. */
    method FirstAhead(day: int, t: int) returns (ahead: Option<int>)
      requires Valid() && Readable() && size.Intraday? && Weekday(day)
      ensures ahead.Some? <==> HasBars() && t < day * DAY + closeAt
      ensures ahead.Some? ==> IsBoundary(ahead.value) && t < ahead.value
                              && forall x :: day * DAY <= x < ahead.value && t < x ==> !IsBoundary(x)
    {
      var out := Boundaries(day);
      for i := 0 to |out|
        invariant i > 0 ==> out[i - 1] <= t
      {
        if out[i] > t {
          StampIsBar(day, i);
          BarCloses(StampAt(day, i));
          if i > 0 {
            Distributes(i, i - 1, Step());
          }
          NothingBetween(day, i, t, out[i]);
          return Some(out[i]);
        }
      }
      return None;
    }

    lemma NothingBetween(day: int, k: nat, t: int, b: int)
      requires Valid() && size.Intraday? && IsBar(StampAt(day, k)) && Day(StampAt(day, k)) == day
      requires b == CloseOf(StampAt(day, k)) && (k == 0 || StampAt(day, k) <= t)
      ensures forall x :: day * DAY <= x < b && t < x ==> !IsBoundary(x)
    {
      var stamp := StampAt(day, k);
      forall x | day * DAY <= x < b && t < x
        ensures !IsBoundary(x)
      {
        OfDay(day, x - day * DAY);
        if stamp < x {
          NothingInside(stamp, x);
        }
      }
    }

    method NextWeekday(day: int) returns (next: int)
      ensures day < next && Weekday(next) && forall d :: day < d < next ==> !Weekday(d)
    {
      next := day + 1;
      while !Weekday(next)
        invariant day < next && forall d :: day < d < next ==> !Weekday(d)
        decreases if Weekday(next) then 0 else 7 - next % 7
      {
        next := next + 1;
      }
    }

    /** The close of the first weekday that ends after `t`. */
    method NextSessionClose(t: int) returns (b: int)
      requires Valid() && size.Calendar?
      ensures IsNext(b, t)
    {
      var day := Day(t);
      if !Weekday(day) || TimeOfDay(t) >= closeAt {
        day := NextWeekday(day);
      }
      b := day * DAY + closeAt;
      SessionCloseIsNext(day, t);
    }

    lemma SessionCloseIsNext(day: int, t: int)
      requires Valid() && size.Calendar? && Weekday(day) && Day(t) <= day
      requires forall d :: Day(t) < d < day ==> !Weekday(d)
      requires Weekday(Day(t)) && Day(t) < day ==> closeAt <= TimeOfDay(t)
      requires Day(t) == day ==> TimeOfDay(t) < closeAt
      ensures IsNext(day * DAY + closeAt, t)
    {
      OfDay(day, closeAt);
      forall x | t < x < day * DAY + closeAt
        ensures !IsBoundary(x)
      {
        if Day(t) < Day(x) < day {
          assert !Weekday(Day(x));
        }
      }
    }

    /** When the next bar will have closed: the least boundary after `t`. There is none when
        the bar size cannot be read, and also when sessions are empty. */
    method NextBarBoundary(t: int) returns (b: Option<int>)
      requires Valid()
      ensures b.Some? <==> Readable() && HasBars()
      ensures b.Some? ==> IsNext(b.value, t)
    {
      if size.Calendar? {
        var close := NextSessionClose(t);
        return Some(close);
      }
      if !Readable() {
        return None;
      }
      var day := Day(t);
      for i := 0 to 10
        invariant day == Day(t) + i
        invariant forall x :: t < x < day * DAY ==> !IsBoundary(x)
        invariant HasBars() ==> forall d :: Day(t) < d < day ==> !Weekday(d)
      {
        if Weekday(day) {
          b := FirstAhead(day, t);
          if b.Some? {
            return;
          }
        }
        NothingLeft(day, t);
        day := day + 1;
      }
      AWeekdayWithinThree(Day(t));
      b := None;
    }

    lemma AWeekdayWithinThree(day: int)
      ensures Weekday(day + 1) || Weekday(day + 2) || Weekday(day + 3)
    {
    }

    lemma NothingLeft(day: int, t: int)
      requires Valid() && size.Intraday? && (Weekday(day) && HasBars() ==> day * DAY + closeAt <= t)
      ensures forall x :: day * DAY <= x < (day + 1) * DAY && t < x ==> !IsBoundary(x)
    {
      forall x | day * DAY <= x < (day + 1) * DAY && t < x
        ensures !IsBoundary(x)
      {
        OfDay(day, x - day * DAY);
      }
    }

    // -- what the loop relies on -------------------------------------------------------

    /** Bars come in the order they close. */
    lemma StampsFollowCloses(s1: int, s2: int)
      requires Valid() && IsBar(s1) && IsBar(s2)
      ensures s1 < s2 <==> CloseOf(s1) < CloseOf(s2)
    {
      hide IsBoundary;
      BarCloses(s1);
      BarCloses(s2);
      if size.Intraday? && Day(s1) == Day(s2) {
        if s1 < s2 {
          ClosesBeforeTheNextStarts(s1, s2);
        } else if s2 < s1 {
          ClosesBeforeTheNextStarts(s2, s1);
        }
      }
    }

    /** There is one newest closed bar. */
    lemma LastClosedIsUnique(s1: int, s2: int, t: int)
      requires Valid() && IsLastClosed(s1, t) && IsLastClosed(s2, t)
      ensures s1 == s2
    {
      OneBarPerBoundary(s1, s2);
    }

    /** As time passes the newest closed bar never goes back, and it moves on exactly when a
        boundary has passed. */
    lemma LastClosedMovesOn(t1: int, s1: int, t2: int, s2: int)
      requires Valid() && t1 <= t2 && IsLastClosed(s1, t1) && IsLastClosed(s2, t2)
      ensures s1 <= s2
      ensures s1 < s2 <==> exists b :: t1 < b <= t2 && IsBoundary(b)
    {
      BarCloses(s1);
      BarCloses(s2);
      StampsFollowCloses(s1, s2);
      StampsFollowCloses(s2, s1);
      assert CloseOf(s1) <= CloseOf(s2);
      if s1 == s2 {
        assert forall b :: t1 < b <= t2 ==> !IsBoundary(b);
      }
    }

    /** Waking at or after the next boundary finds a newer bar; waking before the boundary
        after it finds exactly the bar that was waited for. */
    lemma WakesForTheNextBar(t: int, s: int, b: int, woke: int, found: int)
      requires Valid() && IsLastClosed(s, t) && IsNext(b, t)
      requires b <= woke && IsLastClosed(found, woke)
      ensures s < found
      ensures (forall x :: b < x <= woke ==> !IsBoundary(x)) <==> CloseOf(found) == b
    {
      LastClosedMovesOn(t, s, woke, found);
      assert t < b <= woke && IsBoundary(b);
      BarCloses(found);
    }
  }

  /** Sessions from 9:30 to 16:00 in bars of `minutes`, or of an hour where that cannot be read. */
  function NewYork(minutes: Option<nat>): Grid {
    Grid(570 * MINUTE, 960 * MINUTE, Intraday(minutes))
  }

  /** At noon on a Saturday the newest closed hourly bar is Friday's 15:30, cut short by the
      close at 16:00; and so where the setting cannot be read. */
  lemma LastBarBeforeTheWeekend(minutes: Option<nat>)
    requires minutes == Some(60) || minutes == Some(0) || minutes.None?
    ensures var grid := NewYork(minutes);
            && grid.CloseOf(4 * DAY + 930 * MINUTE) == 4 * DAY + 960 * MINUTE
            && grid.IsLastClosed(4 * DAY + 930 * MINUTE, 5 * DAY + 720 * MINUTE)
  {
  }

  /** And the next one closes on Monday at 10:30. */
  lemma FirstCloseAfterTheWeekend(minutes: Option<nat>)
    requires minutes == Some(60) || minutes == Some(0) || minutes.None?
    ensures NewYork(minutes).IsNext(7 * DAY + 630 * MINUTE, 5 * DAY + 720 * MINUTE)
  {
  }

  /** A calendar bar is dated Friday, and the next closes on Monday at 16:00. */
  lemma CalendarBarsOverTheWeekend()
    ensures var grid := NewYork(None).(size := Calendar);
            && grid.IsLastClosed(4 * DAY, 5 * DAY + 720 * MINUTE) && grid.CloseOf(4 * DAY) == 4 * DAY + 960 * MINUTE
            && grid.IsNext(7 * DAY + 960 * MINUTE, 5 * DAY + 720 * MINUTE)
  {
  }

  lemma OfDay(day: int, tod: int)
    requires 0 <= tod < DAY
    ensures Day(day * DAY + tod) == day && TimeOfDay(day * DAY + tod) == tod
  {
  }

  lemma NextMultiple(x: int, step: int)
    requires step > 0 && x % step == 0
    ensures (x + step) % step == 0
  {
    var q := x / step;
    assert x + step == (q + 1) * step;
    MultipleOf(q + 1, step);
  }

  lemma OnlyZeroIsBelow(d: int, step: int)
    requires 0 <= d * step < step
    ensures d == 0
  {
  }

  lemma MultipleOf(q: int, step: int)
    requires step > 0
    ensures (q * step) % step == 0
  {
    var r := q * step;
    var (quotient, rest) := (r / step, r % step);
    assert r == quotient * step + rest;
    assert (q - quotient) * step == rest by {
      Distributes(q, quotient, step);
    }
    OnlyZeroIsBelow(q - quotient, step);
  }

  lemma Distributes(x: int, y: int, z: int)
    ensures (x - y) * z == x * z - y * z
  {
  }

  lemma FactorsAreOrdered(a: int, b: int, step: int)
    requires step > 0 && a * step < b * step
    ensures (a + 1) * step <= b * step
  {
    var gap := b - a;
    assert gap * step == b * step - a * step;
    GapIsPositive(gap, step);
    assert (a + 1) * step == a * step + step;
  }

  lemma GapIsPositive(gap: int, step: int)
    requires step > 0 && gap * step > 0
    ensures gap * step >= step
  {
    assert gap >= 1;
    assert (gap - 1) * step >= 0;
  }

  /** Two different multiples of `step` are at least `step` apart. */
  lemma MultiplesApart(x: int, y: int, step: int)
    requires step > 0 && x % step == 0 && y % step == 0 && x < y
    ensures x + step <= y
  {
    var a, b := x / step, y / step;
    assert x == a * step && y == b * step;
    FactorsAreOrdered(a, b, step);
  }
}
