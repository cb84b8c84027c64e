/** Monthly and yearly returns read off an equity curve (src/backtest/report.py:95-188).
    Returns are fractions here; the program multiplies them by 100 to show them. */
module Periods {
  import opened Prelude

  datatype Date = Date(year: int, month: int, day: int) {
    predicate Valid() {
      1 <= month <= 12
    }
  }

  /** A point of the curve as stored; either part may not be readable. */
  datatype Point = Point(date: Option<Date>, equity: Option<real>) {
    predicate Usable() {
      date.Some? && equity.Some?
    }
  }

  type Key = Date -> int

  /** The text keys `2026-07` and `2026`, as numbers. */
  const MONTHLY: Key := (d: Date) => d.year * 12 + d.month - 1
  const YEARLY: Key := (d: Date) => d.year

  datatype Row = Row(key: int, startEquity: real, endEquity: real, bars: nat, first: Date, last: Date) {
    function Ret(): real {
      if startEquity == 0.0 then 0.0 else endEquity / startEquity - 1.0
    }

    function Extended(date: Date, equity: real): Row {
      this.(endEquity := equity, bars := bars + 1, last := date)
    }
  }

  /** One more point: it extends the open period, or starts the next one from where that
      one ended. */
  function Placed(rows: seq<Row>, key: Key, date: Date, equity: real): (r: seq<Row>)
    ensures |r| > 0 && r[|r| - 1].endEquity == equity && r[|r| - 1].key == key(date)
  {
    if |rows| == 0 then [Row(key(date), 1.0, equity, 1, date, date)]
    else
      var open := rows[|rows| - 1];
      if open.key == key(date) then rows[..|rows| - 1] + [open.Extended(date, equity)]
      else rows + [Row(key(date), open.endEquity, equity, 1, date, date)]
  }

  function Rows(curve: seq<Point>, key: Key): seq<Row> {
    if |curve| == 0 then []
    else
      var before, p := Rows(curve[..|curve| - 1], key), curve[|curve| - 1];
      if p.Usable() then Placed(before, key, p.date.value, p.equity.value) else before
  }

  method PeriodReturns(curve: seq<Point>, key: Key) returns (out: seq<Row>)
    ensures out == Rows(curve, key)
  {
    out := [];
    var open: Option<int> := None;
    var prevEquity, lastEquity, bars := 1.0, 1.0, 0;
    var first, last := Date(0, 1, 1), Date(0, 1, 1);
    for i := 0 to |curve|
      invariant open.None? ==> out == [] && Rows(curve[..i], key) == []
      invariant open.Some? ==> Rows(curve[..i], key) == out + [Row(open.value, prevEquity, lastEquity, bars, first, last)]
    {
      assert curve[..i + 1][..i] == curve[..i];
      var p := curve[i];
      if !p.Usable() {
        continue;
      }
      var k := key(p.date.value);
      if open != Some(k) {
        if open.Some? {
          out := out + [Row(open.value, prevEquity, lastEquity, bars, first, last)];
        }
        prevEquity := if open.Some? then lastEquity else 1.0;
        open, bars, first := Some(k), 0, p.date.value;
      }
      lastEquity, last, bars := p.equity.value, p.date.value, bars + 1;
    }
    assert curve[..|curve|] == curve;
    if open.Some? {
      out := out + [Row(open.value, prevEquity, lastEquity, bars, first, last)];
    }
  }

  // -- compounding -------------------------------------------------------------------

  /** Every reading of the curve is positive. */
  predicate Positive(curve: seq<Point>) {
    forall i :: 0 <= i < |curve| && curve[i].Usable() ==> curve[i].equity.value > 0.0
  }

  /** The last reading of the curve, or the 1.0 it starts from. */
  function LastEquity(curve: seq<Point>): real {
    if |curve| == 0 then 1.0
    else if curve[|curve| - 1].Usable() then curve[|curve| - 1].equity.value
    else LastEquity(curve[..|curve| - 1])
  }

  /** Each period starts where the one before it ended, the first at 1.0. */
  predicate Chained(rows: seq<Row>) {
    && (|rows| > 0 ==> rows[0].startEquity == 1.0)
    && (forall i :: 0 < i < |rows| ==> rows[i].startEquity == rows[i - 1].endEquity)
    && (forall i :: 0 <= i < |rows| ==> rows[i].startEquity > 0.0 && rows[i].endEquity > 0.0)
  }

  lemma {:induction false} RowsAreChained(curve: seq<Point>, key: Key)
    requires Positive(curve)
    ensures Chained(Rows(curve, key))
    ensures LastEquity(curve) == if |Rows(curve, key)| == 0 then 1.0 else Rows(curve, key)[|Rows(curve, key)| - 1].endEquity
  {
    if |curve| > 0 {
      RowsAreChained(curve[..|curve| - 1], key);
    }
  }

  /** The product of `1 + ret` over the rows. */
  function Growth(rows: seq<Row>): real {
    if |rows| == 0 then 1.0 else Growth(rows[..|rows| - 1]) * (1.0 + rows[|rows| - 1].Ret())
  }

  lemma GrowsTo(row: Row, equity: real)
    requires equity == row.startEquity > 0.0
    ensures equity * (1.0 + row.Ret()) == row.endEquity
  {
  }

  lemma {:induction false} GrowthTelescopes(rows: seq<Row>)
    requires Chained(rows)
    ensures Growth(rows) == if |rows| == 0 then 1.0 else rows[|rows| - 1].endEquity
  {
    if |rows| > 0 {
      GrowthTelescopes(rows[..|rows| - 1]);
      GrowsTo(rows[|rows| - 1], Growth(rows[..|rows| - 1]));
    }
  }

  /** However a positive curve is cut into periods, their returns compound to its last value. */
  lemma PeriodsCompound(curve: seq<Point>, key: Key)
    requires Positive(curve)
    ensures Growth(Rows(curve, key)) == LastEquity(curve)
  {
    RowsAreChained(curve, key);
    GrowthTelescopes(Rows(curve, key));
  }

  // -- the monthly table ----------------------------------------------------------------

  /** One line of the table: a year and its months, in the order they were first seen. */
  datatype YearRow = YearRow(year: int, months: seq<(int, real)>)

  function MonthAt(months: seq<(int, real)>, month: int): Option<nat> {
    if |months| == 0 then None
    else if months[|months| - 1].0 == month then Some(|months| - 1)
    else MonthAt(months[..|months| - 1], month)
  }

  function YearAt(table: seq<YearRow>, year: int): Option<nat> {
    if |table| == 0 then None
    else if table[|table| - 1].year == year then Some(|table| - 1)
    else YearAt(table[..|table| - 1], year)
  }

  /** `months[month] = ret`: a month seen again keeps its place. */
  function PutMonth(months: seq<(int, real)>, month: int, ret: real): seq<(int, real)> {
    match MonthAt(months, month)
    case Some(i) => if i < |months| then months[i := (month, ret)] else months
    case None => months + [(month, ret)]
  }

  function PutYear(table: seq<YearRow>, year: int, month: int, ret: real): seq<YearRow> {
    match YearAt(table, year)
    case Some(i) => if i < |table| then table[i := YearRow(year, PutMonth(table[i].months, month, ret))] else table
    case None => table + [YearRow(year, [(month, ret)])]
  }

  function YearOf(row: Row): int {
    row.key / 12
  }

  function MonthOf(row: Row): int {
    row.key % 12 + 1
  }

  function Table(rows: seq<Row>): seq<YearRow> {
    if |rows| == 0 then []
    else
      var last := rows[|rows| - 1];
      PutYear(Table(rows[..|rows| - 1]), YearOf(last), MonthOf(last), last.Ret())
  }

  function Compounded(months: seq<(int, real)>): real {
    if |months| == 0 then 1.0 else Compounded(months[..|months| - 1]) * (1.0 + months[|months| - 1].1)
  }

  /** The classic table: for each year its total, compounded from its months. */
  method MonthlyMatrix(rows: seq<Row>) returns (totals: seq<(int, real)>)
    ensures |totals| == |Table(rows)|
    ensures forall i :: 0 <= i < |totals| ==> totals[i] == (Table(rows)[i].year, Compounded(Table(rows)[i].months) - 1.0)
  {
    var years: seq<YearRow> := [];
    for i := 0 to |rows|
      invariant years == Table(rows[..i])
    {
      assert rows[..i + 1][..i] == rows[..i];
      years := PutYear(years, YearOf(rows[i]), MonthOf(rows[i]), rows[i].Ret());
    }
    assert rows[..|rows|] == rows;
    totals := [];
    for i := 0 to |years|
      invariant |totals| == i
      invariant forall k :: 0 <= k < i ==> totals[k] == (years[k].year, Compounded(years[k].months) - 1.0)
    {
      var compounded, months := 1.0, years[i].months;
      for j := 0 to |months|
        invariant compounded == Compounded(months[..j])
      {
        assert months[..j + 1][..j] == months[..j];
        compounded := compounded * (1.0 + months[j].1);
      }
      assert months[..|months|] == months;
      totals := totals + [(years[i].year, compounded - 1.0)];
    }
  }

  // -- a year's total is its yearly return --------------------------------------------------

  /** The product of `1 + ret` over one year's rows. */
  function YearGrowth(rows: seq<Row>, year: int): real {
    if |rows| == 0 then 1.0
    else
      var last := rows[|rows| - 1];
      YearGrowth(rows[..|rows| - 1], year) * if YearOf(last) == year then 1.0 + last.Ret() else 1.0
  }

  predicate KeysIncrease(rows: seq<Row>) {
    forall i, j :: 0 <= i < j < |rows| ==> rows[i].key < rows[j].key
  }

  lemma {:induction false} NoSuchYear(rows: seq<Row>, year: int)
    requires forall i :: 0 <= i < |rows| ==> YearOf(rows[i]) != year
    ensures YearGrowth(rows, year) == 1.0
  {
    if |rows| > 0 {
      NoSuchYear(rows[..|rows| - 1], year);
    }
  }

  lemma {:induction false} MonthAtExactly(months: seq<(int, real)>, month: int)
    ensures match MonthAt(months, month)
            case None => forall k :: 0 <= k < |months| ==> months[k].0 != month
            case Some(i) => i < |months| && months[i].0 == month
  {
    if |months| > 0 && months[|months| - 1].0 != month {
      MonthAtExactly(months[..|months| - 1], month);
    }
  }

  lemma {:induction false} YearAtExactly(table: seq<YearRow>, year: int)
    ensures match YearAt(table, year)
            case None => forall k :: 0 <= k < |table| ==> table[k].year != year
            case Some(i) => i < |table| && table[i].year == year
  {
    if |table| > 0 && table[|table| - 1].year != year {
      YearAtExactly(table[..|table| - 1], year);
    }
  }

  ghost predicate Matches(months: seq<(int, real)>, rows: seq<Row>, year: int) {
    Compounded(months) == YearGrowth(rows, year)
  }

  /** The table of a chronological list: years in order, each with its own rows' growth. */
  ghost predicate Tabled(rows: seq<Row>, table: seq<YearRow>) {
    && (|table| == 0 <==> |rows| == 0)
    && (forall i, j :: 0 <= i < j < |table| ==> table[i].year < table[j].year)
    && (forall i :: 0 <= i < |table| ==> Matches(table[i].months, rows, table[i].year))
    && (|rows| > 0 ==>
          var last, months := rows[|rows| - 1], table[|table| - 1].months;
          table[|table| - 1].year == YearOf(last) && forall k :: 0 <= k < |months| ==> months[k].0 <= MonthOf(last))
  }

  lemma LastKeyIsLess(rows: seq<Row>, row: Row)
    requires KeysIncrease(rows + [row]) && |rows| > 0
    ensures rows[|rows| - 1].key < row.key
  {
    var more := rows + [row];
    assert more[|rows| - 1].key < more[|rows|].key;
  }

  lemma MatchesOneMore(months: seq<(int, real)>, rows: seq<Row>, row: Row, year: int)
    requires Matches(months, rows, year)
    ensures if YearOf(row) == year then Matches(months + [(MonthOf(row), row.Ret())], rows + [row], year)
            else Matches(months, rows + [row], year)
  {
  }

  lemma OthersStillMatch(rows: seq<Row>, table: seq<YearRow>, row: Row, n: nat)
    requires n <= |table| && forall i :: 0 <= i < n ==> Matches(table[i].months, rows, table[i].year) && table[i].year != YearOf(row)
    ensures forall i :: 0 <= i < n ==> Matches(table[i].months, rows + [row], table[i].year)
  {
  }

  /** Another month of the last year in the table. */
  lemma TabledSameYear(rows: seq<Row>, table: seq<YearRow>, row: Row)
    requires KeysIncrease(rows + [row]) && Tabled(rows, table) && |rows| > 0 && YearOf(rows[|rows| - 1]) == YearOf(row)
    ensures Tabled(rows + [row], PutYear(table, YearOf(row), MonthOf(row), row.Ret()))
  {
    var n := |table| - 1;
    LastKeyIsLess(rows, row);
    MonthAtExactly(table[n].months, MonthOf(row));
    MatchesOneMore(table[n].months, rows, row, YearOf(row));
    OthersStillMatch(rows, table, row, n);
  }

  /** The first month of a new year. */
  lemma TabledNewYear(rows: seq<Row>, table: seq<YearRow>, row: Row)
    requires KeysIncrease(rows + [row]) && Tabled(rows, table) && (|rows| > 0 ==> YearOf(rows[|rows| - 1]) != YearOf(row))
    ensures Tabled(rows + [row], PutYear(table, YearOf(row), MonthOf(row), row.Ret()))
  {
    YearAtExactly(table, YearOf(row));
    if |rows| > 0 {
      LastKeyIsLess(rows, row);
      assert table[|table| - 1].year < YearOf(row);
    }
    LaterYear(rows, table, row);
    MatchesOneMore([], rows, row, YearOf(row));
    assert [] + [(MonthOf(row), row.Ret())] == [(MonthOf(row), row.Ret())];
    OthersStillMatch(rows, table, row, |table|);
  }

  lemma LaterYear(rows: seq<Row>, table: seq<YearRow>, row: Row)
    requires KeysIncrease(rows + [row])
    requires |rows| > 0 ==> YearOf(rows[|rows| - 1]) != YearOf(row)
    ensures YearGrowth(rows, YearOf(row)) == 1.0
  {
    forall i | 0 <= i < |rows|
      ensures YearOf(rows[i]) != YearOf(row)
    {
      var more := rows + [row];
      assert more[i].key <= more[|rows| - 1].key < more[|rows|].key;
    }
    NoSuchYear(rows, YearOf(row));
  }

  lemma {:induction false} TableIsTabled(rows: seq<Row>)
    requires KeysIncrease(rows)
    ensures Tabled(rows, Table(rows))
  {
    if |rows| > 0 {
      var before := rows[..|rows| - 1];
      assert rows == before + [rows[|rows| - 1]];
      TableIsTabled(before);
      if |before| > 0 && YearOf(before[|before| - 1]) == YearOf(rows[|rows| - 1]) {
        TabledSameYear(before, Table(before), rows[|rows| - 1]);
      } else {
        TabledNewYear(before, Table(before), rows[|rows| - 1]);
      }
    }
  }

  /** Readable dates are real months, and the curve never goes back a month. */
  ghost predicate Chronological(curve: seq<Point>) {
    && (forall i :: 0 <= i < |curve| && curve[i].Usable() ==> curve[i].date.value.Valid())
    && (forall i, j :: 0 <= i < j < |curve| && curve[i].Usable() && curve[j].Usable() ==>
          MONTHLY(curve[i].date.value) <= MONTHLY(curve[j].date.value))
  }

  predicate Reaches(start: real, growth: real, end: real) {
    start * growth == end
  }

  /** Months against years, half-way through the curve: finished years are fully covered by
      the months before the open one, the open year up to where the open month started. */
  ghost predicate Linked(months: seq<Row>, years: seq<Row>) {
    && KeysIncrease(months) && KeysIncrease(years) && (|months| == 0 <==> |years| == 0)
    && (|months| > 0 ==>
          var n, k := |months| - 1, |years| - 1;
          && YearOf(months[n]) == years[k].key && months[n].endEquity == years[k].endEquity
          && Reaches(years[k].startEquity, YearGrowth(months[..n], years[k].key), months[n].startEquity)
          && forall i :: 0 <= i < k ==> Reaches(years[i].startEquity, YearGrowth(months[..n], years[i].key), years[i].endEquity))
  }

  lemma OneMoreMonth(start: real, rows: seq<Row>, row: Row, year: int)
    requires row.startEquity > 0.0
    requires YearOf(row) == year && Reaches(start, YearGrowth(rows, year), row.startEquity)
    ensures Reaches(start, YearGrowth(rows + [row], year), row.endEquity)
  {
    assert (rows + [row])[..|rows|] == rows;
    GrowsTo(row, start * YearGrowth(rows, year));
    ProductReassociates(start, YearGrowth(rows, year), 1.0 + row.Ret());
  }

  lemma OtherYearsStay(start: real, rows: seq<Row>, row: Row, year: int, end: real)
    requires YearOf(row) != year && Reaches(start, YearGrowth(rows, year), end)
    ensures Reaches(start, YearGrowth(rows + [row], year), end)
  {
  }

  /** Closing the open month, every year is covered. */
  lemma AllReach(months: seq<Row>, years: seq<Row>)
    requires Linked(months, years) && Chained(months)
    ensures forall i :: 0 <= i < |years| ==> Reaches(years[i].startEquity, YearGrowth(months, years[i].key), years[i].endEquity)
  {
    if |months| > 0 {
      var n, k := |months| - 1, |years| - 1;
      assert months == months[..n] + [months[n]];
      OneMoreMonth(years[k].startEquity, months[..n], months[n], years[k].key);
      forall i | 0 <= i < k
        ensures Reaches(years[i].startEquity, YearGrowth(months, years[i].key), years[i].endEquity)
      {
        OtherYearsStay(years[i].startEquity, months[..n], months[n], years[i].key, years[i].endEquity);
      }
    }
  }

  lemma MonthParts(date: Date)
    requires date.Valid()
    ensures MONTHLY(date) / 12 == date.year && YEARLY(date) == date.year
  {
  }

  /** Another point of the open month. */
  lemma LinkedSameMonth(months: seq<Row>, years: seq<Row>, date: Date, equity: real)
    requires Linked(months, years) && |months| > 0 && date.Valid() && months[|months| - 1].key == MONTHLY(date)
    ensures Linked(Placed(months, MONTHLY, date, equity), Placed(years, YEARLY, date, equity))
  {
    MonthParts(date);
    assert Placed(months, MONTHLY, date, equity)[..|months| - 1] == months[..|months| - 1];
  }

  /** The first point of a later month. */
  lemma LinkedNewMonth(months: seq<Row>, years: seq<Row>, date: Date, equity: real)
    requires Linked(months, years) && Chained(months) && |months| > 0
    requires date.Valid() && months[|months| - 1].key < MONTHLY(date)
    ensures Linked(Placed(months, MONTHLY, date, equity), Placed(years, YEARLY, date, equity))
  {
    MonthParts(date);
    AllReach(months, years);
    assert Placed(months, MONTHLY, date, equity)[..|months|] == months;
    if years[|years| - 1].key != date.year {
      assert forall i :: 0 <= i < |months| ==> months[i].key <= months[|months| - 1].key;
      NoSuchYear(months, date.year);
    }
  }

  lemma LinkedFirst(date: Date, equity: real)
    requires date.Valid()
    ensures Linked(Placed([], MONTHLY, date, equity), Placed([], YEARLY, date, equity))
  {
  }

  /** The open period is that of a point already read. */
  lemma {:induction false} OpenPeriodWasRead(curve: seq<Point>, key: Key)
    ensures var rows := Rows(curve, key);
            |rows| > 0 ==> exists i :: 0 <= i < |curve| && curve[i].Usable() && key(curve[i].date.value) == rows[|rows| - 1].key
  {
    if |curve| > 0 {
      var before := curve[..|curve| - 1];
      OpenPeriodWasRead(before, key);
      if curve[|curve| - 1].Usable() {
        assert key(curve[|curve| - 1].date.value) == Rows(curve, key)[|Rows(curve, key)| - 1].key;
      } else if |Rows(before, key)| > 0 {
        var i :| 0 <= i < |before| && before[i].Usable() && key(before[i].date.value) == Rows(before, key)[|Rows(before, key)| - 1].key;
        assert curve[i] == before[i];
      }
    }
  }

  lemma {:induction false} MonthsAndYearsAreLinked(curve: seq<Point>)
    requires Positive(curve) && Chronological(curve)
    ensures Linked(Rows(curve, MONTHLY), Rows(curve, YEARLY))
  {
    if |curve| > 0 {
      var before, p := curve[..|curve| - 1], curve[|curve| - 1];
      MonthsAndYearsAreLinked(before);
      var months, years := Rows(before, MONTHLY), Rows(before, YEARLY);
      RowsAreChained(before, MONTHLY);
      OpenPeriodWasRead(before, MONTHLY);
      if p.Usable() {
        var date, equity := p.date.value, p.equity.value;
        if |months| == 0 {
          LinkedFirst(date, equity);
        } else {
          var i :| 0 <= i < |before| && before[i].Usable() && MONTHLY(before[i].date.value) == months[|months| - 1].key;
          assert curve[i] == before[i] && MONTHLY(curve[i].date.value) <= MONTHLY(date);
          if months[|months| - 1].key == MONTHLY(date) {
            LinkedSameMonth(months, years, date, equity);
          } else {
            LinkedNewMonth(months, years, date, equity);
          }
        }
      }
    }
  }

  /** The years of the rows, each once, in the order they are first seen. */
  function YearList(rows: seq<Row>): seq<int> {
    if |rows| == 0 then []
    else
      var before, year := YearList(rows[..|rows| - 1]), YearOf(rows[|rows| - 1]);
      if year in before then before else before + [year]
  }

  predicate Names(years: seq<int>, table: seq<YearRow>) {
    |years| == |table| && forall i :: 0 <= i < |years| ==> years[i] == table[i].year
  }

  lemma PutYearNames(years: seq<int>, table: seq<YearRow>, year: int, month: int, ret: real)
    requires Names(years, table)
    ensures Names(if year in years then years else years + [year], PutYear(table, year, month, ret))
  {
    YearAtExactly(table, year);
    if YearAt(table, year).Some? {
      assert years[YearAt(table, year).value] == year;
    }
  }

  lemma {:induction false} TableNames(rows: seq<Row>)
    ensures Names(YearList(rows), Table(rows))
  {
    if |rows| > 0 {
      var before, last := rows[..|rows| - 1], rows[|rows| - 1];
      TableNames(before);
      PutYearNames(YearList(before), Table(before), YearOf(last), MonthOf(last), last.Ret());
    }
  }

  predicate IsYears(list: seq<int>, years: seq<Row>) {
    |list| == |years| && forall i :: 0 <= i < |list| ==> list[i] == years[i].key
  }

  lemma {:induction false} YearListMember(rows: seq<Row>)
    ensures forall y :: y in YearList(rows) ==> exists i :: 0 <= i < |rows| && YearOf(rows[i]) == y
    ensures |rows| > 0 ==> YearOf(rows[|rows| - 1]) in YearList(rows)
  {
    if |rows| > 0 {
      YearListMember(rows[..|rows| - 1]);
      var before := YearList(rows[..|rows| - 1]);
      forall y | y in before
        ensures exists i :: 0 <= i < |rows| && YearOf(rows[i]) == y
      {
        var i :| 0 <= i < |rows| - 1 && YearOf(rows[..|rows| - 1][i]) == y;
        assert YearOf(rows[i]) == y;
      }
    }
  }

  /** Another point of the open month adds no year. */
  lemma YearsSameMonth(months: seq<Row>, years: seq<Row>, date: Date, equity: real)
    requires Linked(months, years) && IsYears(YearList(months), years) && date.Valid()
    requires |months| > 0 && months[|months| - 1].key == MONTHLY(date)
    ensures IsYears(YearList(Placed(months, MONTHLY, date, equity)), Placed(years, YEARLY, date, equity))
  {
    MonthParts(date);
    var more := Placed(months, MONTHLY, date, equity);
    assert more[..|months| - 1] == months[..|months| - 1] && YearOf(more[|months| - 1]) == YearOf(months[|months| - 1]);
    assert YearList(more) == YearList(months);
  }

  lemma YearIsNew(months: seq<Row>, year: int)
    requires KeysIncrease(months) && |months| > 0 && YearOf(months[|months| - 1]) < year
    ensures year !in YearList(months)
  {
  }

  lemma OpenYear(months: seq<Row>, years: seq<Row>)
    requires Linked(months, years)
    ensures KeysIncrease(months) && (|months| == 0 <==> |years| == 0)
    ensures |months| > 0 ==> YearOf(months[|months| - 1]) == years[|years| - 1].key
  {
  }

  lemma YearListGrows(rows: seq<Row>, row: Row)
    ensures YearList(rows + [row]) ==
              if YearOf(row) in YearList(rows) then YearList(rows) else YearList(rows) + [YearOf(row)]
  {
  }

  lemma PlacedInNewPeriod(rows: seq<Row>, key: Key, date: Date, equity: real)
    requires |rows| > 0 ==> rows[|rows| - 1].key != key(date)
    ensures |Placed(rows, key, date, equity)| == |rows| + 1
    ensures Placed(rows, key, date, equity) == rows + [Placed(rows, key, date, equity)[|rows|]]
  {
  }

  /** A later month of the year that is open. */
  lemma YearsSameYear(months: seq<Row>, years: seq<Row>, date: Date, equity: real)
    requires Linked(months, years) && IsYears(YearList(months), years) && date.Valid()
    requires |months| > 0 && months[|months| - 1].key < MONTHLY(date) && YearOf(months[|months| - 1]) == date.year
    ensures IsYears(YearList(Placed(months, MONTHLY, date, equity)), Placed(years, YEARLY, date, equity))
  {
    OpenYear(months, years);
    MonthParts(date);
    PlacedInNewPeriod(months, MONTHLY, date, equity);
    hide Linked, KeysIncrease, YearList;
    YearListMember(months);
    YearListGrows(months, Placed(months, MONTHLY, date, equity)[|months|]);
  }

  /** The first month of a later year, or of all. */
  lemma YearsNewYear(months: seq<Row>, years: seq<Row>, date: Date, equity: real)
    requires Linked(months, years) && IsYears(YearList(months), years) && date.Valid()
    requires |months| > 0 ==> YearOf(months[|months| - 1]) < date.year
    ensures IsYears(YearList(Placed(months, MONTHLY, date, equity)), Placed(years, YEARLY, date, equity))
  {
    hide Linked, KeysIncrease;
    OpenYear(months, years);
    MonthParts(date);
    var more := Placed(months, MONTHLY, date, equity);
    assert more[..|months|] == months && YearOf(more[|months|]) == date.year;
    if |months| > 0 {
      YearIsNew(months, date.year);
    }
    assert YearList(more) == YearList(months) + [date.year];
  }

  /** The first point of a later month adds a year exactly when it is the first of its year. */
  lemma YearsNewMonth(months: seq<Row>, years: seq<Row>, date: Date, equity: real)
    requires Linked(months, years) && IsYears(YearList(months), years) && date.Valid()
    requires |months| > 0 ==> months[|months| - 1].key < MONTHLY(date)
    ensures IsYears(YearList(Placed(months, MONTHLY, date, equity)), Placed(years, YEARLY, date, equity))
  {
    hide Linked, IsYears, YearList, Placed;
    MonthParts(date);
    if |months| > 0 && YearOf(months[|months| - 1]) == date.year {
      YearsSameYear(months, years, date, equity);
    } else {
      YearsNewYear(months, years, date, equity);
    }
  }

  lemma {:induction false} MonthsHaveTheYears(curve: seq<Point>)
    requires Positive(curve) && Chronological(curve)
    ensures IsYears(YearList(Rows(curve, MONTHLY)), Rows(curve, YEARLY))
  {
    if |curve| > 0 {
      var before, p := curve[..|curve| - 1], curve[|curve| - 1];
      MonthsHaveTheYears(before);
      MonthsAndYearsAreLinked(before);
      RowsAreChained(before, MONTHLY);
      OpenPeriodWasRead(before, MONTHLY);
      var months := Rows(before, MONTHLY);
      if p.Usable() {
        if |months| > 0 {
          var i :| 0 <= i < |before| && before[i].Usable() && MONTHLY(before[i].date.value) == months[|months| - 1].key;
          assert curve[i] == before[i];
        }
        if |months| > 0 && months[|months| - 1].key == MONTHLY(p.date.value) {
          YearsSameMonth(months, Rows(before, YEARLY), p.date.value, p.equity.value);
        } else {
          YearsNewMonth(months, Rows(before, YEARLY), p.date.value, p.equity.value);
        }
      }
    }
  }

  lemma ReachedReturn(row: Row, growth: real)
    requires row.startEquity > 0.0 && Reaches(row.startEquity, growth, row.endEquity)
    ensures growth - 1.0 == row.Ret()
  {
    DividesOut(row.endEquity, row.startEquity, growth);
  }

  /** On a positive chronological curve the monthly table has one line per year, and the
      line's total, compounded from months, is exactly that year's own return. */
  lemma YearTotalsAreYearlyReturns(curve: seq<Point>)
    requires Positive(curve) && Chronological(curve)
    ensures var table, years := Table(Rows(curve, MONTHLY)), Rows(curve, YEARLY);
            |table| == |years| && forall i :: 0 <= i < |years| ==>
              table[i].year == years[i].key && Compounded(table[i].months) - 1.0 == years[i].Ret()
  {
    var months, years := Rows(curve, MONTHLY), Rows(curve, YEARLY);
    MonthsHaveTheYears(curve);
    TableNames(months);
    MonthsAndYearsAreLinked(curve);
    RowsAreChained(curve, MONTHLY);
    RowsAreChained(curve, YEARLY);
    AllReach(months, years);
    TableIsTabled(months);
    forall i | 0 <= i < |years|
      ensures Compounded(Table(months)[i].months) - 1.0 == years[i].Ret()
    {
      assert Matches(Table(months)[i].months, months, Table(months)[i].year);
      ReachedReturn(years[i], YearGrowth(months, years[i].key));
    }
  }
}
