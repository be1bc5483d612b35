/** The 42-cell month grid of the reservation calendar, against the calendar itself. */
module MonthGrid {
  import opened Gregorian

  datatype Cell = Cell(date: Civil, inMonth: bool)

  /** The Monday on or before the first of the month. */
  function GridStart(q: int): int {
    MonthStart(q) - MondayBased(MonthStart(q))
  }

  /** A year that `Date.UTC` takes as written; only 0..99 are not. */
  predicate PlainYear(y: int) {
    FullYear(y) == y
  }

  /** The date a cell of a year's grid stands for: its own, but 1900 years later if `Date.UTC` reads the year so. */
  function AsRead(c: Civil, year: int): Civil {
    c.(year := c.year + FullYear(year) - year)
  }

  /** What the grid must show for a month: six weeks of consecutive days, the month's own days marked. */
  ghost predicate ShowsMonth(out: seq<Cell>, year: int, month: int) {
    |out| == 42 && ShowsPrefix(out, year, month)
  }

  ghost predicate ShowsPrefix(out: seq<Cell>, year: int, month: int) {
    forall i {:trigger out[i]} :: 0 <= i < |out| ==> ShowsCell(out[i], GridStart(MonthIndex(FullYear(year), month)) + i, year, month)
  }

  ghost predicate ShowsCell(cell: Cell, n: int, year: int, month: int) {
    var c := AsRead(cell.date, year);
    && c.Valid()
    && DayNumber(c) == n
    && (cell.inMonth <==> cell.date.year == year && cell.date.month == month)
  }

  lemma LastOfMonth(q: int)
    ensures CivilFromDay(MonthStart(q + 1) - 1) == Civil(q / 12, q % 12 + 1, DaysInMonth(q))
  {
    var last := Civil(q / 12, q % 12 + 1, DaysInMonth(q));
    assert MonthIndex(last.year, last.month) == q;
    MonthStep(q);
    CivilRoundTrip(last);
  }

  /** `new Date(Date.UTC(y, m, 0)).getUTCDate()` counts the days of month `m` (1-based) of the year read. */
  lemma DayZeroCounts(y: int, m: int)
    ensures CivilFromDay(UtcDay(y, m, 0)).day == DaysInMonth(MonthIndex(FullYear(y), m))
  {
    hide MonthStart, DaysInMonth, CivilFromDay;
    LastOfMonth(MonthIndex(FullYear(y), m));
    assert UtcDay(y, m, 0) == MonthStart(MonthIndex(FullYear(y), m) + 1) - 1;
  }

  lemma JanuaryHas31(y: int)
    ensures DaysInMonth(MonthIndex(y, 1)) == 31
  {
    MonthIndexSplits(y, 1);
  }

  /** The day after `c` in a month of `days` days. */
  function Next(c: Civil, days: int): Civil {
    if c.day + 1 <= days then c.(day := c.day + 1)
    else if c.month == 12 then Civil(c.year + 1, 1, 1)
    else Civil(c.year, c.month + 1, 1)
  }

  method BuildMonthGrid(year: int, month: int) returns (out: seq<Cell>)
    requires 1 <= month <= 12
    ensures ShowsMonth(out, year, month)
  {
    hide MonthStart, DaysInMonth, MondayBased, ShowsCell, ShowsPrefix, CivilFromDay, FullYear;
    ghost var q := MonthIndex(FullYear(year), month);
    var dow := MondayBased(UtcDay(year, month - 1, 1));
    var daysInMonth := CivilFromDay(UtcDay(year, month, 0)).day;
    var daysInPrev := CivilFromDay(UtcDay(year, month - 1, 0)).day;
    assert UtcDay(year, month - 1, 1) == MonthStart(q);
    DayZeroCounts(year, month);
    DayZeroCounts(year, month - 1);

    out := [];
    NothingShown(year, month);
    var i := dow - 1;
    while i >= 0
      invariant -1 <= i < dow && |out| == dow - 1 - i
      invariant ShowsPrefix(out, year, month)
    {
      var d := daysInPrev - i;
      var ym := if month == 1 then (year - 1, 12) else (year, month - 1);
      LeadingCell(year, month, i);
      PushShows(out, Cell(Civil(ym.0, ym.1, d), false), year, month);
      out := out + [Cell(Civil(ym.0, ym.1, d), false)];
      i := i - 1;
    }
    var d := 1;
    while d <= daysInMonth
      invariant 1 <= d <= daysInMonth + 1 && |out| == dow + d - 1
      invariant ShowsPrefix(out, year, month)
    {
      OwnCell(year, month, d);
      PushShows(out, Cell(Civil(year, month, d), true), year, month);
      out := out + [Cell(Civil(year, month, d), true)];
      d := d + 1;
    }
    while |out| < 42
      invariant dow + daysInMonth <= |out| <= 42
      invariant ShowsPrefix(out, year, month)
    {
      var last := out[|out| - 1].date;
      var next := last.day + 1;
      var rolloverDays := CivilFromDay(UtcDay(last.year, last.month, 0)).day;
      LastShows(out, year, month);
      TrailingCell(out[|out| - 1], year, month, |out| - 1);
      PushShows(out, Cell(Next(last, rolloverDays), false), year, month);
      if next > rolloverDays {
        var ym := if last.month == 12 then (last.year + 1, 1) else (last.year, last.month + 1);
        out := out + [Cell(Civil(ym.0, ym.1, 1), false)];
      } else {
        out := out + [Cell(Civil(last.year, last.month, next), false)];
      }
    }
  }

  lemma NothingShown(year: int, month: int)
    ensures ShowsPrefix([], year, month)
  {
  }

  lemma PushShows(out: seq<Cell>, cell: Cell, year: int, month: int)
    requires ShowsPrefix(out, year, month)
    requires ShowsCell(cell, GridStart(MonthIndex(FullYear(year), month)) + |out|, year, month)
    ensures ShowsPrefix(out + [cell], year, month)
  {
    hide GridStart, ShowsCell, FullYear;
  }

  lemma LastShows(out: seq<Cell>, year: int, month: int)
    requires ShowsPrefix(out, year, month) && |out| > 0
    ensures ShowsCell(out[|out| - 1], GridStart(MonthIndex(FullYear(year), month)) + |out| - 1, year, month)
  {
    hide GridStart, ShowsCell, FullYear;
  }

  lemma LeadingCell(year: int, month: int, i: int)
    requires 1 <= month <= 12 && 0 <= i < 7
    ensures var q := MonthIndex(FullYear(year), month);
            var ym := if month == 1 then (year - 1, 12) else (year, month - 1);
            ShowsCell(Cell(Civil(ym.0, ym.1, DaysInMonth(q - 1) - i), false), MonthStart(q) - 1 - i, year, month)
    ensures MonthIndex(FullYear(year), month - 1) == MonthIndex(FullYear(year), month) - 1
  {
    hide MonthStart, DaysInMonth, FullYear;
    var q := MonthIndex(FullYear(year), month);
    var ym := if month == 1 then (year - 1, 12) else (year, month - 1);
    var c := AsRead(Civil(ym.0, ym.1, DaysInMonth(q - 1) - i), year);
    assert MonthIndex(c.year, c.month) == q - 1;
    MonthStep(q - 1);
  }

  lemma OwnCell(year: int, month: int, d: int)
    requires 1 <= month <= 12 && 1 <= d <= DaysInMonth(MonthIndex(FullYear(year), month))
    ensures ShowsCell(Cell(Civil(year, month, d), true), MonthStart(MonthIndex(FullYear(year), month)) + d - 1, year, month)
  {
    hide MonthStart, DaysInMonth, FullYear;
  }

  /** One turn of the trailing loop: the cell after `last` is the day after it, and in the next month. */
  lemma TrailingCell(last: Cell, year: int, month: int, i: int)
    requires 1 <= month <= 12
    requires ShowsCell(last, GridStart(MonthIndex(FullYear(year), month)) + i, year, month)
    requires MondayBased(MonthStart(MonthIndex(FullYear(year), month))) + DaysInMonth(MonthIndex(FullYear(year), month)) - 1 <= i < 41
    ensures var c := last.date;
            var days := CivilFromDay(UtcDay(c.year, c.month, 0)).day;
            ShowsCell(Cell(Next(c, days), false), GridStart(MonthIndex(FullYear(year), month)) + i + 1, year, month)
  {
    hide MonthStart, DaysInMonth, MondayBased, CivilFromDay, UtcDay, FullYear;
    var q, c := MonthIndex(FullYear(year), month), AsRead(last.date, year);
    MonthStep(q);
    MonthBounds(c, q);
    MonthBounds(c, q + 2);
    MonthsApart(q, q + 2);
    FollowingCounts(c);
    MonthBounds(Following(c), q + 1);
    DayZeroCounts(last.date.year, last.date.month);
    JanuaryHas31(c.year);
    JanuaryHas31(FullYear(last.date.year));
    assert c.year == FullYear(year) || c.month == 1;
    assert AsRead(Next(last.date, DaysInMonth(MonthIndex(c.year, c.month))), year) == Following(c);
  }

  // --- What the specification says about the month --------------------------------------------

  /** Every column is one weekday: the first holds the days three after a multiple of seven, the Mondays. */
  lemma ColumnsAreWeekdays(out: seq<Cell>, year: int, month: int, i: nat)
    requires ShowsMonth(out, year, month) && i < 42
    ensures (DayNumber(AsRead(out[i].date, year)) + 3) % 7 == i % 7
  {
    hide MonthStart, DaysInMonth, MondayBased, FullYear;
    var first := MonthStart(MonthIndex(FullYear(year), month));
    assert ShowsCell(out[i], GridStart(MonthIndex(FullYear(year), month)) + i, year, month);
    WeekColumn(first, i);
    WeekdaysFollow(DayNumber(AsRead(out[i].date, year)));
  }

  lemma WeekColumn(first: int, i: int)
    requires 0 <= i
    ensures MondayBased(first - MondayBased(first) + i) == i % 7
  {
  }

  /** The marked cells are the days 1..n of the month, in order and without a gap; n is the length of the month read. */
  lemma MarkedCells(out: seq<Cell>, year: int, month: int, i: nat)
    requires 1 <= month <= 12 && ShowsMonth(out, year, month) && i < 42
    ensures var q := MonthIndex(FullYear(year), month);
            var d := i - (MonthStart(q) + 3) % 7 + 1;
            && (out[i].inMonth <==> 1 <= d <= DaysInMonth(q))
            && (out[i].inMonth ==> out[i].date == Civil(year, month, d))
  {
    hide MonthStart, DaysInMonth, MondayBased, FullYear;
    var q := MonthIndex(FullYear(year), month);
    var c := AsRead(out[i].date, year);
    assert ShowsCell(out[i], GridStart(q) + i, year, month);
    MonthBounds(c, q);
    MonthBounds(c, q + 1);
    MonthStep(q);
    MonthIndexSplits(FullYear(year), month);
    MonthIndexSplits(c.year, c.month);
    WeekdaysFollow(MonthStart(q));
  }

  /** Every day of the month read has its own cell, and no other day is marked. */
  lemma EveryDayShown(out: seq<Cell>, year: int, month: int, d: int)
    requires 1 <= month <= 12 && ShowsMonth(out, year, month)
    ensures Cell(Civil(year, month, d), true) in out <==> 1 <= d <= DaysInMonth(MonthIndex(FullYear(year), month))
  {
    hide MonthStart, DaysInMonth, MondayBased, ShowsPrefix, FullYear;
    var q := MonthIndex(FullYear(year), month);
    if 1 <= d <= DaysInMonth(q) {
      WeekdaysFollow(MonthStart(q));
      var i := MondayBased(MonthStart(q)) + d - 1;
      MarkedCells(out, year, month, i);
      assert out[i] == Cell(Civil(year, month, d), true);
    }
    if Cell(Civil(year, month, d), true) in out {
      var i :| 0 <= i < |out| && out[i] == Cell(Civil(year, month, d), true);
      MarkedCells(out, year, month, i);
    }
  }

  /** The century `Date.UTC` adds changes no month's length but that of February of year 0, as 1900 is no leap year. */
  lemma LengthsAsRead(y: int, m: int)
    requires 1 <= m <= 12
    ensures DaysInMonth(MonthIndex(FullYear(y), m)) == DaysInMonth(MonthIndex(y, m)) - (if y == 0 && m == 2 then 1 else 0)
  {
    MonthIndexSplits(y, m);
    MonthIndexSplits(FullYear(y), m);
    hide MonthIndex;
    if 0 <= y <= 99 {
      assert (y + 1900) % 4 == y % 4 && (y + 1900) % 100 == y % 100;
    }
  }

  lemma FebruaryOfYear0(c: Civil)
    requires c.Valid()
    ensures c == Civil(0, 2, 29) <==> c.year == 0 && c.month == 2 && c.day > DaysInMonth(MonthIndex(0, 2)) - 1
  {
    MonthIndexSplits(0, 2);
  }
}
