/** The picker's own state: the value it was handed, the month in view and the focused cell. */
module CalendarPicker {
  import opened Clocks
  import opened DateKeys
  import opened Gregorian
  import opened MonthGrid
  import opened TimeText
  import opened RangePicker
  import opened Wrappers

  // --- Moving the focus --------------------------------------------------------------------------

  /** The date a focused key names to the keyboard handlers. */
  function Focused(f: string): Civil
    requires ParseKey(f).Some?
  {
    ParseKey(f).value
  }

  /** The date `deltaDays` from a focused one, through `Date.UTC` and `setUTCDate`. */
  function Moved(c: Civil, deltaDays: int): Civil {
    CivilFromDay(UtcDay(c.year, c.month - 1, c.day) + deltaDays)
  }

  /** The key the focus moves to. */
  function MovedKey(f: string, deltaDays: int): string
    requires ParseKey(f).Some?
  {
    CellKey(Moved(Focused(f), deltaDays))
  }

  /** `currentRowIndex()`: how many days after Monday the focus is. */
  function RowIndex(f: string): (w: int)
    requires ParseKey(f).Some?
    ensures 0 <= w < 7
  {
    MondayBased(UtcDay(Focused(f).year, Focused(f).month - 1, Focused(f).day))
  }

  /** The day number the handlers read off a date's key: the date's own, but later for years before 100. */
  function DayRead(c: Civil): int
    requires c.Valid()
  {
    var d := if c.year >= 0 then c else Civil(0, -c.year, c.month);
    UtcDay(d.year, d.month - 1, d.day)
  }

  lemma KeysAreRead(c: Civil)
    requires c.Valid()
    ensures ParseKey(CellKey(c)).Some?
    ensures forall k :: Moved(Focused(CellKey(c)), k) == CivilFromDay(DayRead(c) + k)
    ensures RowIndex(CellKey(c)) == MondayBased(DayRead(c))
  {
    hide CellKey, ParseKey, CivilFromDay, UtcDay, MondayBased;
    KeyRoundTrip(c);
  }

  lemma DayReadIs(c: Civil)
    requires c.Valid()
    ensures if c.year >= 100 then DayRead(c) == DayNumber(c) else DayRead(c) > DayNumber(c) + 6
  {
    hide MonthStart, DaysInMonth;
    var p, q := MonthIndex(c.year, c.month), 12 * 1900;
    if 0 <= c.year < 100 {
      MonthStep(p);
      MonthsApart(MonthIndex(c.year + 1900, c.month), p);
    } else if c.year < 0 {
      MonthStep(p);
      MonthsApart(q, p + 1);
      MonthsApart(12 * 1900 - c.year - 1, q);
    }
  }

  /** Moving by `k` days and then by `-k` returns to the same cell iff both days are of year 100 or later. */
  lemma MoveThereAndBackIff(c: Civil, k: int)
    requires c.Valid()
    ensures ParseKey(CellKey(c)).Some? && ParseKey(MovedKey(CellKey(c), k)).Some?
    ensures MovedKey(MovedKey(CellKey(c), k), -k) == CellKey(c) <==> c.year >= 100 && Moved(c, k).year >= 100
  {
    hide DayNumber, CivilFromDay, UtcDay, CellKey, ParseKey, DayRead, FullYear;
    var r := CivilFromDay(DayRead(c) + k);
    KeysAreRead(c);
    KeysAreRead(r);
    DayReadIs(c);
    DayReadIs(r);
    var back := CivilFromDay(DayRead(r) - k);
    KeysIdentify(back, c);
    DayNumberOrders(back, c);
    if c.year >= 100 {
      ReadAsWritten(c);
      assert Moved(c, k) == r;
    }
  }

  lemma ReadAsWritten(c: Civil)
    requires c.Valid() && c.year >= 100
    ensures DayRead(c) == UtcDay(c.year, c.month - 1, c.day) == DayNumber(c)
  {
    hide MonthStart;
  }

  /** Home and End reach the Monday and the Sunday of one week; it is the focus's own iff that is of year 100 or later. */
  lemma HomeAndEndIff(c: Civil)
    requires c.Valid()
    ensures ParseKey(CellKey(c)).Some?
    ensures var f := CellKey(c);
            var home, end := Moved(Focused(f), -RowIndex(f)), Moved(Focused(f), 6 - RowIndex(f));
            && (DayNumber(home) + 3) % 7 == 0 && (DayNumber(end) + 3) % 7 == 6
            && DayNumber(end) == DayNumber(home) + 6
            && (DayNumber(home) <= DayNumber(c) <= DayNumber(end) <==> c.year >= 100)
  {
    hide DayNumber, CivilFromDay, UtcDay, MondayBased, CellKey, ParseKey, DayRead;
    KeysAreRead(c);
    DayReadIs(c);
    var home := DayRead(c) - MondayBased(DayRead(c));
    WeekColumn(DayRead(c), 0);
    WeekColumn(DayRead(c), 6);
    WeekdaysFollow(home);
    WeekdaysFollow(home + 6);
  }

  // --- The component --------------------------------------------------------------------------------

  /** The month in view after the value goes from `v` to `v'`: the effect runs when the start changes. */
  function ViewAfter(s: Setting, v: Option<Range>, v': Option<Range>, view: (int, int)): (int, int) {
    if v'.Some? && (v == None || v.value.start != v'.value.start)
    then (DateAt(s.clock, v'.value.start).year, DateAt(s.clock, v'.value.start).month)
    else view
  }

  class Picker {
    const s: Setting
    var value: Option<Range>
    var viewYear: int
    var viewMonth: int
    var focusedCell: Option<string>

    ghost predicate Valid()
      reads this
    {
      s.Valid() && 1 <= viewMonth <= 12 && (focusedCell.Some? ==> ParseKey(focusedCell.value).Some?)
    }

    constructor (s: Setting, value: Option<Range>)
      requires s.Valid()
      ensures Valid() && this.s == s && this.value == value && focusedCell == None
      ensures var c := DateAt(s.clock, Effective(s, value).start); (viewYear, viewMonth) == (c.year, c.month)
    {
      var anchor := DateAt(s.clock, if value.Some? then value.value.start else s.now);
      this.s, this.value, focusedCell := s, value, None;
      viewYear, viewMonth := anchor.year, anchor.month;
    }

    /** The parent stores what it is told, and the view follows a moved start. */
    method OnChange(next: Range)
      requires Valid()
      modifies this
      ensures Valid() && value == Some(next) && focusedCell == old(focusedCell)
      ensures old(value) == None || old(value.value.start) != next.start ==>
                viewYear == DateAt(s.clock, next.start).year && viewMonth == DateAt(s.clock, next.start).month
      ensures old(value).Some? && old(value.value.start) == next.start ==> (viewYear, viewMonth) == old((viewYear, viewMonth))
    {
      var moved := value == None || value.value.start != next.start;
      value := Some(next);
      if moved {
        var p := DateAt(s.clock, next.start);
        viewYear, viewMonth := p.year, p.month;
      }
    }

    method PickDay(c: Civil)
      requires Valid()
      modifies this
      ensures Valid() && focusedCell == old(focusedCell)
      ensures value == Apply(s, old(value), Edit.PickDay(c))
      ensures (viewYear, viewMonth) == ViewAfter(s, old(value), value, old((viewYear, viewMonth)))
    {
      hide UtcDay, CivilFromDay, ParseTimeStr, DurationMin, Snap, TimeAt, DateAt, InstantOf, CellKey, ParseKey;
      var r := Effective(s, value);
      var tp := TimeAt(s.clock, r.start);
      var snapped := Snap(tp.minutes, s.step);
      var newStart := InstantOf(s.clock, c, tp.hours + snapped / 60, snapped % 60);
      OnChange(Range(newStart, newStart + DurationMin(r) * MINUTE));
    }

    method ApplyStartTime(text: string)
      requires Valid()
      modifies this
      ensures Valid() && focusedCell == old(focusedCell)
      ensures value == Apply(s, old(value), StartTime(text))
      ensures (viewYear, viewMonth) == ViewAfter(s, old(value), value, old((viewYear, viewMonth)))
    {
      hide UtcDay, CivilFromDay, ParseTimeStr, DurationMin, Snap, TimeAt, DateAt, InstantOf, CellKey, ParseKey;
      var p := ParseTimeStr(text);
      if p == None {
        return;
      }
      var r := Effective(s, value);
      var snapped := Snap(p.value.minutes, s.step);
      var newStart := InstantOf(s.clock, DateAt(s.clock, r.start), p.value.hours + snapped / 60, snapped % 60);
      OnChange(Range(newStart, newStart + DurationMin(r) * MINUTE));
    }

    method ApplyEndTime(text: string)
      requires Valid()
      modifies this
      ensures Valid() && focusedCell == old(focusedCell)
      ensures value == Apply(s, old(value), EndTime(text))
      ensures (viewYear, viewMonth) == ViewAfter(s, old(value), value, old((viewYear, viewMonth)))
    {
      hide UtcDay, CivilFromDay, ParseTimeStr, DurationMin, Snap, TimeAt, DateAt, InstantOf, CellKey, ParseKey;
      var p := ParseTimeStr(text);
      if p == None {
        return;
      }
      var r := Effective(s, value);
      var snapped := Snap(p.value.minutes, s.step);
      var newEnd := InstantOf(s.clock, DateAt(s.clock, r.end), p.value.hours + snapped / 60, snapped % 60);
      if newEnd <= r.start {
        newEnd := newEnd + 24 * 60 * MINUTE;
      }
      OnChange(Range(r.start, newEnd));
    }

    method ApplyDuration(mins: int)
      requires Valid()
      modifies this
      ensures Valid() && focusedCell == old(focusedCell)
      ensures value == Apply(s, old(value), Duration(mins))
      ensures (viewYear, viewMonth) == ViewAfter(s, old(value), value, old((viewYear, viewMonth)))
    {
      hide UtcDay, CivilFromDay, ParseTimeStr, DurationMin, Snap, TimeAt, DateAt, InstantOf, CellKey, ParseKey, AtSnapped;
      var r := Effective(s, value);
      OnChange(Range(r.start, r.start + mins * MINUTE));
    }

    /** The month counted from year 0 moves by exactly `delta`; value and focus stay. */
    method ShiftMonth(delta: int)
      requires Valid()
      modifies this`viewYear, this`viewMonth
      ensures Valid()
      ensures MonthIndex(viewYear, viewMonth) == old(MonthIndex(viewYear, viewMonth)) + delta
    {
      var m := viewMonth + delta;
      var y := viewYear;
      while m < 1
        invariant 12 * y + m == 12 * viewYear + viewMonth + delta
        invariant m <= 12 || m == viewMonth + delta
        decreases 1 - m
      {
        m := m + 12;
        y := y - 1;
      }
      while m > 12
        invariant 12 * y + m == 12 * viewYear + viewMonth + delta && m >= 1
      {
        m := m - 12;
        y := y + 1;
      }
      viewMonth := m;
      viewYear := y;
    }

    /** The focus moves by `deltaDays` and the month in view is the new focus's. */
    method MoveFocus(deltaDays: int)
      requires Valid()
      modifies this`viewYear, this`viewMonth, this`focusedCell
      ensures Valid()
      ensures old(focusedCell) == None ==> unchanged(this)
      ensures old(focusedCell).Some? ==>
                var c := Moved(Focused(old(focusedCell).value), deltaDays);
                focusedCell == Some(CellKey(c)) && (viewYear, viewMonth) == (c.year, c.month)
    {
      hide UtcDay, CivilFromDay, CellKey, ParseKey;
      if focusedCell == None {
        return;
      }
      var c := Focused(focusedCell.value);
      var ref := CivilFromDay(UtcDay(c.year, c.month - 1, c.day) + deltaDays);
      KeyRoundTrip(ref);
      focusedCell := Some(CellKey(ref));
      if ref.year != viewYear || ref.month != viewMonth {
        viewYear := ref.year;
        viewMonth := ref.month;
      }
    }
  }

  /** After an edit that moves the start, the grid in view has a marked cell for the start's own day. */
  lemma StartIsShown(s: Setting, v: Option<Range>, r: Range, view: (int, int), out: seq<Cell>)
    requires (v == None || v.value.start != r.start) && DateAt(s.clock, r.start) != Civil(0, 2, 29)
    requires var (year, month) := ViewAfter(s, v, Some(r), view); ShowsMonth(out, year, month)
    ensures exists i :: 0 <= i < 42 && out[i] == Cell(DateAt(s.clock, r.start), true)
  {
    hide DateAt, FullYear, ShowsPrefix;
    FocusIsShownIff(DateAt(s.clock, r.start), out);
  }

  /** With a date's own month in view the grid has a cell of that month under the date's key; but not for 29 February of year 0. */
  lemma FocusIsShownIff(c: Civil, out: seq<Cell>)
    requires c.Valid() && ShowsMonth(out, c.year, c.month)
    ensures (exists i :: 0 <= i < 42 && out[i] == Cell(c, true)) <==> c != Civil(0, 2, 29)
    ensures forall i :: 0 <= i < 42 && out[i].inMonth ==>
              out[i].date.month >= 0 && out[i].date.day >= 0 && (CellKey(out[i].date) == CellKey(c) <==> out[i].date == c)
  {
    hide CellKey, ParseKey, FullYear, MonthStart, DaysInMonth, ShowsPrefix;
    EveryDayShown(out, c.year, c.month, c.day);
    LengthsAsRead(c.year, c.month);
    FebruaryOfYear0(c);
    forall i | 0 <= i < 42 && out[i].inMonth
      ensures out[i].date.month >= 0 && out[i].date.day >= 0 && (CellKey(out[i].date) == CellKey(c) <==> out[i].date == c)
    {
      MarkedCells(out, c.year, c.month, i);
      KeysIdentify(out[i].date, c);
    }
  }
}
