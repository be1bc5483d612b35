/** The days the calendar marks as taken: a walk through each reservation in steps of 24 hours. */
module ConflictDays {
  import opened Arithmetic
  import opened Clocks
  import opened Gregorian
  import opened DateKeys

  datatype Reservation = Reservation(start: int, end: int)

  /** The days the cursor stands on, walking from `cursor` up to `end`. */
  function Walk(z: Zone, cursor: int, end: int): set<int>
    decreases end - cursor
  {
    if cursor < end then {DayAt(z, cursor)} + Walk(z, cursor + DAY, end) else {}
  }

  function WalkAll(z: Zone, cs: seq<Reservation>): set<int> {
    if cs == [] then {} else WalkAll(z, cs[..|cs| - 1]) + Walk(z, cs[|cs| - 1].start, cs[|cs| - 1].end)
  }

  function KeysOf(days: set<int>): set<string> {
    set d | d in days :: CellKey(CivilFromDay(d))
  }

  method MarkConflicts(z: Zone, cs: seq<Reservation>) returns (marks: set<string>)
    ensures marks == KeysOf(WalkAll(z, cs))
  {
    hide CellKey, CivilFromDay, DayAt;
    marks := {};
    ghost var days: set<int> := {};
    var i := 0;
    while i < |cs|
      invariant 0 <= i <= |cs|
      invariant days == WalkAll(z, cs[..i])
      invariant marks == KeysOf(days)
    {
      assert cs[..i + 1][..i] == cs[..i];
      ghost var before := days;
      var cursor := cs[i].start;
      while cursor < cs[i].end
        invariant days + Walk(z, cursor, cs[i].end) == before + Walk(z, cs[i].start, cs[i].end)
        invariant marks == KeysOf(days)
        decreases cs[i].end - cursor
      {
        assert DayAt(z, cursor) in before + Walk(z, cs[i].start, cs[i].end);
        var p := CivilFromDay(DayAt(z, cursor));
        marks := marks + {CellKey(p)};
        days := days + {DayAt(z, cursor)};
        cursor := cursor + DAY;
      }
      i := i + 1;
    }
    assert cs[..i] == cs;
  }

  /** A day's key is marked iff some reservation's walk stands on that day. */
  lemma MarkedIff(z: Zone, cs: seq<Reservation>, d: int)
    ensures CellKey(CivilFromDay(d)) in KeysOf(WalkAll(z, cs)) <==> exists i :: 0 <= i < |cs| && d in Walk(z, cs[i].start, cs[i].end)
  {
    hide CellKey, CivilFromDay, Walk;
    WalkAllIs(z, cs, d);
    if CellKey(CivilFromDay(d)) in KeysOf(WalkAll(z, cs)) {
      var e :| e in WalkAll(z, cs) && CellKey(CivilFromDay(e)) == CellKey(CivilFromDay(d));
      KeysIdentify(CivilFromDay(d), CivilFromDay(e));
    }
  }

  lemma {:induction false} WalkAllIs(z: Zone, cs: seq<Reservation>, d: int)
    ensures d in WalkAll(z, cs) <==> exists i :: 0 <= i < |cs| && d in Walk(z, cs[i].start, cs[i].end)
  {
    hide Walk;
    if cs != [] {
      WalkAllIs(z, cs[..|cs| - 1], d);
    }
  }

  // --- In any zone: nothing is marked that is free -----------------------------------------------

  /** Every marked day is the day of some instant of the reservation. */
  lemma {:induction false} MarkedDaysAreTaken(z: Zone, cursor: int, end: int, d: int)
    requires d in Walk(z, cursor, end)
    ensures exists t :: cursor <= t < end && DayAt(z, t) == d
    decreases end - cursor
  {
    if d != DayAt(z, cursor) {
      MarkedDaysAreTaken(z, cursor + DAY, end, d);
    }
  }

  // --- In a zone with one offset: exactly which days are marked ----------------------------------

  /** The steps the walk takes: the reservation's length in days, rounded up. */
  function Steps(start: int, end: int): int {
    (end - start + DAY - 1) / DAY
  }

  /** The walk marks exactly the consecutive days from the first, one per step. */
  lemma {:induction false} FixedZoneMarks(z: Zone, off: int, start: int, end: int, d: int)
    requires forall t :: z(t) == off
    ensures d in Walk(z, start, end) <==> DayAt(z, start) <= d < DayAt(z, start) + Steps(start, end)
    decreases end - start
  {
    if start < end {
      FixedZoneMarks(z, off, start + DAY, end, d);
      assert DayAt(z, start + DAY) == DayAt(z, start) + 1;
      assert Steps(start, end) == Steps(start + DAY, end) + 1;
      assert Steps(start, end) >= 1;
    }
  }

  /**
   A day the reservation takes is left unmarked iff it is its last one and the reservation ends at an
   earlier time of day than it starts.
  */
  lemma UnmarkedIff(z: Zone, off: int, start: int, end: int, t: int)
    requires forall u :: z(u) == off
    requires start <= t < end
    ensures DayAt(z, t) !in Walk(z, start, end) <==>
              DayAt(z, t) == DayAt(z, end - 1) && TimeOfDay(z, end - 1) < TimeOfDay(z, start)
  {
    FixedZoneMarks(z, off, start, end, DayAt(z, t));
    var a, b := start + off, end - 1 + off;
    StepsBetween(a, b);
    assert Steps(start, end) == (b - a) / DAY + 1 by { assert end - start + DAY - 1 == b - a + DAY; }
    Monotone(a, t + off);
    Monotone(t + off, b);
    if (t + off) / DAY == b / DAY {
    } else {
      assert (t + off) / DAY <= b / DAY - 1;
    }
  }

  lemma Monotone(a: int, b: int)
    requires a <= b
    ensures a / DAY <= b / DAY
  {
  }

  lemma StepsBetween(a: int, b: int)
    requires a <= b
    ensures (b - a) / DAY == b / DAY - a / DAY - (if b % DAY < a % DAY then 1 else 0)
  {
    var k := b / DAY - a / DAY;
    if b % DAY < a % DAY {
      DivUnique(b - a, DAY, k - 1, b % DAY - a % DAY + DAY);
    } else {
      DivUnique(b - a, DAY, k, b % DAY - a % DAY);
    }
  }

  /** An overnight reservation, 22:00 to 06:00: the second day is taken but not marked. */
  lemma OvernightLosesItsMorning(z: Zone, midnight: int)
    requires (forall t :: z(t) == 0) && midnight % DAY == 0
    ensures var start, end := midnight + 22 * 3_600_000, midnight + 30 * 3_600_000;
            && DayAt(z, end - 1) == DayAt(z, start) + 1
            && DayAt(z, end - 1) !in Walk(z, start, end)
  {
    var start, end := midnight + 22 * 3_600_000, midnight + 30 * 3_600_000;
    DivUnique(start, DAY, midnight / DAY, 22 * 3_600_000);
    DivUnique(end - 1, DAY, midnight / DAY + 1, 6 * 3_600_000 - 1);
    UnmarkedIff(z, 0, start, end, end - 1);
  }

  // --- In a zone that changes once ------------------------------------------------------------------

  /** How many of the walk's cursors stand before the change. */
  function StepsBefore(start: int, end: int, at: int): int {
    var n := Steps(start, if at < end then at else end);
    if n < 0 then 0 else n
  }

  /** The marks are the days of the cursors before the change and, counted with the new offset, of those after it. */
  lemma {:induction false} OneChangeMarks(z: Zone, c: Change, start: int, end: int, d: int)
    requires ChangesOnce(z, c)
    ensures var day, moved, n := (start + c.before) / DAY, (start + c.after) / DAY, StepsBefore(start, end, c.at);
            d in Walk(z, start, end) <==> day <= d < day + n || moved + n <= d < moved + Steps(start, end)
    decreases end - start
  {
    if start < end {
      OneChangeMarks(z, c, start + DAY, end, d);
      OneStepLess(start, end);
      OneStepLess(start, if c.at < end then c.at else end);
      assert (start + DAY + c.before) / DAY == (start + c.before) / DAY + 1;
      assert (start + DAY + c.after) / DAY == (start + c.after) / DAY + 1;
      hide Steps;
      assert DayAt(z, start) == (start + c.Offset(start)) / DAY;
    }
  }

  lemma OneStepLess(start: int, end: int)
    ensures Steps(start + DAY, end) == Steps(start, end) - 1
    ensures Steps(start, end) >= 1 <==> start < end
  {
  }

  /** The reservation holds an instant of the day. */
  ghost predicate Taken(z: Zone, start: int, end: int, d: int) {
    exists u :: start <= u < end && DayAt(z, u) == d
  }

  /** The taken days are those from the start to the change and those from the change to the end. */
  lemma OneChangeTaken(z: Zone, c: Change, start: int, end: int, d: int)
    requires ChangesOnce(z, c) && start < c.at < end
    ensures Taken(z, start, end, d) <==>
              || (start + c.before) / DAY <= d <= (c.at - 1 + c.before) / DAY
              || (c.at + c.after) / DAY <= d <= (end - 1 + c.after) / DAY
  {
    if Taken(z, start, end, d) {
      var u :| start <= u < end && DayAt(z, u) == d;
      if u < c.at {
        Monotone(start + c.before, u + c.before);
        Monotone(u + c.before, c.at - 1 + c.before);
      } else {
        Monotone(c.at + c.after, u + c.after);
        Monotone(u + c.after, end - 1 + c.after);
      }
    }
    if (start + c.before) / DAY <= d <= (c.at - 1 + c.before) / DAY {
      var u := InstantOfDay(start, c.at, c.before, d);
      assert DayAt(z, u) == d;
    }
    if (c.at + c.after) / DAY <= d <= (end - 1 + c.after) / DAY {
      var u := InstantOfDay(c.at, end, c.after, d);
      assert DayAt(z, u) == d;
    }
  }

  lemma InstantOfDay(from: int, to: int, off: int, d: int) returns (u: int)
    requires (from + off) / DAY <= d <= (to - 1 + off) / DAY && from < to
    ensures from <= u < to && (u + off) / DAY == d
  {
    u := if from < d * DAY - off then d * DAY - off else from;
  }

  /** The numbers that decide which taken days are marked. */
  datatype Shape = Shape(day: int, moved: int, before: int, steps: int, eve: int, morrow: int, last: int)

  /**
   `day` and `moved`: the start's day by the old and the new offset; `before` and `steps`: the cursors before the
   change and all of them; `eve` and `morrow`: the days on the two sides of the change; `last`: the day of the end.
  */
  function ShapeOf(c: Change, start: int, end: int): Shape {
    Shape((start + c.before) / DAY, (start + c.after) / DAY, StepsBefore(start, end, c.at), Steps(start, end),
          (c.at - 1 + c.before) / DAY, (c.at + c.after) / DAY, (end - 1 + c.after) / DAY)
  }

  /** The clock shows an earlier time of day at the second instant than at the first. */
  predicate Earlier(off: int, first: int, second: int) {
    (second + off) % DAY < (first + off) % DAY
  }

  lemma ShapeFacts(c: Change, start: int, end: int)
    requires start < c.at < end && -DAY < c.after - c.before < DAY
    ensures var s := ShapeOf(c, start, end);
            && 1 <= s.before <= s.steps
            && -1 <= s.moved - s.day <= 1 && -1 <= s.morrow - s.eve <= 1 && s.morrow <= s.last
            && s.eve == s.day + s.before - (if Earlier(c.before, start, c.at - 1) then 0 else 1)
            && s.last == s.moved + s.steps - (if Earlier(c.after, start, end - 1) then 0 else 1)
            && (s.before < s.steps <==> c.at <= start + (s.steps - 1) * DAY)
  {
    StepsBeforeIs(start, end, c.at);
    BeforeAre(start, end, c.at);
    hide Steps, StepsBefore;
    DaysApart(start + c.before, start + c.after);
    NextDay(c.at - 1 + c.before, c.at + c.after);
    Monotone(c.at + c.after, end - 1 + c.after);
    DaysToTheEnd(c.before, start, c.at);
    DaysToTheEnd(c.after, start, end);
  }

  lemma BeforeAre(start: int, end: int, at: int)
    requires start < at < end
    ensures StepsBefore(start, end, at) == Steps(start, at)
  {
    OneStepLess(start, at);
  }

  /** The last day of a window lies as many days on as there are steps, one less unless it ends earlier in the day. */
  lemma DaysToTheEnd(off: int, start: int, end: int)
    requires start < end
    ensures (end - 1 + off) / DAY == (start + off) / DAY + Steps(start, end) - (if Earlier(off, start, end - 1) then 0 else 1)
  {
    StepsAre(start, end);
    hide Steps;
    StepsBetween(start + off, end - 1 + off);
    assert end - 1 + off - (start + off) == end - 1 - start;
  }

  lemma StepsAre(start: int, end: int)
    requires start < end
    ensures Steps(start, end) == (end - 1 - start) / DAY + 1
  {
    assert end - start + DAY - 1 == end - 1 - start + DAY;
  }

  lemma NextDay(a: int, b: int)
    requires -DAY < b - a <= DAY
    ensures -1 <= b / DAY - a / DAY <= 1
  {
  }

  /** Some taken day before the end's own is left unmarked. */
  ghost predicate MissesBefore(z: Zone, start: int, end: int) {
    exists d :: Taken(z, start, end, d) && d < DayAt(z, end - 1) && d !in Walk(z, start, end)
  }

  /**
   Which happens iff the clock is moved within the reservation, and either forward so that the start's time of day
   passes midnight, with the end after the day that skips, or back to a day before the start's.
  */
  lemma MissesBeforeIff(z: Zone, c: Change, start: int, end: int)
    requires ChangesOnce(z, c) && -DAY < c.after - c.before < DAY && start < end
    ensures var s := ShapeOf(c, start, end);
            MissesBefore(z, start, end) <==>
              && start < c.at < end
              && ((s.day < s.moved && s.day + s.before < s.last) || (s.morrow < s.day && s.morrow < s.last))
  {
    hide Walk;
    var s := ShapeOf(c, start, end);
    if start < c.at < end {
      ShapeFacts(c, start, end);
      assert DayAt(z, end - 1) == s.last;
      hide ShapeOf;
      forall d ensures d in Walk(z, start, end) <==> s.day <= d < s.day + s.before || s.moved + s.before <= d < s.moved + s.steps
               ensures Taken(z, start, end, d) <==> s.day <= d <= s.eve || s.morrow <= d <= s.last
      {
        MarksAndTaken(z, c, start, end, d);
      }
      hide Taken;
      if s.day < s.moved && s.day + s.before < s.last {
        assert Taken(z, start, end, s.day + s.before) && s.day + s.before !in Walk(z, start, end);
      }
      if s.morrow < s.day && s.morrow < s.last {
        assert Taken(z, start, end, s.morrow) && s.morrow !in Walk(z, start, end);
      }
    } else {
      NoMissWithoutChange(z, c, start, end);
    }
  }

  lemma MarksAndTaken(z: Zone, c: Change, start: int, end: int, d: int)
    requires ChangesOnce(z, c) && start < c.at < end
    ensures var s := ShapeOf(c, start, end);
            && (d in Walk(z, start, end) <==> s.day <= d < s.day + s.before || s.moved + s.before <= d < s.moved + s.steps)
            && (Taken(z, start, end, d) <==> s.day <= d <= s.eve || s.morrow <= d <= s.last)
  {
    hide Walk, Taken, Steps, StepsBefore;
    OneChangeMarks(z, c, start, end, d);
    OneChangeTaken(z, c, start, end, d);
  }

  /** Without a change inside, only the end's own day can be missed, as in a zone with one offset. */
  lemma NoChangeInside(z: Zone, c: Change, start: int, end: int, t: int)
    requires ChangesOnce(z, c) && start <= t < end && !(start < c.at < end)
    ensures DayAt(z, t) !in Walk(z, start, end) <==>
              DayAt(z, t) == DayAt(z, end - 1) && Earlier(c.Offset(end - 1), start, end - 1)
  {
    var off := c.Offset(end - 1);
    var fixed: Zone := u => off;
    assert forall u :: start <= u < end ==> z(u) == off;
    SameWalk(z, fixed, start, end);
    UnmarkedIff(fixed, off, start, end, t);
  }

  lemma {:induction false} SameWalk(z: Zone, y: Zone, start: int, end: int)
    requires forall u :: start <= u < end ==> z(u) == y(u)
    ensures Walk(z, start, end) == Walk(y, start, end)
    decreases end - start
  {
    if start < end {
      SameWalk(z, y, start + DAY, end);
    }
  }

  lemma NoMissWithoutChange(z: Zone, c: Change, start: int, end: int)
    requires ChangesOnce(z, c) && start < end && !(start < c.at < end)
    ensures !MissesBefore(z, start, end)
  {
    hide Walk;
    if MissesBefore(z, start, end) {
      var d :| Taken(z, start, end, d) && d < DayAt(z, end - 1) && d !in Walk(z, start, end);
      var u :| start <= u < end && DayAt(z, u) == d;
      NoChangeInside(z, c, start, end, u);
    }
  }

  /**
   The end's own day is left unmarked iff the reservation ends at an earlier time of day than it starts, both told
   by the offset at the end. If the clock moves after the last cursor the day on which that offset puts the start
   matters too: an earlier end is then missed unless that is the day before, and any other end only if it is the
   day after, or the day before with a single cursor.
  */
  lemma LastUnmarkedIff(z: Zone, c: Change, start: int, end: int)
    requires ChangesOnce(z, c) && -DAY < c.after - c.before < DAY && start < end
    ensures var s, earlier := ShapeOf(c, start, end), Earlier(c.Offset(end - 1), start, end - 1);
            DayAt(z, end - 1) !in Walk(z, start, end) <==>
              if start + (s.steps - 1) * DAY < c.at < end
              then (if earlier then s.moved >= s.day else s.moved > s.day || (s.moved < s.day && s.steps == 1))
              else earlier
  {
    hide Walk;
    var s := ShapeOf(c, start, end);
    OneStepLess(start, end);
    if start < c.at < end {
      ShapeFacts(c, start, end);
      assert DayAt(z, end - 1) == s.last;
      MarksAndTaken(z, c, start, end, s.last);
    } else {
      NoChangeInside(z, c, start, end, end - 1);
    }
  }

  /** Some taken day after the end's own is left unmarked: the clock has been put back past midnight. */
  ghost predicate MissesAfter(z: Zone, start: int, end: int) {
    exists d :: Taken(z, start, end, d) && d > DayAt(z, end - 1) && d !in Walk(z, start, end)
  }

  lemma MissesAfterIff(z: Zone, c: Change, start: int, end: int)
    requires ChangesOnce(z, c) && -DAY < c.after - c.before < DAY && start < end
    ensures var s := ShapeOf(c, start, end);
            MissesAfter(z, start, end) <==>
              start < c.at < end && s.eve > s.last && Earlier(c.before, start, c.at - 1)
  {
    hide Walk;
    var s := ShapeOf(c, start, end);
    if start < c.at < end {
      ShapeFacts(c, start, end);
      assert DayAt(z, end - 1) == s.last;
      hide ShapeOf;
      forall d ensures d in Walk(z, start, end) <==> s.day <= d < s.day + s.before || s.moved + s.before <= d < s.moved + s.steps
               ensures Taken(z, start, end, d) <==> s.day <= d <= s.eve || s.morrow <= d <= s.last
      {
        MarksAndTaken(z, c, start, end, d);
      }
      hide Taken;
      if s.eve > s.last && Earlier(c.before, start, c.at - 1) {
        assert Taken(z, start, end, s.eve) && s.eve !in Walk(z, start, end);
      }
    } else if MissesAfter(z, start, end) {
      var d :| Taken(z, start, end, d) && d > DayAt(z, end - 1) && d !in Walk(z, start, end);
      var u :| start <= u < end && DayAt(z, u) == d;
      NoChangeInside(z, c, start, end, u);
    }
  }

  /** The day the walk's last cursor stands on. */
  function LastMarked(z: Zone, start: int, end: int): int {
    DayAt(z, start + (Steps(start, end) - 1) * DAY)
  }

  /** A day between the first and the last marked one that is not marked itself. */
  ghost predicate StepsOver(z: Zone, start: int, end: int) {
    exists d :: DayAt(z, start) < d < LastMarked(z, start, end) && d !in Walk(z, start, end)
  }

  /**
   The walk steps over a day iff the clock moves between its first and its last cursor and the move takes the
   start's time of day past midnight.
  */
  lemma StepsOverIff(z: Zone, c: Change, start: int, end: int)
    requires ChangesOnce(z, c) && -DAY < c.after - c.before < DAY && start < end
    ensures StepsOver(z, start, end) <==>
              start < c.at <= start + (Steps(start, end) - 1) * DAY && (start + c.before) / DAY < (start + c.after) / DAY
  {
    hide Walk;
    var day, moved, m, n := (start + c.before) / DAY, (start + c.after) / DAY, Steps(start, end), StepsBefore(start, end, c.at);
    OneStepLess(start, end);
    StepsBeforeIs(start, end, c.at);
    DaysApart(start + c.before, start + c.after);
    WholeDays(start + c.before, m - 1);
    WholeDays(start + c.after, m - 1);
    hide Steps, StepsBefore;
    forall d ensures d in Walk(z, start, end) <==> day <= d < day + n || moved + n <= d < moved + m {
      OneChangeMarks(z, c, start, end, d);
    }
    if 1 <= n < m && day < moved {
      assert day + n !in Walk(z, start, end);
      assert LastMarked(z, start, end) == moved + m - 1;
    }
  }

  lemma StepsBeforeIs(start: int, end: int, at: int)
    requires start < end
    ensures var n, m := StepsBefore(start, end, at), Steps(start, end);
            && 0 <= n <= m
            && (n >= 1 <==> start < at)
            && (n < m <==> at <= start + (m - 1) * DAY)
  {
  }

  lemma DaysApart(a: int, b: int)
    requires -DAY < b - a < DAY
    ensures -1 <= b / DAY - a / DAY <= 1
  {
  }

  lemma WholeDays(a: int, n: int)
    ensures (a + n * DAY) / DAY == a / DAY + n
  {
    DivUnique(a + n * DAY, DAY, a / DAY + n, a % DAY);
  }

  /**
   Central Europe puts its clocks from 02:00 to 03:00 at 01:00 UTC on a Sunday. A reservation of two days from
   23:30 the evening before marks that Saturday and the Monday: the Sunday is taken, but not marked.
  */
  lemma SpringForwardSkipsSunday(z: Zone, sunday: int)
    requires ChangesOnce(z, Change(sunday * DAY + HOUR, HOUR, 2 * HOUR))
    ensures var start := sunday * DAY - HOUR - 30 * MINUTE; var end := start + 2 * DAY;
            && DayAt(z, start) == sunday - 1 && TimeOfDay(z, start) == 23 * HOUR + 30 * MINUTE
            && start < sunday * DAY + 12 * HOUR < end && DayAt(z, sunday * DAY + 12 * HOUR) == sunday
            && (forall d :: d in Walk(z, start, end) <==> d == sunday - 1 || d == sunday + 1)
  {
    var c, start := Change(sunday * DAY + HOUR, HOUR, 2 * HOUR), sunday * DAY - HOUR - 30 * MINUTE;
    var end := start + 2 * DAY;
    DivUnique(start + HOUR, DAY, sunday - 1, DAY - 30 * MINUTE);
    DivUnique(start + 2 * HOUR, DAY, sunday, 30 * MINUTE);
    DivUnique(sunday * DAY + 14 * HOUR, DAY, sunday, 14 * HOUR);
    hide Walk;
    forall d ensures d in Walk(z, start, end) <==> d == sunday - 1 || d == sunday + 1 {
      OneChangeMarks(z, c, start, end, d);
    }
  }

  /** For a day from that 23:30 on only the Saturday is marked: the whole of Sunday and half an hour of Monday are not. */
  lemma ADayFromTheEveMissesSunday(z: Zone, sunday: int)
    requires ChangesOnce(z, Change(sunday * DAY + HOUR, HOUR, 2 * HOUR))
    ensures var start := sunday * DAY - HOUR - 30 * MINUTE; var end := start + DAY;
            && (forall d :: d in Walk(z, start, end) <==> d == sunday - 1)
            && DayAt(z, end - 1) == sunday + 1 && MissesBefore(z, start, end)
            && forall u :: DayAt(z, u) == sunday ==> start <= u < end
  {
    hide Walk;
    var c, start := Change(sunday * DAY + HOUR, HOUR, 2 * HOUR), sunday * DAY - HOUR - 30 * MINUTE;
    var end := start + DAY;
    EveOfTheChange(sunday);
    DivUnique(end - 1 + 2 * HOUR, DAY, sunday + 1, 30 * MINUTE - 1);
    forall d ensures d in Walk(z, start, end) <==> d == sunday - 1 {
      OneChangeMarks(z, c, start, end, d);
    }
    forall u | DayAt(z, u) == sunday
      ensures start <= u < end
    {
      assert sunday * DAY <= Local(z, u) < sunday * DAY + DAY;
    }
    DivUnique(sunday * DAY + 14 * HOUR, DAY, sunday, 14 * HOUR);
    assert DayAt(z, sunday * DAY + 12 * HOUR) == sunday;
    assert Taken(z, start, end, sunday);
  }

  lemma EveOfTheChange(sunday: int)
    ensures var start := sunday * DAY - HOUR - 30 * MINUTE;
            (start + HOUR) / DAY == sunday - 1 && (start + 2 * HOUR) / DAY == sunday
  {
    var start := sunday * DAY - HOUR - 30 * MINUTE;
    DivUnique(start + HOUR, DAY, sunday - 1, DAY - 30 * MINUTE);
    DivUnique(start + 2 * HOUR, DAY, sunday, 30 * MINUTE);
  }

  /** For half an hour less the Sunday, its last day, is unmarked although it ends later in the day than it starts. */
  lemma AnEndLaterInTheDayIsMissed(z: Zone, sunday: int)
    requires ChangesOnce(z, Change(sunday * DAY + HOUR, HOUR, 2 * HOUR))
    ensures var start := sunday * DAY - HOUR - 30 * MINUTE; var end := start + DAY - 30 * MINUTE;
            && DayAt(z, end - 1) == sunday && sunday !in Walk(z, start, end)
            && TimeOfDay(z, start) == 23 * HOUR + 30 * MINUTE < TimeOfDay(z, end - 1)
  {
    hide Walk;
    var c, start := Change(sunday * DAY + HOUR, HOUR, 2 * HOUR), sunday * DAY - HOUR - 30 * MINUTE;
    var end := start + DAY - 30 * MINUTE;
    EveOfTheChange(sunday);
    DivUnique(start + HOUR, DAY, sunday - 1, DAY - 30 * MINUTE);
    DivUnique(end - 1 + 2 * HOUR, DAY, sunday, DAY - 1);
    OneChangeMarks(z, c, start, end, sunday);
  }
}
